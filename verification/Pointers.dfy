/** Structures in memory, and lists of pointers to them. */
module Pointers {
  import opened Sequences
  import opened SortedInsert
  import opened RestoreOrder
  import opened LinkedList

  type Memory<T> = map<Pointer, T>

  ghost predicate Points<T>(items: seq<Pointer>, memory: Memory<T>) {
    forall i :: 0 <= i < |items| ==> items[i] in memory
  }

  ghost predicate NoRepeats(items: seq<Pointer>) {
    forall i, j :: 0 <= i < j < |items| ==> items[i] != items[j]
  }

  ghost predicate Apart(a: seq<Pointer>, b: seq<Pointer>) {
    forall i, j :: 0 <= i < |a| && 0 <= j < |b| ==> a[i] != b[j]
  }

  /** What the pointers of a list point to. */
  ghost function Contents<T>(items: seq<Pointer>, memory: Memory<T>): (r: seq<T>)
    requires Points(items, memory)
    ensures |r| == |items| && forall i :: 0 <= i < |items| ==> r[i] == memory[items[i]]
  {
    seq(|items|, i requires 0 <= i < |items| => memory[items[i]])
  }

  /** The key of what a pointer points to. */
  function At<T>(key: T -> int, memory: Memory<T>): Pointer -> int {
    (p: Pointer) => if p in memory then key(memory[p]) else 0
  }

  function Is(p: Pointer): Pointer -> bool {
    (q: Pointer) => q == p
  }

  lemma ContentsWithout<T>(items: seq<Pointer>, memory: Memory<T>, k: nat)
    requires Points(items, memory) && NoRepeats(items) && k < |items|
    ensures var rest, less := Without(items, k), memory - {items[k]};
            Points(rest, less) && NoRepeats(rest) && Contents(rest, less) == Without(Contents(items, memory), k)
  {
    var rest, less := Without(items, k), memory - {items[k]};
    forall i | 0 <= i < |rest| ensures rest[i] in less && rest[i] == items[if i < k then i else i + 1] {
      assert rest[i] == items[if i < k then i else i + 1];
    }
    assert Contents(rest, less) == Without(Contents(items, memory), k);
  }

  /** A list is not touched by a change of memory elsewhere. */
  lemma ContentsElsewhere<T>(items: seq<Pointer>, memory: Memory<T>, after: Memory<T>)
    requires Points(items, memory)
    requires forall i :: 0 <= i < |items| ==> items[i] in after && after[items[i]] == memory[items[i]]
    ensures Points(items, after) && Contents(items, after) == Contents(items, memory)
  {
  }

  lemma ContentsWith<T>(items: seq<Pointer>, memory: Memory<T>, k: nat, p: Pointer, x: T)
    requires Points(items, memory) && NoRepeats(items) && k <= |items| && p !in memory
    ensures var more, after := items[..k] + [p] + items[k..], memory[p := x];
            && Points(more, after) && NoRepeats(more)
            && Contents(more, after) == Contents(items, memory)[..k] + [x] + Contents(items, memory)[k..]
  {
    var more, after := items[..k] + [p] + items[k..], memory[p := x];
    assert forall i :: 0 <= i < |items| ==> items[i] != p;
    assert Contents(more, after) == Contents(items, memory)[..k] + [x] + Contents(items, memory)[k..];
  }

  lemma ContentsUpdated<T>(items: seq<Pointer>, memory: Memory<T>, k: nat, x: T)
    requires Points(items, memory) && NoRepeats(items) && k < |items|
    ensures var after := memory[items[k] := x];
            Points(items, after) && Contents(items, after) == Contents(items, memory)[k := x]
  {
    assert forall i :: 0 <= i < |items| && i != k ==> items[i] != items[k];
  }

  /** Sorted insertion of a pointer by the key it points to. */
  lemma {:induction false} ContentsInserted<T>(key: T -> int, items: seq<Pointer>, memory: Memory<T>, p: Pointer)
    requires Points(items, memory) && p in memory
    ensures Points(Insert(At(key, memory), items, p), memory)
    ensures Contents(Insert(At(key, memory), items, p), memory) == Insert(key, Contents(items, memory), memory[p])
  {
    var at := At(key, memory);
    if items == [] {
      assert Contents([p], memory) == [memory[p]];
    } else if at(p) < at(items[0]) {
      assert Insert(at, items, p) == [p] + items;
      assert Contents([p] + items, memory) == [memory[p]] + Contents(items, memory);
    } else {
      ContentsInserted(key, items[1..], memory, p);
      assert Contents(items, memory)[1..] == Contents(items[1..], memory);
      var rest := Insert(at, items[1..], p);
      assert Insert(at, items, p) == [items[0]] + rest;
      assert Contents([items[0]] + rest, memory) == [memory[items[0]]] + Contents(rest, memory);
    }
  }

  /** wrapMsgID on pointers is wrapMsgID on what they point to. */
  lemma ContentsWrapped<T>(key: T -> int, items: seq<Pointer>, memory: Memory<T>)
    requires Points(items, memory)
    ensures Points(Wrap(At(key, memory), items), memory)
    ensures Contents(Wrap(At(key, memory), items), memory) == Wrap(key, Contents(items, memory))
  {
    hide WrapIndex;
    var all := Contents(items, memory);
    assert Keys(At(key, memory), items) == Keys(key, all) by { KeysAgree(key, items, memory); }
    if items != [] {
      var k := WrapIndex(Keys(key, all), 1, 0);
      assert Contents(Rotate(items, k), memory) == Rotate(all, k);
    }
  }

  lemma KeysAgree<T>(key: T -> int, items: seq<Pointer>, memory: Memory<T>)
    requires Points(items, memory)
    ensures Keys(At(key, memory), items) == Keys(key, Contents(items, memory))
  {
  }

  lemma NoRepeatsContents(a: seq<Pointer>, b: seq<Pointer>)
    requires NoRepeats(a) && multiset(a) == multiset(b)
    ensures NoRepeats(b)
  {
    var self := (p: Pointer) => p;
    DistinctPermuted(self, a, b);
    assert forall i :: 0 <= i < |b| ==> self(b[i]) == b[i];
  }

  lemma FoundOnce(items: seq<Pointer>, p: Pointer, k: nat)
    requires NoRepeats(items) && k < |items| && items[k] == p
    ensures FirstMatch(Is(p), items) == k && forall i :: 0 <= i < |items| && Is(p)(items[i]) ==> i == k
  {
  }

  // ---------- list operations by content ----------

  /** ListRemove of a pointer that is in the list once. */
  method RemovePointer(list: List, p: Pointer, ghost k: nat)
    requires list.Valid() && NoRepeats(list.items) && k < |list.items| && list.items[k] == p
    modifies list, list.elems
    ensures list.Valid() && list.items == Without(old(list.items), k)
    ensures k < |old(list.elems)| && list.elems == Without(old(list.elems), k)
  {
    FoundOnce(list.items, p, k);
    var removed, at := list.Unlink(Is(p));
    assert at == k;
  }

  /** ListAppend. */
  method AppendPointer(list: List, p: Pointer)
    requires list.Valid()
    modifies list, list.elems
    ensures list.Valid() && list.items == old(list.items) + [p]
    ensures |list.elems| == |old(list.elems)| + 1 && list.elems[..|old(list.elems)|] == old(list.elems)
    ensures fresh(list.elems[|old(list.elems)|])
  {
    var newel := new ListElement(p);
    list.AppendNoMalloc(p, newel);
  }

  /** ListInsert in front of an element. */
  method InsertPointer(list: List, p: Pointer, index: ListElement, ghost k: nat)
    requires list.Valid() && k < |list.elems| && index == list.elems[k]
    modifies list, list.elems
    ensures list.Valid() && list.items == old(list.items)[..k] + [p] + old(list.items)[k..]
    ensures |list.elems| == |old(list.elems)| + 1 && fresh(list.elems[k])
    ensures list.elems == old(list.elems)[..k] + [list.elems[k]] + old(list.elems)[k..]
  {
    list.Insert(p, index, k);
  }

  lemma AtEnd<T>(s: seq<T>, x: T)
    ensures s[..|s|] + [x] + s[|s|..] == s + [x]
  {
  }
}
