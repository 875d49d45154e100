/** The loops over a list whose results the rest of the client relies on. */
module ListUsers {
  import opened MessageIds
  import opened LinkedList
  import opened SortedInsert
  import opened RestoreOrder

  /** MQTTPersistence_insertInOrder and MQTTPersistence_insertInSeqOrder. */
  method InsertInOrder(list: List, content: Pointer, key: Pointer -> int) returns (ghost pos: nat)
    requires list.Valid()
    modifies list, list.elems
    ensures pos <= |old(list.elems)| && |list.elems| == |old(list.elems)| + 1 && fresh(list.elems[pos])
    ensures list.elems == old(list.elems)[..pos] + [list.elems[pos]] + old(list.elems)[pos..]
    ensures list.Valid() && list.items == Insert(key, old(list.items), content)
    ensures list.current == old(list.current)
  {
    var index: ListElement? := null;
    pos := |list.elems|;
    var current := list.NextElement(null, -1);
    ghost var k := 0;
    while current != null && index == null
      modifies {}
      invariant 0 <= k <= |list.elems|
      invariant current == if k < |list.elems| then list.elems[k] else null
      invariant index == null ==> pos == |list.elems| && forall i :: 0 <= i < k ==> key(list.items[i]) <= key(content)
      invariant index != null ==> pos < |list.elems| && index == list.elems[pos]
      invariant index != null ==> key(content) < key(list.items[pos]) && forall i :: 0 <= i < pos ==>
                  key(list.items[i]) <= key(content)
      decreases |list.elems| - k
    {
      assert ItemOk(list.elems, list.items, k);
      if key(content) < key(current.content) {
        index, pos := current, k;
      }
      current := list.NextElement(current, k);
      k := k + 1;
    }
    InsertPosition(key, list.items, content, pos);
    list.Insert(content, index, pos);
  }

  /** The search of MQTTPersistence_wrapMsgID for the largest gap. */
  method FindWrap(list: List, key: Pointer -> int) returns (wrapel: ListElement?, ghost best: nat)
    requires list.Valid() && list.count > 0
    ensures best == WrapIndex(Keys(key, list.items), 1, 0)
    ensures wrapel == if best == 0 then null else list.elems[best]
  {
    hide Distinct, Chain, WrapIndex, GapBefore, Keys;
    wrapel, best := null, 0;
    ghost var ids := Keys(key, list.items);
    FirstGap(list, key);
    var gap := MAX_MSG_ID - key(list.last.content) + key(list.first.content);
    var current := list.NextElement(null, -1);
    current := list.NextElement(current, 0);
    ghost var k: nat := 1;
    while current != null
      invariant 1 <= k <= |list.elems| && best < k
      invariant current == if k < |list.elems| then list.elems[k] else null
      invariant wrapel == if best == 0 then null else list.elems[best]
      invariant gap == GapBefore(ids, best)
      invariant WrapIndex(ids, k, best) == WrapIndex(ids, 1, 0)
      decreases |list.elems| - k
    {
      GapHere(list, key, k);
      var curgap := key(current.content) - key(current.prev.content);
      WrapIndexStep(ids, k, best);
      if curgap > gap {
        gap := curgap;
        wrapel, best := current, k;
      }
      current := list.NextElement(current, k);
      k := k + 1;
    }
    WrapIndexDone(ids, best);
  }

  lemma FirstGap(list: List, key: Pointer -> int)
    requires list.Valid() && list.count > 0
    ensures MAX_MSG_ID - key(list.last.content) + key(list.first.content) == GapBefore(Keys(key, list.items), 0)
  {
    assert ItemOk(list.elems, list.items, 0) && ItemOk(list.elems, list.items, |list.elems| - 1);
  }

  lemma GapHere(list: List, key: Pointer -> int, k: nat)
    requires list.Valid() && 0 < k < |list.elems|
    ensures list.elems[k].prev != null
    ensures key(list.elems[k].content) - key(list.elems[k].prev.content) == GapBefore(Keys(key, list.items), k)
  {
    assert PrevOk(list.elems, k) && ItemOk(list.elems, list.items, k) && ItemOk(list.elems, list.items, k - 1);
  }

  lemma WrapIndexStep(ids: seq<int>, k: nat, best: nat)
    requires best < k < |ids|
    ensures WrapIndex(ids, k, best)
              == WrapIndex(ids, k + 1, if GapBefore(ids, k) > GapBefore(ids, best) then k else best)
  {
  }

  lemma WrapIndexDone(ids: seq<int>, best: nat)
    requires best < |ids|
    ensures WrapIndex(ids, |ids|, best) == best
  {
  }

  /** MQTTPersistence_wrapMsgID: find the largest gap, then rotate there. */
  method WrapMsgID(list: List, key: Pointer -> int) returns (ghost k: nat)
    requires list.Valid()
    modifies list, list.elems
    ensures k <= |old(list.elems)| && list.elems == old(list.elems)[k..] + old(list.elems)[..k]
    ensures list.Valid() && list.items == Wrap(key, old(list.items)) && list.current == old(list.current)
  {
    hide Distinct, Chain, WrapIndex;
    k := 0;
    if list.count > 0 {
      var wrapel, best := FindWrap(list, key);
      k := best;
      if wrapel != null {
        list.RotateAt(wrapel, best);
      } else {
        assert Rotate(list.items, 0) == list.items;
      }
    }
  }

  function Unfinished(done: Pointer -> bool, s: seq<Pointer>): seq<Pointer> {
    if s == [] then [] else Unfinished(done, s[..|s| - 1]) + if done(s[|s| - 1]) then [] else [s[|s| - 1]]
  }

  lemma UnfinishedNext(done: Pointer -> bool, s: seq<Pointer>, j: nat)
    requires j < |s|
    ensures Unfinished(done, s[..j + 1]) == Unfinished(done, s[..j]) + if done(s[j]) then [] else [s[j]]
  {
    assert s[..j + 1][..j] == s[..j];
  }

  /** Exactly the elements that are not done, in their order. */
  lemma {:induction false} UnfinishedExact(done: Pointer -> bool, s: seq<Pointer>, x: Pointer)
    ensures multiset(Unfinished(done, s))[x] == if done(x) then 0 else multiset(s)[x]
  {
    if s != [] {
      UnfinishedExact(done, s[..|s| - 1], x);
      assert s == s[..|s| - 1] + [s[|s| - 1]];
    }
  }

  /** ListRemove of the content under the cursor removes that very element and moves the cursor on. */
  method RemoveCurrent(list: List, le: ListElement, ghost k: nat) returns (next: ListElement?)
    requires list.Valid() && k < |list.elems| && le == list.elems[k] && list.current == le
    modifies list, list.elems
    ensures list.Valid() && list.elems == old(list.elems)[..k] + old(list.elems)[k + 1..]
    ensures list.items == old(list.items)[..k] + old(list.items)[k + 1..]
    ensures next == if k < |list.elems| then list.elems[k] else null
  {
    hide FirstMatch;
    var content := le.content;
    ghost var b := list.elems;
    assert list.Cached(c => c == content);
    list.CachedAgrees(c => c == content);
    var removed, k' := list.Unlink(c => c == content);
    Differ(b, k, k');
    next := list.current;
  }

  /** One removed element at position k of a list that already holds the unfinished ones of was[..j]. */
  lemma RemovedOne(done: Pointer -> bool, was: seq<Pointer>, j: nat, before: seq<Pointer>, k: nat, after: seq<Pointer>)
    requires j < |was| && k < |before| && done(was[j])
    requires before[..k] == Unfinished(done, was[..j]) && before[k..] == was[j..]
    requires after == before[..k] + before[k + 1..]
    ensures after[..k] == Unfinished(done, was[..j + 1]) && after[k..] == was[j + 1..]
  {
    UnfinishedNext(done, was, j);
    assert before[k + 1..] == before[k..][1..];
  }

  lemma KeptOne(done: Pointer -> bool, was: seq<Pointer>, j: nat, items: seq<Pointer>, k: nat)
    requires j < |was| && k < |items| && !done(was[j])
    requires items[..k] == Unfinished(done, was[..j]) && items[k..] == was[j..]
    ensures items[..k + 1] == Unfinished(done, was[..j + 1]) && items[k + 1..] == was[j + 1..]
  {
    UnfinishedNext(done, was, j);
    assert items[k] == items[k..][0] == was[j];
    assert items[..k + 1] == items[..k] + [items[k]];
    assert items[k + 1..] == items[k..][1..];
  }

  /** MQTTProtocol_checkPendingWrites: after each removal the loop goes on from where ListUnlink left the cursor. */
  method CheckPendingWrites(list: List, done: Pointer -> bool)
    requires list.Valid()
    modifies list, list.elems
    ensures list.Valid() && list.items == Unfinished(done, old(list.items))
  {
    hide Distinct, Chain, Unfinished;
    ghost var was := list.items;
    ghost var j: nat, k: nat := 0, 0;
    NothingYet(done, was);
    if list.count > 0 {
      var le := list.first;
      while le != null
        invariant list.Valid() && k <= |list.elems| && j <= |was|
        invariant forall i :: 0 <= i < |list.elems| ==> list.elems[i] in old(list.elems)
        invariant le == if k < |list.elems| then list.elems[k] else null
        invariant list.items[..k] == Unfinished(done, was[..j]) && list.items[k..] == was[j..]
        decreases |was| - j
      {
        ghost var items := list.items;
        assert ItemOk(list.elems, items, k);
        assert items[k] == items[k..][0] == was[j];
        if done(le.content) {
          list.current := le;
          le := RemoveCurrent(list, le, k);
          RemovedOne(done, was, j, items, k, list.items);
        } else {
          KeptOne(done, was, j, items, k);
          le := list.NextElement(le, k);
          k := k + 1;
        }
        j := j + 1;
      }
      assert list.items[k..] == [] && was[..j] == was && list.items[..k] == list.items;
    }
  }

  lemma NothingYet(done: Pointer -> bool, was: seq<Pointer>)
    ensures Unfinished(done, was[..0]) == [] && (was == [] ==> Unfinished(done, was) == was)
  {
  }
}
