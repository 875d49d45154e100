/**
  LinkedList.c: the doubly linked list with a cached cursor that every queue of the client is.
  The ghost sequences elems and items hold the list elements and their contents in order; Valid()
  says that prev, next, first, last, count and content agree with them and that the cursor is null or one of them.
*/
module LinkedList {

  /** What a void* content is to the list: something that can be compared and handed to a callback. */
  type Pointer = int

  const NULL: Pointer := 0

  class ListElement {
    var prev: ListElement?
    var next: ListElement?
    var content: Pointer

    constructor (content: Pointer)
      ensures this.content == content
    {
      this.content := content;
      prev, next := null, null;
    }
  }

  /** The position of the first element that matches, or -1: a plain linear scan. */
  function FirstMatch(callback: Pointer -> bool, s: seq<Pointer>): (r: int)
    ensures -1 <= r < |s|
    ensures r >= 0 ==> callback(s[r]) && forall i :: 0 <= i < r ==> !callback(s[i])
    ensures r < 0 ==> forall i :: 0 <= i < |s| ==> !callback(s[i])
  {
    if s == [] then -1
    else if callback(s[0]) then 0
    else
      var r := FirstMatch(callback, s[1..]);
      assert forall i :: 1 <= i < |s| ==> s[i] == s[1..][i - 1];
      if r < 0 then -1 else r + 1
  }

  ghost predicate Distinct(es: seq<ListElement>) {
    forall i, j :: 0 <= i < j < |es| ==> es[i] != es[j]
  }

  lemma Differ(es: seq<ListElement>, i: nat, j: nat)
    requires Distinct(es) && i < |es|
    ensures j < |es| && i != j ==> es[i] != es[j]
  {
  }

  lemma DistinctWith(es: seq<ListElement>, k: nat, e: ListElement)
    requires Distinct(es) && k <= |es| && e !in es
    ensures Distinct(es[..k] + [e] + es[k..])
  {
  }

  lemma DistinctWithout(es: seq<ListElement>, k: nat)
    requires Distinct(es) && k < |es|
    ensures Distinct(es[..k] + es[k + 1..])
  {
  }

  /** The neighbours of element i of a list. */
  ghost function Before(es: seq<ListElement>, i: nat): ListElement?
    requires i < |es|
  {
    if i == 0 then null else es[i - 1]
  }

  ghost function After(es: seq<ListElement>, i: nat): ListElement?
    requires i < |es|
  {
    if i == |es| - 1 then null else es[i + 1]
  }

  ghost predicate PrevOk(es: seq<ListElement>, i: nat)
    requires i < |es|
    reads es[i]
  {
    es[i].prev == Before(es, i)
  }

  ghost predicate NextOk(es: seq<ListElement>, i: nat)
    requires i < |es|
    reads es[i]
  {
    es[i].next == After(es, i)
  }

  ghost predicate ItemOk(es: seq<ListElement>, items: seq<Pointer>, i: nat)
    requires i < |es| == |items|
    reads es[i]
  {
    es[i].content == items[i]
  }

  ghost predicate Chain(es: seq<ListElement>)
    reads es
  {
    (forall i :: 0 <= i < |es| ==> PrevOk(es, i)) && (forall i :: 0 <= i < |es| ==> NextOk(es, i))
  }

  /** Two pointers have been moved past element k: the rest is a chain. */
  lemma ChainWithout(b: seq<ListElement>, k: nat)
    requires k < |b|
    requires forall i :: 0 <= i < |b| && i != k - 1 ==> NextOk(b, i)
    requires forall i :: 0 <= i < |b| && i != k + 1 ==> PrevOk(b, i)
    requires k > 0 ==> b[k - 1].next == After(b, k)
    requires k + 1 < |b| ==> b[k + 1].prev == Before(b, k)
    ensures Chain(b[..k] + b[k + 1..])
  {
    var c := b[..k] + b[k + 1..];
    forall i | 0 <= i < |c| ensures PrevOk(c, i) && NextOk(c, i) {
      var i' := if i < k then i else i + 1;
      assert c[i] == b[i'];
      assert i' != k + 1 ==> PrevOk(b, i');
      assert i' != k - 1 ==> NextOk(b, i');
    }
  }

  /** e0 has been linked in front of element k. */
  lemma ChainWith(b: seq<ListElement>, k: nat, e0: ListElement)
    requires k < |b| && e0.next == b[k] && e0.prev == Before(b, k)
    requires forall i :: 0 <= i < |b| && i != k - 1 ==> NextOk(b, i)
    requires forall i :: 0 <= i < |b| && i != k ==> PrevOk(b, i)
    requires b[k].prev == e0 && (k > 0 ==> b[k - 1].next == e0)
    ensures Chain(b[..k] + [e0] + b[k..])
  {
    var c := b[..k] + [e0] + b[k..];
    forall i | 0 <= i < |c| ensures PrevOk(c, i) && NextOk(c, i) {
      if i != k {
        var i' := if i < k then i else i - 1;
        assert c[i] == b[i'];
        assert i' != k ==> PrevOk(b, i');
        assert i' != k - 1 ==> NextOk(b, i');
      }
    }
  }

  /** The ring has been closed and opened again in front of element k. */
  lemma ChainRotated(b: seq<ListElement>, k: nat)
    requires 0 < k < |b|
    requires forall i :: 0 <= i < |b| - 1 && i != k - 1 ==> NextOk(b, i)
    requires forall i :: 0 < i < |b| && i != k ==> PrevOk(b, i)
    requires b[|b| - 1].next == b[0] && b[0].prev == b[|b| - 1]
    requires b[k].prev == null && b[k - 1].next == null
    ensures Chain(b[k..] + b[..k])
  {
    var c := b[k..] + b[..k];
    forall i | 0 <= i < |c| ensures PrevOk(c, i) && NextOk(c, i) {
      var i' := if i < |b| - k then i + k else i + k - |b|;
      assert c[i] == b[i'];
      assert 0 < i' && i' != k ==> PrevOk(b, i');
      assert i' < |b| - 1 && i' != k - 1 ==> NextOk(b, i');
    }
  }

  lemma ItemsRotated(b: seq<ListElement>, items: seq<Pointer>, k: nat)
    requires |b| == |items| && k <= |b| && forall i :: 0 <= i < |b| ==> ItemOk(b, items, i)
    ensures forall i :: 0 <= i < |b| ==> ItemOk(b[k..] + b[..k], items[k..] + items[..k], i)
  {
    forall i | 0 <= i < |b| ensures ItemOk(b[k..] + b[..k], items[k..] + items[..k], i) {
      var i' := if i < |b| - k then i + k else i + k - |b|;
      assert (b[k..] + b[..k])[i] == b[i'] && ItemOk(b, items, i');
    }
  }

  lemma ItemsTail(b: seq<ListElement>, items: seq<Pointer>)
    requires |b| == |items| > 0 && forall i :: 0 <= i < |b| ==> ItemOk(b, items, i)
    ensures forall i :: 0 <= i < |b| - 1 ==> ItemOk(b[1..], items[1..], i)
  {
    forall i | 0 <= i < |b| - 1 ensures ItemOk(b[1..], items[1..], i) {
      assert ItemOk(b, items, i + 1);
    }
  }

  lemma DistinctRotated(b: seq<ListElement>, k: nat)
    requires Distinct(b) && k <= |b|
    ensures Distinct(b[k..] + b[..k])
    ensures forall e :: e in b ==> e in b[k..] + b[..k]
  {
    forall e | e in b ensures e in b[k..] + b[..k] {
      var j :| 0 <= j < |b| && b[j] == e;
      assert (b[k..] + b[..k])[if j < k then |b| - k + j else j - k] == e;
    }
  }

  class List {
    var first: ListElement?
    var last: ListElement?
    var current: ListElement?
    var count: nat
    ghost var elems: seq<ListElement>
    ghost var items: seq<Pointer>

    ghost predicate Ends()
      reads this
    {
      && count == |elems| == |items|
      && first == (if elems == [] then null else elems[0])
      && last == (if elems == [] then null else elems[|elems| - 1])
    }

    ghost predicate Linked()
      reads this, elems
    {
      && Distinct(elems) && Ends()
      && Chain(elems)
      && (forall i :: 0 <= i < |elems| ==> ItemOk(elems, items, i))
    }

    ghost predicate Valid()
      reads this, elems
    {
      Linked() && (current != null ==> current in elems)
    }

    /** At most one element matches: keys are distinct. */
    ghost predicate Unique(callback: Pointer -> bool)
      reads this
    {
      forall i, j :: 0 <= i < j < |items| ==> !(callback(items[i]) && callback(items[j]))
    }

    /** ListInitialize. */
    constructor ()
      ensures Valid() && elems == [] && items == [] && current == null
    {
      first, last, current, count := null, null, null, 0;
      elems, items := [], [];
    }

    /** ListAppendNoMalloc: also used to move an element from one list to another. */
    method AppendNoMalloc(content: Pointer, newel: ListElement)
      requires Valid() && newel !in elems
      modifies this, elems, newel
      ensures Valid() && elems == old(elems) + [newel]
      ensures items == old(items) + [content] && current == old(current)
    {
      newel.content := content;
      newel.next := null;
      newel.prev := last;
      if first == null {
        first := newel;
      } else {
        last.next := newel;
      }
      last := newel;
      count := count + 1;
      ghost var b := elems;
      elems, items := elems + [newel], items + [content];
      forall i | 0 <= i < |elems| ensures PrevOk(elems, i) && NextOk(elems, i) && ItemOk(elems, items, i) {
        if i < |b| {
          assert elems[i] == b[i];
          assert old(PrevOk(b, i)) && old(NextOk(b, i)) && old(ItemOk(b, items, i));
        }
      }
    }

    /** ListInsert: in front of index, or at the end when index is null. */
    method Insert(content: Pointer, index: ListElement?, ghost k: nat)
      requires Valid() && k <= |elems|
      requires index == (if k == |elems| then null else elems[k])
      modifies this, elems
      ensures Valid() && |elems| == |old(elems)| + 1 && fresh(elems[k])
      ensures elems == old(elems)[..k] + [elems[k]] + old(elems)[k..]
      ensures items == old(items)[..k] + [content] + old(items)[k..] && current == old(current)
    {
      var newel := new ListElement(content);
      if index == null {
        AppendNoMalloc(content, newel);
        assert old(items)[..k] == old(items);
      } else {
        LinkBefore(newel, index, k);
      }
    }

    method LinkBefore(newel: ListElement, index: ListElement, ghost k: nat)
      requires Valid() && k < |elems| && index == elems[k] && newel !in elems
      modifies this, elems, newel
      ensures Valid() && elems == old(elems)[..k] + [newel] + old(elems)[k..]
      ensures items == old(items)[..k] + [old(newel.content)] + old(items)[k..] && current == old(current)
    {
      ghost var b := elems;
      assert PrevOk(elems, k);
      newel.next := index;
      newel.prev := index.prev;
      index.prev := newel;
      if newel.prev != null {
        newel.prev.next := newel;
      } else {
        first := newel;
      }
      count := count + 1;
      elems, items := elems[..k] + [newel] + elems[k..], items[..k] + [newel.content] + items[k..];
      DistinctWith(b, k, newel);
      forall i | 0 <= i < |b| ensures (i != k - 1 ==> NextOk(b, i)) && (i != k ==> PrevOk(b, i)) {
        assert old(PrevOk(b, i)) && old(NextOk(b, i));
      }
      ChainWith(b, k, newel);
      forall i | 0 <= i < |elems| ensures ItemOk(elems, items, i) {
        if i != k {
          var i' := if i < k then i else i - 1;
          assert elems[i] == b[i'] && old(ItemOk(b, items, i'));
        }
      }
      StillIn(b, k, newel);
    }

    lemma StillIn(b: seq<ListElement>, k: nat, newel: ListElement)
      requires k <= |b|
      ensures forall e :: e in b ==> e in b[..k] + [newel] + b[k..]
    {
      forall e | e in b ensures e in b[..k] + [newel] + b[k..] {
        var j :| 0 <= j < |b| && b[j] == e;
        assert (b[..k] + [newel] + b[k..])[if j < k then j else j + 1] == e;
      }
    }

    /** ListNextElement from the element at position k, or from before the first for k == -1. */
    method NextElement(pos: ListElement?, ghost k: int) returns (r: ListElement?)
      requires Valid() && -1 <= k < |elems| && pos == (if k < 0 then null else elems[k])
      ensures r == if k + 1 < |elems| then elems[k + 1] else null
    {
      assert k >= 0 ==> NextOk(elems, k);
      r := if pos == null then first else pos.next;
    }

    /** The scan of ListFindItem from the head of the list. */
    method ScanFor(callback: Pointer -> bool) returns (rc: ListElement?)
      requires Valid()
      ensures var f := FirstMatch(callback, items); rc == if f < 0 then null else elems[f]
    {
      rc := null;
      var cur := NextElement(null, -1);
      ghost var k := 0;
      while cur != null
        invariant 0 <= k <= |elems| && cur == (if k < |elems| then elems[k] else null)
        invariant forall i :: 0 <= i < k ==> !callback(items[i])
        decreases |elems| - k
      {
        if callback(cur.content) {
          assert ItemOk(elems, items, k);
          return cur;
        }
        assert ItemOk(elems, items, k);
        cur := NextElement(cur, k);
        k := k + 1;
      }
    }

    /** The cursor hits: it is tried before the scan. */
    ghost predicate Cached(callback: Pointer -> bool)
      reads this, current
    {
      current != null && callback(current.content)
    }

    /** ListFindItem: the cursor first, then the scan; a hit moves the cursor.  With distinct keys the
        cursor makes no difference to what is found. */
    method FindItem(callback: Pointer -> bool) returns (rc: ListElement?)
      requires Valid()
      modifies this`current
      ensures Valid() && current == (if rc == null then old(current) else rc)
      ensures rc == null <==> FirstMatch(callback, items) < 0
      ensures rc != null ==> rc in elems && callback(rc.content)
      ensures old(Cached(callback)) ==> rc == old(current)
      ensures rc != null && (Unique(callback) || !old(Cached(callback))) ==> rc == elems[FirstMatch(callback, items)]
    {
      if current != null && callback(current.content) {
        rc := current;
        CachedAgrees(callback);
      } else {
        rc := ScanFor(callback);
        if rc != null {
          assert ItemOk(elems, items, FirstMatch(callback, items));
          current := rc;
        }
      }
    }

    lemma CachedAgrees(callback: Pointer -> bool)
      requires Valid() && Cached(callback)
      ensures FirstMatch(callback, items) >= 0
      ensures Unique(callback) ==> current == elems[FirstMatch(callback, items)]
    {
      var i :| 0 <= i < |elems| && elems[i] == current;
      assert ItemOk(elems, items, i);
      var f := FirstMatch(callback, items);
    }

    /** Takes the element at position k out of the chain. */
    method Cut(victim: ListElement, ghost k: nat)
      requires Linked() && k < |elems| && victim == elems[k]
      modifies this`first, this`last, this`count, this`elems, this`items, elems
      ensures Linked() && elems == old(elems)[..k] + old(elems)[k + 1..]
      ensures items == old(items)[..k] + old(items)[k + 1..]
    {
      ghost var b := elems;
      assert PrevOk(elems, k) && NextOk(elems, k);
      if victim.prev == null {
        first := victim.next;
      } else {
        victim.prev.next := victim.next;
      }
      if victim.next == null {
        last := victim.prev;
      } else {
        victim.next.prev := victim.prev;
      }
      count := count - 1;
      elems, items := elems[..k] + elems[k + 1..], items[..k] + items[k + 1..];
      DistinctWithout(b, k);
      forall i | 0 <= i < |b| ensures (i != k - 1 ==> NextOk(b, i)) && (i != k + 1 ==> PrevOk(b, i)) {
        assert old(PrevOk(b, i)) && old(NextOk(b, i));
      }
      ChainWithout(b, k);
      forall i | 0 <= i < |elems| ensures ItemOk(elems, items, i) {
        var i' := if i < k then i else i + 1;
        assert elems[i] == b[i'] && old(ItemOk(b, items, i'));
      }
    }

    /** ListUnlink: which element goes, and where the cursor is left - on the element after the removed
        one if it stood there, unmoved otherwise. */
    method Unlink(callback: Pointer -> bool) returns (removed: bool, ghost k: int)
      requires Valid()
      modifies this, elems
      ensures Valid() && removed == (FirstMatch(callback, old(items)) >= 0)
      ensures !removed ==> elems == old(elems) && items == old(items) && current == old(current)
      ensures removed ==> 0 <= k < |old(elems)| && callback(old(items)[k])
      ensures removed ==> elems == old(elems)[..k] + old(elems)[k + 1..]
      ensures removed ==> items == old(items)[..k] + old(items)[k + 1..]
      ensures removed && old(Cached(callback)) ==> old(elems)[k] == old(current)
      ensures removed && !old(Cached(callback)) ==> k == FirstMatch(callback, old(items))
      ensures removed && old(current) != old(elems)[k] ==> current == old(current)
      ensures removed && old(current) == old(elems)[k] ==> current == if k < |elems| then elems[k] else null
    {
      hide FirstMatch, Linked;
      var saved := current;
      var found := FindItem(callback);
      if found == null {
        return false, -1;
      }
      k := PositionOf(found, callback);
      CutFound(found, saved, k);
      removed := true;
    }

    /** The element found is cut out, and the cursor put back or moved on. */
    method CutFound(found: ListElement, saved: ListElement?, ghost k: nat)
      requires Linked() && k < |elems| && elems[k] == found && (saved != null ==> saved in elems)
      modifies this, elems
      ensures Valid() && elems == old(elems)[..k] + old(elems)[k + 1..]
      ensures items == old(items)[..k] + old(items)[k + 1..]
      ensures saved != found ==> current == saved
      ensures saved == found ==> current == if k < |elems| then elems[k] else null
    {
      assert NextOk(elems, k);
      hide Linked;
      Survives(elems, k, saved);
      var next := found.next;
      Cut(found, k);
      current := if saved == found then next else saved;
    }

    /** The links and contents one by one. */
    lemma Facts()
      requires Linked()
      ensures forall i :: 0 <= i < |elems| ==> PrevOk(elems, i) && NextOk(elems, i) && ItemOk(elems, items, i)
    {
    }

    lemma PositionOf(e: ListElement, callback: Pointer -> bool) returns (k: nat)
      requires Linked() && e in elems && callback(e.content)
      ensures k < |elems| && elems[k] == e && callback(items[k])
      ensures NextOk(elems, k) && forall j :: 0 <= j < |elems| && elems[j] == e ==> j == k
    {
      k :| 0 <= k < |elems| && elems[k] == e;
      assert ItemOk(elems, items, k);
    }

    lemma Survives(b: seq<ListElement>, k: nat, e: ListElement?)
      requires k < |b|
      ensures e != null && e in b && e != b[k] ==> e in b[..k] + b[k + 1..]
    {
      if e != null && e in b && e != b[k] {
        var j :| 0 <= j < |b| && b[j] == e;
        assert (b[..k] + b[k + 1..])[if j < k then j else j - 1] == e;
      }
    }

    /** ListDetachHead. */
    method DetachHead() returns (content: Pointer)
      requires Valid()
      modifies this, elems
      ensures Valid()
      ensures old(elems) == [] ==> content == NULL && elems == [] && items == old(items) && current == old(current)
      ensures old(elems) != [] ==> content == old(items)[0] && elems == old(elems)[1..] && items == old(items)[1..]
      ensures old(elems) != [] && old(current) != old(elems)[0] ==> current == old(current)
      ensures old(elems) != [] && old(current) == old(elems)[0] ==> current == if elems == [] then null else elems[0]
    {
      content := NULL;
      if count > 0 {
        content := TakeHead();
      }
    }

    method TakeHead() returns (content: Pointer)
      requires Valid() && elems != []
      modifies this, elems
      ensures Valid() && content == old(items)[0]
      ensures elems == old(elems)[1..] && items == old(items)[1..]
      ensures old(current) != old(elems)[0] ==> current == old(current)
      ensures old(current) == old(elems)[0] ==> current == if elems == [] then null else elems[0]
    {
      hide Distinct;
      Survives(elems, 0, current);
      assert elems[..0] + elems[1..] == elems[1..];
      var head := first;
      assert NextOk(elems, 0) && ItemOk(elems, items, 0);
      if current == head {
        current := head.next;
      }
      content := head.content;
      DropFirst();
    }

    method DropFirst()
      requires Linked() && elems != []
      modifies this`first, this`last, this`count, this`elems, this`items, elems
      ensures Linked() && elems == old(elems)[1..] && items == old(items)[1..]
    {
      hide Distinct, Chain, NextOk, PrevOk;
      ghost var b := elems;
      assert b[..0] + b[1..] == b[1..];
      DistinctWithout(b, 0);
      Behead();
      ChainWithout(b, 0);
      forall i | 0 <= i < |b| ensures ItemOk(b, items, i) {
        assert old(ItemOk(b, items, i));
      }
      ItemsTail(b, items);
      count := count - 1;
      elems, items := elems[1..], items[1..];
    }

    /** The second element becomes the first. */
    method Behead()
      requires Linked() && elems != []
      modifies this`first, this`last, elems
      ensures first == After(elems, 0) && last == (if |elems| == 1 then null else old(last))
      ensures forall i :: 0 <= i < |elems| ==> NextOk(elems, i)
      ensures forall i :: 0 <= i < |elems| && i != 1 ==> PrevOk(elems, i)
      ensures |elems| > 1 ==> elems[1].prev == null
      ensures forall i :: 0 <= i < |elems| ==> elems[i].content == old(elems[i].content)
    {
      Facts();
      hide Distinct, Chain;
      ghost var b := elems;
      assert NextOk(b, 0);
      Differ(b, 0, |b| - 1);
      if last == first {
        last := null;
      }
      first := first.next;
      if first != null {
        first.prev := null;
      }
      forall i | 0 <= i < |b| ensures NextOk(b, i) {
        assert old(NextOk(b, i));
      }
      forall i | 0 <= i < |b| && i != 1 ensures PrevOk(b, i) {
        assert old(PrevOk(b, i));
        Differ(b, i, 1);
      }
    }

    /** ListPopTail. */
    method PopTail() returns (content: Pointer)
      requires Valid()
      modifies this, elems
      ensures Valid()
      ensures old(elems) == [] ==> content == NULL && elems == [] && items == old(items) && current == old(current)
      ensures old(elems) != [] ==> var n := |old(elems)| - 1;
                                   content == old(items)[n] && elems == old(elems)[..n] && items == old(items)[..n]
      ensures old(elems) != [] && old(current) != old(elems)[|old(elems)| - 1] ==> current == old(current)
      ensures old(elems) != [] && old(current) == old(elems)[|old(elems)| - 1] ==>
                current == if elems == [] then null else elems[|elems| - 1]
    {
      content := NULL;
      if count > 0 {
        content := TakeTail();
      }
    }

    method TakeTail() returns (content: Pointer)
      requires Valid() && elems != []
      modifies this, elems
      ensures Valid() && content == old(items)[|old(items)| - 1]
      ensures elems == old(elems)[..|old(elems)| - 1] && items == old(items)[..|old(items)| - 1]
      ensures old(current) != old(elems)[|old(elems)| - 1] ==> current == old(current)
      ensures old(current) == old(elems)[|old(elems)| - 1] ==>
                current == if elems == [] then null else elems[|elems| - 1]
    {
      Facts();
      hide Chain;
      ghost var b, n := elems, |elems| - 1;
      DistinctWithout(b, n);
      var tail := last;
      assert PrevOk(elems, n) && ItemOk(elems, items, n);
      if current == tail {
        current := tail.prev;
      }
      if first == tail {
        first := null;
      }
      content := tail.content;
      last := last.prev;
      if last != null {
        last.next := null;
      }
      count := count - 1;
      elems, items := elems[..n], items[..n];
      forall i | 0 <= i < |b| ensures PrevOk(b, i) && (i != n - 1 ==> NextOk(b, i)) {
        assert old(PrevOk(b, i)) && old(NextOk(b, i));
      }
      ChainWithout(b, n);
      assert b[..n] + b[n + 1..] == elems;
      forall i | 0 <= i < |elems| ensures ItemOk(elems, items, i) {
        assert elems[i] == b[i] && old(ItemOk(b, items, i));
      }
      Survives(b, n, old(current));
    }

    /** ListEmpty. */
    method Empty()
      requires Valid()
      modifies this
      ensures Valid() && elems == [] && items == [] && current == null
    {
      ghost var k := 0;
      while first != null
        invariant 0 <= k <= |elems| && elems == old(elems)
        invariant first == if k < |elems| then elems[k] else null
        invariant Chain(elems)
        decreases |elems| - k
      {
        assert NextOk(elems, k);
        first := first.next;
        k := k + 1;
      }
      count := 0;
      first, last, current := null, null, null;
      elems, items := [], [];
    }

    /** The pointer surgery at the end of MQTTPersistence_wrapMsgID: the ring is closed, and opened again in front
        of element k. */
    method Splice(wrapel: ListElement, ghost k: nat)
      requires Linked() && 0 < k < |elems| && wrapel == elems[k]
      modifies this`first, this`last, elems
      ensures first == elems[k] && last == elems[k - 1]
      ensures forall i :: 0 <= i < |elems| - 1 && i != k - 1 ==> NextOk(elems, i)
      ensures forall i :: 0 < i < |elems| && i != k ==> PrevOk(elems, i)
      ensures elems[|elems| - 1].next == elems[0] && elems[0].prev == elems[|elems| - 1]
      ensures elems[k].prev == null && elems[k - 1].next == null
      ensures forall i :: 0 <= i < |elems| ==> elems[i].content == old(elems[i].content)
    {
      Facts();
      hide Distinct, Chain;
      ghost var b := elems;
      assert PrevOk(b, k);
      Differ(b, 0, k);
      Differ(b, |b| - 1, k - 1);
      first.prev := last;
      last.next := first;
      first := wrapel;
      last := wrapel.prev;
      first.prev := null;
      last.next := null;
      forall i | 0 <= i < |b| - 1 && i != k - 1 ensures NextOk(b, i) {
        assert old(NextOk(b, i));
        Differ(b, i, |b| - 1);
        Differ(b, i, k - 1);
      }
      forall i | 0 < i < |b| && i != k ensures PrevOk(b, i) {
        assert old(PrevOk(b, i));
        Differ(b, i, 0);
        Differ(b, i, k);
      }
    }

    /** With it the list is rotated. */
    method RotateAt(wrapel: ListElement, ghost k: nat)
      requires Valid() && 0 < k < |elems| && wrapel == elems[k]
      modifies this, elems
      ensures Valid() && elems == old(elems)[k..] + old(elems)[..k] && items == old(items)[k..] + old(items)[..k]
      ensures current == old(current)
    {
      Facts();
      hide Distinct, Chain;
      ghost var b := elems;
      DistinctRotated(b, k);
      Splice(wrapel, k);
      ChainRotated(b, k);
      forall i | 0 <= i < |b| ensures ItemOk(b, items, i) {
        assert old(ItemOk(b, items, i));
      }
      ItemsRotated(b, items, k);
      elems, items := elems[k..] + elems[..k], items[k..] + items[..k];
    }
  }
}
