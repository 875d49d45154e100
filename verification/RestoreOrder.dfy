/**
  The order of the outbound messages after a restart: MQTTPersistence_restorePackets inserts the
  records by message id, and MQTTPersistence_wrapMsgID then rotates the list at its largest gap.
*/
module RestoreOrder {
  import opened MessageIds
  import opened SortedInsert

  function Rotate<T>(s: seq<T>, k: nat): seq<T>
    requires k <= |s|
  {
    s[k..] + s[..k]
  }

  /** The gap in front of element i, going round: in front of the first element lies the gap back to the last. */
  function GapBefore(ids: seq<int>, i: nat): int
    requires i < |ids|
  {
    if i == 0 then MAX_MSG_ID - ids[|ids| - 1] + ids[0] else ids[i] - ids[i - 1]
  }

  /** The scan of MQTTPersistence_wrapMsgID: positions 1, 2, ... and a strictly larger gap wins. */
  function WrapIndex(ids: seq<int>, i: nat, best: nat): (r: nat)
    requires best < i <= |ids|
    ensures r < |ids|
    decreases |ids| - i
  {
    if i == |ids| then best
    else WrapIndex(ids, i + 1, if GapBefore(ids, i) > GapBefore(ids, best) then i else best)
  }

  function Keys<T>(key: T -> int, s: seq<T>): (r: seq<int>)
    ensures |r| == |s| && forall i :: 0 <= i < |s| ==> r[i] == key(s[i])
  {
    seq(|s|, i requires 0 <= i < |s| => key(s[i]))
  }

  /** MQTTPersistence_wrapMsgID on the list seen as a sequence. */
  function Wrap<T>(key: T -> int, s: seq<T>): seq<T> {
    if s == [] then [] else Rotate(s, WrapIndex(Keys(key, s), 1, 0))
  }

  /** What the outbound list looks like after a restart that visits the records in the order xs. */
  function Restored<T>(key: T -> int, xs: seq<T>): seq<T> {
    Wrap(key, InsertAll(key, xs))
  }

  ghost predicate ValidIds<T>(key: T -> int, s: seq<T>) {
    DistinctKeys(key, s) && forall x :: x in s ==> 1 <= key(x) <= MAX_MSG_ID
  }

  /** The number of steps from id a up to id b, going round modulo 65535. */
  function CyclicGap(a: int, b: int): int {
    if a < b then b - a else MAX_MSG_ID - a + b
  }

  /** The ids rise, passing the top of the id space at most once. */
  ghost predicate RisesCyclically<T>(key: T -> int, s: seq<T>) {
    exists k :: 0 <= k < |s| && Ascending(key, Rotate(s, k))
  }

  /** The gap in front of position i of s, going round. */
  function SendGap<T>(key: T -> int, s: seq<T>, i: nat): int
    requires i < |s|
  {
    CyclicGap(key(s[if i == 0 then |s| - 1 else i - 1]), key(s[i]))
  }

  /** The gap in front of the oldest message beats every other gap; a tie goes to the smaller id. */
  ghost predicate OldestHasLargestGap<T>(key: T -> int, s: seq<T>)
    requires s != []
  {
    forall j :: 0 < j < |s| ==>
      SendGap(key, s, 0) > SendGap(key, s, j)
      || (SendGap(key, s, 0) == SendGap(key, s, j) && key(s[0]) < key(s[j]))
  }

  ghost predicate FirstLargest(ids: seq<int>, w: nat) {
    && w < |ids|
    && (forall i :: 0 <= i < w ==> GapBefore(ids, i) < GapBefore(ids, w))
    && (forall i :: w < i < |ids| ==> GapBefore(ids, i) <= GapBefore(ids, w))
  }

  lemma {:induction false} WrapIndexIsFirstLargest(ids: seq<int>, i: nat, best: nat)
    requires best < i <= |ids|
    requires forall j :: 0 <= j < best ==> GapBefore(ids, j) < GapBefore(ids, best)
    requires forall j :: best < j < i ==> GapBefore(ids, j) <= GapBefore(ids, best)
    ensures FirstLargest(ids, WrapIndex(ids, i, best))
    decreases |ids| - i
  {
    if i < |ids| {
      WrapIndexIsFirstLargest(ids, i + 1, if GapBefore(ids, i) > GapBefore(ids, best) then i else best);
    }
  }

  /** Going round s, which is a rotated by k, meets the gaps of a. */
  lemma RotatedGap<T>(key: T -> int, a: seq<T>, k: nat, j: nat)
    requires k < |a| && j < |a|
    requires Ascending(key, a)
    ensures var i := if j + k < |a| then j + k else j + k - |a|;
            && Rotate(a, k)[j] == a[i]
            && SendGap(key, Rotate(a, k), j) == GapBefore(Keys(key, a), i)
  {
    var s := Rotate(a, k);
    var i := if j + k < |a| then j + k else j + k - |a|;
    assert s[j] == a[i];
    var p := if j == 0 then |s| - 1 else j - 1;
    assert s[p] == a[if i == 0 then |a| - 1 else i - 1];
  }

  lemma LargestAtFront<T>(key: T -> int, a: seq<T>, k: nat)
    requires Ascending(key, a) && FirstLargest(Keys(key, a), k)
    ensures OldestHasLargestGap(key, Rotate(a, k))
  {
    var s := Rotate(a, k);
    RotatedGap(key, a, k, 0);
    forall j | 0 < j < |s|
      ensures SendGap(key, s, 0) > SendGap(key, s, j)
              || (SendGap(key, s, 0) == SendGap(key, s, j) && key(s[0]) < key(s[j]))
    {
      RotatedGap(key, a, k, j);
    }
  }

  lemma FrontIsLargest<T>(key: T -> int, a: seq<T>, k: nat, w: nat)
    requires k < |a| && Ascending(key, a) && FirstLargest(Keys(key, a), w)
    requires OldestHasLargestGap(key, Rotate(a, k))
    ensures w == k
  {
    hide SendGap, GapBefore, Keys;
    if w != k {
      var j := if w > k then w - k else w - k + |a|;
      RotatedGap(key, a, k, 0);
      RotatedGap(key, a, k, j);
    }
  }

  /** For an ascending list, rotating at k is what wrapMsgID does exactly when the rotated list's
      first gap is its largest. */
  lemma WrapRotatesAt<T>(key: T -> int, a: seq<T>, k: nat)
    requires k < |a| && Ascending(key, a)
    ensures Wrap(key, a) == Rotate(a, k) <==> OldestHasLargestGap(key, Rotate(a, k))
  {
    var w := WrapIndex(Keys(key, a), 1, 0);
    WrapIndexIsFirstLargest(Keys(key, a), 1, 0);
    if Wrap(key, a) == Rotate(a, k) {
      assert Rotate(a, w)[0] == a[w] && Rotate(a, k)[0] == a[k];
      LargestAtFront(key, a, w);
    }
    if OldestHasLargestGap(key, Rotate(a, k)) {
      FrontIsLargest(key, a, k, w);
    }
  }

  /** Un-rotating: a rotation has the same elements, and rotating on completes the circle. */
  lemma RotateBack<T>(s: seq<T>, k: nat)
    requires k < |s|
    ensures multiset(Rotate(s, k)) == multiset(s)
    ensures var r := if k == 0 then 0 else |s| - k; Rotate(Rotate(s, k), r) == s
  {
    assert s == s[..k] + s[k..];
  }

  /**
    The exact condition for section 4.6 of MQTT 3.1.1: whatever order the store lists its keys in,
    the restarted client has its outbound messages in the original send order if and only if the
    ids rise cyclically and the gap from the newest back to the oldest is the largest.
  */
  lemma RestartKeepsOrderIff<T>(key: T -> int, s: seq<T>, xs: seq<T>)
    requires s != [] && ValidIds(key, s)
    requires DistinctKeys(key, xs) && multiset(xs) == multiset(s)
    ensures Restored(key, xs) == s <==> RisesCyclically(key, s) && OldestHasLargestGap(key, s)
  {
    InsertAllSorts(key, xs);
    var a := InsertAll(key, xs);
    assert |multiset(a)| == |multiset(s)|;
    if Restored(key, xs) == s {
      var w := WrapIndex(Keys(key, a), 1, 0);
      RotateBack(a, w);
      assert s == Rotate(a, w);
      var r := if w == 0 then 0 else |a| - w;
      assert Ascending(key, Rotate(s, r));
      WrapRotatesAt(key, a, w);
    }
    if RisesCyclically(key, s) && OldestHasLargestGap(key, s) {
      var k :| 0 <= k < |s| && Ascending(key, Rotate(s, k));
      RotateBack(s, k);
      AscendingUnique(key, Rotate(s, k), a);
      WrapRotatesAt(key, a, if k == 0 then 0 else |s| - k);
    }
  }

  /** Positions of a cyclically rising list: the ids from k on lie below those before k. */
  lemma RisingParts<T>(key: T -> int, s: seq<T>, k: nat, i: nat, j: nat)
    requires k < |s| && Ascending(key, Rotate(s, k)) && i < j < |s|
    ensures if i < k <= j then key(s[j]) < key(s[i]) else key(s[i]) < key(s[j])
  {
    var a := Rotate(s, k);
    assert s[i] == a[if i < k then |s| - k + i else i - k];
    assert s[j] == a[if j < k then |s| - k + j else j - k];
  }

  /** Going up from the oldest id to position i of a cyclically rising list. */
  lemma {:induction false} SpanGrows<T>(key: T -> int, s: seq<T>, k: nat, i: nat)
    requires ValidIds(key, s) && k < |s| && Ascending(key, Rotate(s, k)) && 0 < i < |s|
    ensures SendGap(key, s, i) <= CyclicGap(key(s[0]), key(s[i])) < MAX_MSG_ID
    ensures i + 1 < |s| ==> CyclicGap(key(s[0]), key(s[i])) < CyclicGap(key(s[0]), key(s[i + 1]))
  {
    hide Ascending, DistinctKeys;
    assert s[0] in s && s[i] in s && s[i - 1] in s;
    RisingParts(key, s, k, 0, i);
    RisingParts(key, s, k, i - 1, i);
    if 1 < i { RisingParts(key, s, k, 0, i - 1); }
    if i + 1 < |s| {
      RisingParts(key, s, k, 0, i + 1);
      RisingParts(key, s, k, i, i + 1);
    }
  }

  lemma {:induction false} SpanBound<T>(key: T -> int, s: seq<T>, k: nat, i: nat)
    requires ValidIds(key, s) && k < |s| && Ascending(key, Rotate(s, k)) && 0 < i < |s|
    ensures SendGap(key, s, i) <= CyclicGap(key(s[0]), key(s[|s| - 1]))
    decreases |s| - i
  {
    SpanGrows(key, s, k, i);
    if i + 1 < |s| {
      SpanUp(key, s, k, i);
    }
  }

  lemma {:induction false} SpanUp<T>(key: T -> int, s: seq<T>, k: nat, i: nat)
    requires ValidIds(key, s) && k < |s| && Ascending(key, Rotate(s, k)) && 0 < i < |s|
    ensures CyclicGap(key(s[0]), key(s[i])) <= CyclicGap(key(s[0]), key(s[|s| - 1]))
    decreases |s| - i
  {
    SpanGrows(key, s, k, i);
    if i + 1 < |s| {
      SpanUp(key, s, k, i + 1);
    }
  }

  /** A condition a caller can see: in-flight ids that span less than half the id space restart in order. */
  lemma HalfWindowKeepsOrder<T>(key: T -> int, s: seq<T>, xs: seq<T>)
    requires s != [] && ValidIds(key, s)
    requires DistinctKeys(key, xs) && multiset(xs) == multiset(s)
    requires RisesCyclically(key, s)
    requires |s| == 1 || CyclicGap(key(s[0]), key(s[|s| - 1])) <= MAX_MSG_ID / 2
    ensures Restored(key, xs) == s
  {
    var k :| 0 <= k < |s| && Ascending(key, Rotate(s, k));
    forall j | 0 < j < |s| ensures SendGap(key, s, 0) > SendGap(key, s, j) {
      SpanBound(key, s, k, j);
      assert s[0] in s && s[|s| - 1] in s;
    }
    RestartKeepsOrderIff(key, s, xs);
  }

  /** Outside the condition the order is lost: with only 1 and 40000 in flight, sent in that order,
      every restart swaps them. */
  lemma WideGapReorders(xs: seq<int>)
    requires DistinctKeys((x: int) => x, xs) && multiset(xs) == multiset([1, 40000])
    ensures Restored((x: int) => x, xs) == [40000, 1]
  {
    var key := (x: int) => x;
    var a := [1, 40000];
    InsertAllSorts(key, xs);
    AscendingUnique(key, InsertAll(key, xs), a);
    WrapRotatesAt(key, a, 1);
    assert Rotate(a, 1) == [40000, 1];
  }
}
