/**
  Sorted insertion as MQTTPersistence_insertInOrder and MQTTPersistence_insertInSeqOrder do it:
  a new element goes in front of the first element with a larger key.  The store hands its keys
  back in an arbitrary order, so what matters is that the result does not depend on that order.
*/
module SortedInsert {

  function Insert<T>(key: T -> int, s: seq<T>, x: T): seq<T> {
    if s == [] then [x]
    else if key(x) < key(s[0]) then [x] + s
    else [s[0]] + Insert(key, s[1..], x)
  }

  function InsertAll<T>(key: T -> int, xs: seq<T>): seq<T> {
    if xs == [] then []
    else Insert(key, InsertAll(key, xs[..|xs| - 1]), xs[|xs| - 1])
  }

  ghost predicate Ascending<T>(key: T -> int, s: seq<T>) {
    forall i, j :: 0 <= i < j < |s| ==> key(s[i]) < key(s[j])
  }

  ghost predicate DistinctKeys<T>(key: T -> int, s: seq<T>) {
    forall i, j :: 0 <= i < j < |s| ==> key(s[i]) != key(s[j])
  }

  lemma {:induction false} InsertContents<T>(key: T -> int, s: seq<T>, x: T)
    ensures multiset(Insert(key, s, x)) == multiset(s) + multiset{x}
  {
    if s == [] {
    } else if key(x) < key(s[0]) {
    } else {
      InsertContents(key, s[1..], x);
      assert s == [s[0]] + s[1..];
    }
  }

  /** Where the new element goes. */
  lemma {:induction false} InsertPosition<T>(key: T -> int, s: seq<T>, x: T, k: nat)
    requires k <= |s| && (forall i :: 0 <= i < k ==> key(s[i]) <= key(x)) && (k < |s| ==> key(x) < key(s[k]))
    ensures Insert(key, s, x) == s[..k] + [x] + s[k..]
  {
    if k > 0 {
      InsertPosition(key, s[1..], x, k - 1);
      assert s[1..][..k - 1] == s[1..k] && s[1..][k - 1..] == s[k..];
      assert s[..k] == [s[0]] + s[1..k];
    }
  }

  lemma {:induction false} InsertAscending<T>(key: T -> int, s: seq<T>, x: T)
    requires Ascending(key, s)
    requires forall y :: y in s ==> key(y) != key(x)
    ensures Ascending(key, Insert(key, s, x))
  {
    if s == [] {
    } else if key(x) < key(s[0]) {
      assert s[0] in s;
    } else {
      assert s[0] in s;
      InsertAscending(key, s[1..], x);
      InsertContents(key, s[1..], x);
      var t := Insert(key, s[1..], x);
      forall j | 0 <= j < |t| ensures key(s[0]) < key(t[j]) {
        assert t[j] in multiset(t);
        assert t[j] in s[1..] || t[j] == x;
      }
    }
  }

  lemma TailContents<T>(s: seq<T>)
    requires s != []
    ensures multiset(s[1..]) == multiset(s) - multiset{s[0]}
  {
    assert s == [s[0]] + s[1..];
  }

  lemma SameHead<T>(key: T -> int, a: seq<T>, b: seq<T>)
    requires a != [] && b != []
    requires Ascending(key, a) && Ascending(key, b)
    requires multiset(a) == multiset(b)
    ensures a[0] == b[0]
  {
    assert a[0] in multiset(b) && b[0] in multiset(a);
    var i :| 0 <= i < |b| && b[i] == a[0];
    var j :| 0 <= j < |a| && a[j] == b[0];
  }

  /** A strictly ascending sequence is determined by its elements. */
  lemma {:induction false} AscendingUnique<T>(key: T -> int, a: seq<T>, b: seq<T>)
    requires Ascending(key, a) && Ascending(key, b)
    requires multiset(a) == multiset(b)
    ensures a == b
  {
    assert |multiset(a)| == |multiset(b)|;
    if a != [] {
      SameHead(key, a, b);
      TailContents(a);
      TailContents(b);
      AscendingUnique(key, a[1..], b[1..]);
      assert a == [a[0]] + a[1..] && b == [b[0]] + b[1..];
    }
  }

  /** Insertion of distinct keys sorts: the result is ascending and holds exactly the inserted elements. */
  lemma {:induction false} InsertAllSorts<T>(key: T -> int, xs: seq<T>)
    requires DistinctKeys(key, xs)
    ensures Ascending(key, InsertAll(key, xs))
    ensures multiset(InsertAll(key, xs)) == multiset(xs)
  {
    if xs != [] {
      var init, x := xs[..|xs| - 1], xs[|xs| - 1];
      InsertAllSorts(key, init);
      forall y | y in InsertAll(key, init) ensures key(y) != key(x) {
        assert y in multiset(init);
      }
      InsertAscending(key, InsertAll(key, init), x);
      InsertContents(key, InsertAll(key, init), x);
      assert xs == init + [x];
    }
  }

  /** The order in which the records are inserted does not matter. */
  lemma InsertionOrderIrrelevant<T>(key: T -> int, xs: seq<T>, ys: seq<T>)
    requires DistinctKeys(key, xs) && DistinctKeys(key, ys)
    requires multiset(xs) == multiset(ys)
    ensures InsertAll(key, xs) == InsertAll(key, ys)
  {
    InsertAllSorts(key, xs);
    InsertAllSorts(key, ys);
    AscendingUnique(key, InsertAll(key, xs), InsertAll(key, ys));
  }

  lemma {:induction false} OccursOnce<T>(key: T -> int, s: seq<T>, x: T)
    requires DistinctKeys(key, s)
    ensures multiset(s)[x] == if x in s then 1 else 0
  {
    if s != [] {
      var init, last := s[..|s| - 1], s[|s| - 1];
      assert s == init + [last];
      OccursOnce(key, init, x);
    }
  }

  /** With distinct keys, membership determines the contents. */
  lemma SameMembersSameContents<T>(key: T -> int, a: seq<T>, b: seq<T>)
    requires DistinctKeys(key, a) && DistinctKeys(key, b)
    requires forall x :: x in a <==> x in b
    ensures multiset(a) == multiset(b)
  {
    forall x ensures multiset(a)[x] == multiset(b)[x] {
      OccursOnce(key, a, x);
      OccursOnce(key, b, x);
    }
  }

  lemma TwiceOccurs<T>(s: seq<T>, i: nat, j: nat)
    requires i < j < |s|
    ensures s[i] == s[j] ==> multiset(s)[s[i]] >= 2
  {
    assert s == s[..i] + [s[i]] + s[i + 1..j] + [s[j]] + s[j + 1..];
  }

  /** Distinct keys stay distinct under a permutation. */
  lemma DistinctPermuted<T>(key: T -> int, a: seq<T>, b: seq<T>)
    requires DistinctKeys(key, a) && multiset(a) == multiset(b)
    ensures DistinctKeys(key, b)
  {
    forall i, j | 0 <= i < j < |b| ensures key(b[i]) != key(b[j]) {
      TwiceOccurs(b, i, j);
      OccursOnce(key, a, b[i]);
      assert b[i] in multiset(a) && b[j] in multiset(a);
      var p :| 0 <= p < |a| && a[p] == b[i];
      var q :| 0 <= q < |a| && a[q] == b[j];
      assert p != q;
    }
  }
}
