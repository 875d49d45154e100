/**
  Handing arrived messages to the application: the queue of messages its callback has not taken,
  the records of that queue in the store, and the queue rebuilt from them.
*/
module Handoff {
  import opened SortedInsert
  import K = StoreKeys

  /** PERSISTENCE_SEQNO_LIMIT. */
  const SEQNO_LIMIT := 1000000

  type Msg = int

  datatype Entry = Entry(seqno: nat, msg: Msg)

  type Store = map<string, Msg>

  /** counter: qentry_seqno; taken and arrivals: what the application has accepted and what has come in. */
  datatype State = State(v5: bool, queue: seq<Entry>, store: Store, counter: nat, taken: seq<Msg>, arrivals: seq<Msg>)

  function Messages(q: seq<Entry>): (r: seq<Msg>)
    ensures |r| == |q| && forall i :: 0 <= i < |q| ==> r[i] == q[i].msg
  {
    if q == [] then [] else Messages(q[..|q| - 1]) + [q[|q| - 1].msg]
  }

  function SeqnoOf(e: Entry): int {
    e.seqno
  }

  function QueueKey(v5: bool, seqno: nat): string {
    K.KeyText(K.Queue, v5, seqno)
  }

  function NextSeqno(n: nat): nat {
    if n + 1 == SEQNO_LIMIT then 0 else n + 1
  }

  // ---------- the steps ----------

  /** Protocol_processPublication; offered: connected with a callback set, agreed: the callback's answer. */
  function Arrive(st: State, msg: Msg, offered: bool, agreed: bool): State {
    var st1 := st.(arrivals := st.arrivals + [msg]);
    if st.queue == [] && offered && agreed then st1.(taken := st.taken + [msg])
    else
      var n := NextSeqno(st.counter);
      st1.(queue := st.queue + [Entry(n, msg)], counter := n, store := st.store[QueueKey(st.v5, n) := msg])
  }

  /** The delivery part of MQTTAsync_receiveThread. */
  function Deliver(st: State, agreed: bool): State {
    if st.queue == [] || !agreed then st
    else st.(taken := st.taken + [st.queue[0].msg], queue := st.queue[1..],
             store := st.store - {QueueKey(st.v5, st.queue[0].seqno)})
  }

  predicate IsQueueKey(key: string) {
    K.HasStem(key, K.Stem(K.Queue, false)) || K.HasStem(key, K.Stem(K.Queue, true))
  }

  /** atoi(strchr(key, '-') + 1), taken as unsigned. */
  function KeySeqno(key: string): (n: nat) {
    var n := K.Atoi(K.AfterDash(key)); if n < 0 then 0 else n
  }

  /** The entries of the store in the order in which the keys come. */
  function Entries(store: Store, keys: seq<string>): seq<Entry>
    requires forall i :: 0 <= i < |keys| ==> keys[i] in store
  {
    if keys == [] then []
    else
      var k := keys[|keys| - 1];
      Entries(store, keys[..|keys| - 1]) + if IsQueueKey(k) then [Entry(KeySeqno(k), store[k])] else []
  }

  function MaxSeqno(es: seq<Entry>): nat {
    if es == [] then 0
    else
      var m := MaxSeqno(es[..|es| - 1]);
      if m < es[|es| - 1].seqno then es[|es| - 1].seqno else m
  }

  /** MQTTPersistence_restoreMessageQueue, in a new process. */
  function Restore(store: Store, keys: seq<string>): seq<Entry>
    requires forall i :: 0 <= i < |keys| ==> keys[i] in store
  {
    InsertAll(SeqnoOf, Entries(store, keys))
  }

  /** What pkeys may return: every key once, in any order. */
  ghost predicate KeysOf(store: Store, keys: seq<string>) {
    && (forall k :: k in keys <==> k in store)
    && (forall i, j :: 0 <= i < j < |keys| ==> keys[i] != keys[j])
  }

  ghost function Restart(st: State, keys: seq<string>): State
    requires KeysOf(st.store, keys)
  {
    st.(queue := Restore(st.store, keys), counter := MaxSeqno(Entries(st.store, keys)))
  }

  // ---------- what the store holds ----------

  /** Any other record in the store is of another kind. */
  ghost predicate OtherKey(k: string) {
    exists f, v5, n: nat :: f != K.Queue && k == K.KeyText(f, v5, n)
  }

  /** The queue entries in the store are exactly those of the queue. */
  ghost predicate Matches(v5: bool, queue: seq<Entry>, store: Store) {
    && (forall e :: e in queue ==> QueueKey(v5, e.seqno) in store && store[QueueKey(v5, e.seqno)] == e.msg)
    && (forall k :: k in store ==> OtherKey(k) || exists e :: e in queue && k == QueueKey(v5, e.seqno))
    && DistinctKeys(SeqnoOf, queue)
  }

  lemma QueueKeyRead(v5: bool, n: nat)
    ensures IsQueueKey(QueueKey(v5, n)) && KeySeqno(QueueKey(v5, n)) == n
  {
    K.StemDecides(K.Queue, v5, n, K.Queue, v5);
    K.KeyTextInjective(K.Queue, v5, n, K.Queue, v5, n);
  }

  lemma OtherKeyIgnored(k: string)
    requires OtherKey(k)
    ensures !IsQueueKey(k)
  {
    var f, v5, n: nat :| f != K.Queue && k == K.KeyText(f, v5, n);
    K.StemDecides(f, v5, n, K.Queue, false);
    K.StemDecides(f, v5, n, K.Queue, true);
  }

  lemma SameSeqnoSameKey(v5: bool, a: nat, b: nat)
    ensures QueueKey(v5, a) == QueueKey(v5, b) ==> a == b
    ensures !OtherKey(QueueKey(v5, a))
  {
    K.KeyTextInjective(K.Queue, v5, a, K.Queue, v5, b);
    QueueKeyRead(v5, a);
    if OtherKey(QueueKey(v5, a)) {
      OtherKeyIgnored(QueueKey(v5, a));
    }
  }

  /** Every entry found comes from a key, and every queue key gives its entry. */
  lemma {:induction false} EntriesMembers(store: Store, keys: seq<string>)
    requires forall i :: 0 <= i < |keys| ==> keys[i] in store
    ensures forall e :: e in Entries(store, keys) ==>
              exists k :: k in keys && IsQueueKey(k) && e == Entry(KeySeqno(k), store[k])
    ensures forall k :: k in keys && IsQueueKey(k) ==> Entry(KeySeqno(k), store[k]) in Entries(store, keys)
  {
    hide IsQueueKey, KeySeqno;
    if keys != [] {
      var init, last := keys[..|keys| - 1], keys[|keys| - 1];
      assert keys == init + [last];
      EntriesMembers(store, init);
    }
  }

  /** A matching store holds the entries of the queue. */
  lemma EntriesOfQueue(v5: bool, queue: seq<Entry>, store: Store, keys: seq<string>)
    requires Matches(v5, queue, store) && KeysOf(store, keys)
    ensures forall e :: e in Entries(store, keys) <==> e in queue
  {
    hide IsQueueKey, KeySeqno, QueueKey, OtherKey;
    EntriesMembers(store, keys);
    forall e | e in Entries(store, keys) ensures e in queue {
      var k :| k in keys && IsQueueKey(k) && e == Entry(KeySeqno(k), store[k]);
      if OtherKey(k) {
        OtherKeyIgnored(k);
      }
      var f :| f in queue && k == QueueKey(v5, f.seqno);
      QueueKeyRead(v5, f.seqno);
    }
    forall e | e in queue ensures e in Entries(store, keys) {
      QueueKeyRead(v5, e.seqno);
      assert QueueKey(v5, e.seqno) in keys;
    }
  }

  lemma {:induction false} EntriesDistinct(v5: bool, queue: seq<Entry>, store: Store, keys: seq<string>)
    requires Matches(v5, queue, store)
    requires forall i :: 0 <= i < |keys| ==> keys[i] in store
    requires forall i, j :: 0 <= i < j < |keys| ==> keys[i] != keys[j]
    ensures DistinctKeys(SeqnoOf, Entries(store, keys))
  {
    hide IsQueueKey, KeySeqno, QueueKey, OtherKey;
    if keys != [] {
      var init, last := keys[..|keys| - 1], keys[|keys| - 1];
      EntriesDistinct(v5, queue, store, init);
      var es := Entries(store, init);
      if IsQueueKey(last) {
        forall i | 0 <= i < |es| ensures SeqnoOf(es[i]) != KeySeqno(last) {
          EntriesMembers(store, init);
          assert es[i] in es;
          var k :| k in init && IsQueueKey(k) && es[i] == Entry(KeySeqno(k), store[k]);
          SeqnoTellsKey(v5, queue, store, k, last);
        }
      }
    }
  }

  lemma SeqnoTellsKey(v5: bool, queue: seq<Entry>, store: Store, k: string, l: string)
    requires Matches(v5, queue, store) && k in store && l in store && IsQueueKey(k) && IsQueueKey(l) && k != l
    ensures KeySeqno(k) != KeySeqno(l)
  {
    hide IsQueueKey, KeySeqno, QueueKey, OtherKey;
    if OtherKey(k) { OtherKeyIgnored(k); }
    if OtherKey(l) { OtherKeyIgnored(l); }
    var e :| e in queue && k == QueueKey(v5, e.seqno);
    var f :| f in queue && l == QueueKey(v5, f.seqno);
    QueueKeyRead(v5, e.seqno);
    QueueKeyRead(v5, f.seqno);
  }

  /**
    When the store holds the records of the queue, the queue rebuilt from them, in whatever order
    the keys come, is the same queue if and only if its sequence numbers rise.
  */
  lemma RestoreExactIff(v5: bool, queue: seq<Entry>, store: Store, keys: seq<string>)
    requires Matches(v5, queue, store) && KeysOf(store, keys)
    ensures Restore(store, keys) == queue <==> Ascending(SeqnoOf, queue)
    ensures multiset(Restore(store, keys)) == multiset(queue)
  {
    hide Matches, KeysOf;
    assert DistinctKeys(SeqnoOf, Entries(store, keys)) by {
      KeysIn(store, keys);
      EntriesDistinct(v5, queue, store, keys);
    }
    assert DistinctKeys(SeqnoOf, queue) by { MatchesDistinct(v5, queue, store); }
    KeysIn(store, keys);
    EntriesOfQueue(v5, queue, store, keys);
    var es := Entries(store, keys);
    SameMembersSameContents(SeqnoOf, es, queue);
    InsertAllSorts(SeqnoOf, es);
    if Ascending(SeqnoOf, queue) {
      AscendingUnique(SeqnoOf, Restore(store, keys), queue);
    }
  }

  lemma KeysIn(store: Store, keys: seq<string>)
    requires KeysOf(store, keys)
    ensures forall i :: 0 <= i < |keys| ==> keys[i] in store
    ensures forall i, j :: 0 <= i < j < |keys| ==> keys[i] != keys[j]
  {
  }

  lemma MatchesDistinct(v5: bool, queue: seq<Entry>, store: Store)
    requires Matches(v5, queue, store)
    ensures DistinctKeys(SeqnoOf, queue)
  {
  }
}
