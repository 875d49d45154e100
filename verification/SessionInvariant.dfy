/**
  What every micro-action of the client keeps true of the store, and how the store relates to the
  lists in memory between steps.
*/
module SessionInvariant {
  import opened MessageIds
  import opened SortedInsert
  import opened Session

  // ---------- the store on its own ----------

  ghost predicate RecordOk(v5: bool, store: Store, k: Key)
    requires k in store
  {
    && k.v5 == v5 && 0 <= k.id <= MAX_MSG_ID
    && match k.stem
       case Sent => store[k].PublishRecord? && store[k].msg.id == k.id && 1 <= store[k].msg.qos <= 2 && 1 <= k.id
       case Received => store[k].PublishRecord? && store[k].msg.id == k.id && store[k].msg.qos == 2
       case Rel => store[k] == PubrelRecord(k.id)
                   && (Key(Sent, v5, k.id) in store ==>
                         store[Key(Sent, v5, k.id)].PublishRecord? && store[Key(Sent, v5, k.id)].msg.qos == 2)
  }

  /** Holds at every moment, also in the middle of a step. */
  ghost predicate StoreOk(v5: bool, store: Store) {
    forall k :: k in store ==> RecordOk(v5, store, k)
  }

  /** When the client performs action a, it is safe to: a PUBLISH goes out only while its record is stored
      and no PUBREL is, a PUBREL only after its record is stored, and a PUBREL record is erased only
      when the message it belongs to is gone. */
  ghost predicate Permitted(v5: bool, store: Store, a: Action) {
    match a
    case Put(k, r) =>
      && k.v5 == v5 && 0 <= k.id <= MAX_MSG_ID
      && (match k.stem
          case Sent => r.PublishRecord? && r.msg.id == k.id && 1 <= r.msg.qos <= 2 && 1 <= k.id
                       && (Key(Rel, v5, k.id) in store ==> r.msg.qos == 2)
          case Received => r.PublishRecord? && r.msg.id == k.id && r.msg.qos == 2
          case Rel => r == PubrelRecord(k.id) && Key(Sent, v5, k.id) in store
                      && store[Key(Sent, v5, k.id)].PublishRecord? && store[Key(Sent, v5, k.id)].msg.qos == 2)
    case Remove(k) => k.v5 == v5 && k.stem == Rel ==> Key(Sent, v5, k.id) !in store
    case SendPublish(id, _) => Key(Sent, v5, id) in store && Key(Rel, v5, id) !in store
    case SendPubrel(id) => Key(Sent, v5, id) in store && Key(Rel, v5, id) in store
    case _ => true
  }

  ghost predicate AllPermitted(v5: bool, store: Store, actions: seq<Action>)
    decreases |actions|
  {
    actions == [] || (Permitted(v5, store, actions[0]) && AllPermitted(v5, ApplyOne(store, actions[0]), actions[1..]))
  }

  lemma PermittedKeepsStore(v5: bool, store: Store, a: Action)
    requires StoreOk(v5, store) && Permitted(v5, store, a)
    ensures StoreOk(v5, ApplyOne(store, a))
  {
    var after := ApplyOne(store, a);
    forall k | k in after ensures RecordOk(v5, after, k) {
      if k in store {
        assert RecordOk(v5, store, k);
      }
    }
  }

  // ---------- sequences of actions ----------

  lemma {:induction false} ApplyConcat(store: Store, a: seq<Action>, b: seq<Action>)
    ensures Apply(store, a + b) == Apply(Apply(store, a), b)
    decreases |a|
  {
    if a == [] {
      assert a + b == b;
    } else {
      assert (a + b)[0] == a[0] && (a + b)[1..] == a[1..] + b;
      ApplyConcat(ApplyOne(store, a[0]), a[1..], b);
    }
  }

  lemma {:induction false} PermittedConcat(v5: bool, store: Store, a: seq<Action>, b: seq<Action>)
    ensures AllPermitted(v5, store, a + b) <==> AllPermitted(v5, store, a) && AllPermitted(v5, Apply(store, a), b)
    decreases |a|
  {
    if a == [] {
      assert a + b == b;
    } else {
      assert (a + b)[0] == a[0] && (a + b)[1..] == a[1..] + b;
      PermittedConcat(v5, ApplyOne(store, a[0]), a[1..], b);
    }
  }

  lemma {:induction false} PermittedRun(v5: bool, store: Store, actions: seq<Action>)
    requires StoreOk(v5, store) && AllPermitted(v5, store, actions)
    ensures StoreOk(v5, Apply(store, actions))
    decreases |actions|
  {
    if actions != [] {
      PermittedKeepsStore(v5, store, actions[0]);
      PermittedRun(v5, ApplyOne(store, actions[0]), actions[1..]);
    }
  }

  lemma Single(store: Store, a: Action)
    ensures Apply(store, [a]) == ApplyOne(store, a)
  {
    assert [a][1..] == [];
    assert Apply(ApplyOne(store, a), []) == ApplyOne(store, a);
  }

  lemma Pair(store: Store, a: Action, b: Action)
    ensures Apply(store, [a]) == ApplyOne(store, a)
    ensures Apply(store, [a, b]) == ApplyOne(ApplyOne(store, a), b)
  {
    Single(store, a);
    Single(ApplyOne(store, a), b);
    assert [a, b][1..] == [b];
  }

  // ---------- memory against store ----------

  ghost predicate OutboundMatches(s: Session) {
    && DistinctKeys(IdOf, s.outbound)
    && (forall i :: 0 <= i < |s.outbound| ==> Mirrors(s.v5, s.store, s.outbound[i]))
    && (forall k :: k in s.store && k.stem == Sent ==> IndexOf(s.outbound, k.id) >= 0)
  }

  /** The list element is what a restart would make of its record. */
  ghost predicate Mirrors(v5: bool, store: Store, f: Flight) {
    var k := Key(Sent, v5, f.msg.id);
    k in store && store[k].PublishRecord? && store[k].msg == f.msg && f.next == RestoredNext(v5, store, f.msg)
  }

  ghost predicate InboundMatches(s: Session) {
    && DistinctKeys(IdOf, s.inbound)
    && (forall i :: 0 <= i < |s.inbound| ==>
          s.inbound[i].next == AwaitPubrel && s.inbound[i].msg.qos == 2
              && Key(Received, s.v5, s.inbound[i].msg.id) in s.store)
  }

  ghost predicate NoOrphans(s: Session) {
    forall k :: k in s.store && k.stem == Rel ==> Key(Sent, s.v5, k.id) in s.store
  }

  /** Holds between steps. */
  ghost predicate Inv(s: Session) {
    StoreOk(s.v5, s.store) && OutboundMatches(s) && InboundMatches(s) && NoOrphans(s)
  }

  /** Two stores from which a restart would rebuild the same outbound messages in the same states. */
  ghost predicate SameRecovery(v5: bool, a: Store, b: Store) {
    forall id :: SameFlight(v5, a, b, id)
  }

  ghost predicate SameFlight(v5: bool, a: Store, b: Store, id: int) {
    var k := Key(Sent, v5, id);
    && (k in a <==> k in b)
    && (k in a ==> a[k].PublishRecord? && b[k].PublishRecord? && a[k].msg == b[k].msg
                   && RestoredNext(v5, a, a[k].msg) == RestoredNext(v5, b, b[k].msg))
  }

  // ---------- store effects ----------

  /** Actions on the store. */
  predicate Writes(a: Action) {
    a.Put? || a.Remove? || a.Discard?
  }

  lemma RemoveSentEffect(store: Store, id: int)
    ensures Apply(store, RemoveSent(id))
         == store - {Key(Sent, true, id), Key(Rel, true, id), Key(Sent, false, id), Key(Rel, false, id)}
  {
    var a := RemoveSent(id);
    assert a == [a[0], a[1]] + [a[2], a[3]];
    ApplyConcat(store, [a[0], a[1]], [a[2], a[3]]);
    Pair(store, a[0], a[1]);
    Pair(Apply(store, [a[0], a[1]]), a[2], a[3]);
  }

  lemma RemoveReceivedEffect(store: Store, id: int)
    ensures Apply(store, RemoveReceived(id)) == store - {Key(Received, true, id), Key(Received, false, id)}
  {
    Pair(store, Remove(Key(Received, true, id)), Remove(Key(Received, false, id)));
  }

  /** Once Sent is gone for both versions, the removal of its PUBREL records is permitted. */
  lemma RemoveSentPermitted(v5: bool, store: Store, id: int)
    ensures AllPermitted(v5, store, RemoveSent(id))
  {
    var a := RemoveSent(id);
    var s1 := ApplyOne(store, a[0]);
    var s2 := ApplyOne(s1, a[1]);
    var s3 := ApplyOne(s2, a[2]);
    assert a[1..] == [a[1], a[2], a[3]];
    assert a[1..][1..] == [a[2], a[3]];
    assert a[1..][1..][1..] == [a[3]];
    assert a[1..][1..][1..][1..] == [];
    assert AllPermitted(v5, s3, [a[3]]);
    assert AllPermitted(v5, s2, [a[2], a[3]]);
    assert AllPermitted(v5, s1, [a[1], a[2], a[3]]);
  }
}
