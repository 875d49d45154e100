/** Each handler performs only permitted actions and leaves memory and store in agreement. */
module SessionSteps {
  import opened MessageIds
  import opened Sequences
  import opened SortedInsert
  import opened Session
  import opened SessionInvariant

  lemma TwoPermitted(v5: bool, store: Store, a: Action, b: Action)
    requires Permitted(v5, store, a) && Permitted(v5, ApplyOne(store, a), b)
    ensures AllPermitted(v5, store, [a, b])
    ensures Apply(store, [a, b]) == ApplyOne(ApplyOne(store, a), b)
  {
    Pair(store, a, b);
    assert [a, b][1..] == [b];
    assert [b][1..] == [];
    assert AllPermitted(v5, ApplyOne(store, a), [b]);
  }

  lemma {:induction false} SilentPermitted(v5: bool, store: Store, actions: seq<Action>)
    requires forall i :: 0 <= i < |actions| ==>
               actions[i].SendAck? || actions[i].Deliver? || actions[i].Open?
    ensures AllPermitted(v5, store, actions) && Apply(store, actions) == store
    decreases |actions|
  {
    if actions != [] {
      SilentPermitted(v5, store, actions[1..]);
    }
  }

  lemma PublishOutbound(s: Session, m: Message, t: Session)
    requires OutboundMatches(s) && IndexOf(s.outbound, m.id) < 0 && Key(Rel, s.v5, m.id) !in s.store
    requires t.v5 == s.v5 && t.outbound == s.outbound + [Flight(m, InitialNext(m.qos))]
    requires t.store == s.store[Key(Sent, s.v5, m.id) := PublishRecord(m, false)]
    ensures OutboundMatches(t)
  {
    forall i | 0 <= i < |t.outbound| ensures Mirrors(t.v5, t.store, t.outbound[i]) {
      if i < |s.outbound| {
        assert Mirrors(s.v5, s.store, s.outbound[i]);
      }
    }
    forall k | k in t.store && k.stem == Sent ensures IndexOf(t.outbound, k.id) >= 0 {
      if k in s.store {
        assert s.outbound[IndexOf(s.outbound, k.id)] == t.outbound[IndexOf(s.outbound, k.id)];
      } else {
        assert t.outbound[|s.outbound|].msg.id == k.id;
      }
    }
  }

  lemma NewIdUnused(s: Session, id: int)
    requires OutboundMatches(s) && NoOrphans(s) && IndexOf(s.outbound, id) < 0
    ensures Key(Sent, s.v5, id) !in s.store && Key(Rel, s.v5, id) !in s.store
  {
  }

  lemma PublishStep(s: Session, m: Message)
    requires Inv(s) && Enabled(s, Publish(m))
    ensures AllPermitted(s.v5, s.store, StartPublish(s, m).actions)
    ensures Inv(Step(s, Publish(m)))
  {
    hide StoreOk, AllPermitted, Apply, OutboundMatches;
    NewIdUnused(s, m.id);
    var a := StartPublish(s, m).actions;
    TwoPermitted(s.v5, s.store, a[0], a[1]);
    PermittedRun(s.v5, s.store, a);
    PublishOutbound(s, m, Step(s, Publish(m)));
  }

  /** Finishing an outbound exchange: the list element goes, and so do its records. */
  lemma FinishStep(s: Session, i: nat, t: Session)
    requires Inv(s) && i < |s.outbound|
    requires t == Session(s.v5, Without(s.outbound, i), s.inbound, Apply(s.store, RemoveSent(s.outbound[i].msg.id)))
    ensures AllPermitted(s.v5, s.store, RemoveSent(s.outbound[i].msg.id))
    ensures Inv(t)
  {
    hide StoreOk, AllPermitted, OutboundMatches, Apply, RemoveSent;
    var id := s.outbound[i].msg.id;
    RemoveSentPermitted(s.v5, s.store, id);
    PermittedRun(s.v5, s.store, RemoveSent(id));
    RemoveSentEffect(s.store, id);
    FinishOutbound(s, i, t);
  }

  lemma MirrorsSurvives(v5: bool, store: Store, f: Flight, id: int)
    requires Mirrors(v5, store, f) && f.msg.id != id
    ensures Mirrors(v5, store - {Key(Sent, true, id), Key(Rel, true, id), Key(Sent, false, id), Key(Rel, false, id)}, f)
  {
  }

  lemma StillListed(list: seq<Flight>, i: nat, id: int)
    requires i < |list| && list[i].msg.id != id && IndexOf(list, id) >= 0
    ensures IndexOf(Without(list, i), id) >= 0
  {
    var j := IndexOf(list, id);
    assert Without(list, i)[if j < i then j else j - 1] == list[j];
  }

  lemma FinishOutbound(s: Session, i: nat, t: Session)
    requires OutboundMatches(s) && StoreOk(s.v5, s.store) && i < |s.outbound|
    requires t.v5 == s.v5 && t.outbound == Without(s.outbound, i)
    requires var id := s.outbound[i].msg.id;
             t.store == s.store - {Key(Sent, true, id), Key(Rel, true, id), Key(Sent, false, id), Key(Rel, false, id)}
    ensures OutboundMatches(t)
  {
    var id := s.outbound[i].msg.id;
    WithoutDistinct(s.outbound, i);
    forall j | 0 <= j < |t.outbound| ensures Mirrors(t.v5, t.store, t.outbound[j]) {
      var j' := if j < i then j else j + 1;
      assert IdOf(s.outbound[j']) != IdOf(s.outbound[i]);
      MirrorsSurvives(s.v5, s.store, s.outbound[j'], id);
    }
    forall k | k in t.store && k.stem == Sent ensures IndexOf(t.outbound, k.id) >= 0 {
      assert k in s.store && RecordOk(s.v5, s.store, k);
      StillListed(s.outbound, i, k.id);
    }
  }

  lemma WithoutDistinct(list: seq<Flight>, i: nat)
    requires DistinctKeys(IdOf, list) && i < |list|
    ensures DistinctKeys(IdOf, Without(list, i))
  {
    var t := Without(list, i);
    forall a, b | 0 <= a < b < |t| ensures IdOf(t[a]) != IdOf(t[b]) {
      assert t[a] == list[if a < i then a else a + 1];
      assert t[b] == list[if b < i then b else b + 1];
    }
  }

  lemma PubrelOutbound(s: Session, i: nat, t: Session)
    requires OutboundMatches(s) && i < |s.outbound| && s.outbound[i].msg.qos == 2 && t.v5 == s.v5
    requires t.outbound == s.outbound[i := s.outbound[i].(next := AwaitPubcomp)]
    requires var id := s.outbound[i].msg.id; t.store == s.store[Key(Rel, s.v5, id) := PubrelRecord(id)]
    ensures OutboundMatches(t)
  {
    forall j | 0 <= j < |t.outbound| ensures Mirrors(t.v5, t.store, t.outbound[j]) {
      assert Mirrors(s.v5, s.store, s.outbound[j]);
      if j != i {
        assert IdOf(s.outbound[j]) != IdOf(s.outbound[i]);
      }
    }
    forall k | k in t.store && k.stem == Sent ensures IndexOf(t.outbound, k.id) >= 0 {
      var j := IndexOf(s.outbound, k.id);
      assert t.outbound[j].msg == s.outbound[j].msg;
    }
  }

  lemma PubrelStep(s: Session, i: nat, t: Session, a: seq<Action>)
    requires Inv(s) && i < |s.outbound| && s.outbound[i].msg.qos == 2
    requires a == [Put(Key(Rel, s.v5, s.outbound[i].msg.id), PubrelRecord(s.outbound[i].msg.id)),
               SendPubrel(s.outbound[i].msg.id)]
    requires t == Session(s.v5, s.outbound[i := s.outbound[i].(next := AwaitPubcomp)], s.inbound, Apply(s.store, a))
    ensures AllPermitted(s.v5, s.store, a)
    ensures Inv(t)
  {
    hide StoreOk, AllPermitted, Apply, OutboundMatches, InboundMatches, NoOrphans;
    StoredQos2(s, i);
    TwoPermitted(s.v5, s.store, a[0], a[1]);
    PermittedRun(s.v5, s.store, a);
    PubrelOutbound(s, i, t);
    PubrelRest(s, i, t);
  }

  lemma StoredQos2(s: Session, i: nat)
    requires Inv(s) && i < |s.outbound| && s.outbound[i].msg.qos == 2
    ensures var k := Key(Sent, s.v5, s.outbound[i].msg.id);
            k in s.store && s.store[k].PublishRecord? && s.store[k].msg.qos == 2 && 0 <= k.id <= MAX_MSG_ID
  {
    assert Mirrors(s.v5, s.store, s.outbound[i]);
    assert RecordOk(s.v5, s.store, Key(Sent, s.v5, s.outbound[i].msg.id));
  }

  lemma PubrelRest(s: Session, i: nat, t: Session)
    requires Inv(s) && i < |s.outbound| && s.outbound[i].msg.qos == 2 && t.v5 == s.v5 && t.inbound == s.inbound
    requires var id := s.outbound[i].msg.id; t.store == s.store[Key(Rel, s.v5, id) := PubrelRecord(id)]
    ensures InboundMatches(t) && NoOrphans(t)
  {
    StoredQos2(s, i);
  }

  lemma AckStep(s: Session, e: Event)
    requires Inv(s) && (e.PubackIn? || e.PubrecIn? || e.PubcompIn?)
    ensures AllPermitted(s.v5, s.store, Handle(s, e).actions)
    ensures Inv(Step(s, e))
  {
    var i := IndexOf(s.outbound, e.id);
    var o := Handle(s, e);
    if o.actions == [] {
      assert Step(s, e) == s;
    } else if o.actions == RemoveSent(e.id) {
      FinishStep(s, i, Step(s, e));
    } else {
      PubrelStep(s, i, Step(s, e), o.actions);
    }
  }

  /** The store holds the same keys with the same messages: only dup flags may differ. */
  ghost predicate SameMeaning(store: Store, after: Store) {
    && (forall k :: k in after <==> k in store)
    && (forall k :: k in store && store[k].PublishRecord? ==> after[k].PublishRecord? && after[k].msg == store[k].msg)
  }

  ghost predicate AllMirror(v5: bool, store: Store, list: seq<Flight>) {
    forall i :: 0 <= i < |list| ==> Mirrors(v5, store, list[i])
  }

  lemma MirrorsStill(v5: bool, store: Store, after: Store, f: Flight)
    requires Mirrors(v5, store, f) && SameMeaning(store, after)
    ensures Mirrors(v5, after, f)
  {
  }

  /** Sending again rewrites records without changing what they mean. */
  lemma ResendStep(v5: bool, store: Store, f: Flight)
    requires StoreOk(v5, store) && Mirrors(v5, store, f)
    ensures AllPermitted(v5, store, Resend(v5, f))
    ensures StoreOk(v5, Apply(store, Resend(v5, f))) && SameMeaning(store, Apply(store, Resend(v5, f)))
  {
    var a := Resend(v5, f);
    var k := Key(Sent, v5, f.msg.id);
    assert RecordOk(v5, store, k);
    if Key(Rel, v5, f.msg.id) in store {
      assert RecordOk(v5, store, Key(Rel, v5, f.msg.id));
    }
    if a != [] {
      TwoPermitted(v5, store, a[0], a[1]);
      PermittedRun(v5, store, a);
    }
  }

  lemma {:induction false} ResendAllStep(v5: bool, store: Store, list: seq<Flight>)
    requires StoreOk(v5, store) && AllMirror(v5, store, list)
    ensures AllPermitted(v5, store, ResendAll(v5, list))
    ensures StoreOk(v5, Apply(store, ResendAll(v5, list))) && SameMeaning(store, Apply(store, ResendAll(v5, list)))
  {
    hide StoreOk, Mirrors, Resend;
    if list != [] {
      var init, f := list[..|list| - 1], list[|list| - 1];
      ResendAllStep(v5, store, init);
      var mid := Apply(store, ResendAll(v5, init));
      MirrorsStill(v5, store, mid, f);
      ResendStep(v5, mid, f);
      ApplyConcat(store, ResendAll(v5, init), Resend(v5, f));
      PermittedConcat(v5, store, ResendAll(v5, init), Resend(v5, f));
    }
  }

  lemma {:induction false} SelectedFrom(list: seq<Flight>, due: seq<bool>)
    requires |due| <= |list|
    ensures forall f :: f in Selected(list, due) ==> f in list
  {
    if due != [] {
      SelectedFrom(list, due[..|due| - 1]);
    }
  }

  lemma SelectedMirror(s: Session, due: seq<bool>)
    requires OutboundMatches(s) && |due| <= |s.outbound|
    ensures AllMirror(s.v5, s.store, Selected(s.outbound, due))
  {
    hide Mirrors;
    SelectedFrom(s.outbound, due);
    var list := Selected(s.outbound, due);
    forall i | 0 <= i < |list| ensures Mirrors(s.v5, s.store, list[i]) {
      assert list[i] in s.outbound;
    }
  }

  lemma SameMeaningKeeps(s: Session, t: Session)
    requires Inv(s) && StoreOk(t.v5, t.store) && SameMeaning(s.store, t.store)
    requires t == s.(store := t.store)
    ensures Inv(t)
  {
    hide StoreOk, Mirrors;
    forall i | 0 <= i < |t.outbound| ensures Mirrors(t.v5, t.store, t.outbound[i]) {
      MirrorsStill(s.v5, s.store, t.store, s.outbound[i]);
    }
  }

  /** Re-sending any of the messages in flight, in list order. */
  lemma RetryStep(s: Session, due: seq<bool>)
    requires Inv(s) && |due| <= |s.outbound|
    ensures AllPermitted(s.v5, s.store, Handle(s, Retry(due)).actions)
    ensures Inv(Step(s, Retry(due)))
  {
    hide Selected, ResendAll, AllPermitted, Apply, StoreOk, OutboundMatches, SameMeaning;
    SelectedMirror(s, due);
    ResendAllStep(s.v5, s.store, Selected(s.outbound, due));
    SameMeaningKeeps(s, Step(s, Retry(due)));
  }

  /** The store gains, changes or loses only received records. */
  lemma ReceivedOnly(s: Session, t: Session)
    requires Inv(s) && StoreOk(t.v5, t.store) && InboundMatches(t)
    requires t.v5 == s.v5 && t.outbound == s.outbound
    requires forall k: Key :: k.stem != Received ==>
               (k in t.store <==> k in s.store) && (k in s.store ==> t.store[k] == s.store[k])
    ensures Inv(t)
  {
    forall i | 0 <= i < |t.outbound| ensures Mirrors(t.v5, t.store, t.outbound[i]) {
      assert Mirrors(s.v5, s.store, s.outbound[i]);
    }
  }

  lemma PublishInInbound(s: Session, m: Message, dup: bool, writable: bool, t: Session)
    requires Inv(s) && m.qos == 2
    requires t.v5 == s.v5 && t.inbound == HandlePublish(s, m, dup, writable).inbound
    requires t.store == s.store[Key(Received, s.v5, m.id) := PublishRecord(m, dup)]
    ensures InboundMatches(t)
  {
    var i := IndexOf(s.inbound, m.id);
    if writable && i >= 0 {
      forall a, b | 0 <= a < b < |t.inbound| ensures IdOf(t.inbound[a]) != IdOf(t.inbound[b]) {
        assert IdOf(s.inbound[a]) != IdOf(s.inbound[b]);
      }
    }
  }

  lemma PublishInActions(s: Session, m: Message, dup: bool, writable: bool)
    requires m.qos == 2 ==> 0 <= m.id <= MAX_MSG_ID
    ensures var a := HandlePublish(s, m, dup, writable).actions;
            && AllPermitted(s.v5, s.store, a)
            && Apply(s.store, a) ==
               if m.qos == 2 then s.store[Key(Received, s.v5, m.id) := PublishRecord(m, dup)] else s.store
  {
    var a := HandlePublish(s, m, dup, writable).actions;
    if m.qos != 2 {
      SilentPermitted(s.v5, s.store, a);
    } else {
      SilentPermitted(s.v5, ApplyOne(s.store, a[0]), a[1..]);
    }
  }

  lemma PublishInStep(s: Session, m: Message, dup: bool, writable: bool)
    requires Inv(s) && Enabled(s, PublishIn(m, dup, writable))
    ensures AllPermitted(s.v5, s.store, HandlePublish(s, m, dup, writable).actions)
    ensures Inv(Step(s, PublishIn(m, dup, writable)))
  {
    hide StoreOk, OutboundMatches, InboundMatches, NoOrphans, AllPermitted, Apply;
    var t := Step(s, PublishIn(m, dup, writable));
    PublishInActions(s, m, dup, writable);
    PermittedRun(s.v5, s.store, HandlePublish(s, m, dup, writable).actions);
    if m.qos == 2 {
      PublishInInbound(s, m, dup, writable, t);
      ReceivedOnly(s, t);
    } else {
      assert t == s;
    }
  }

  lemma CompleteActions(v5: bool, store: Store, id: int, pre: seq<Action>)
    requires forall i :: 0 <= i < |pre| ==> pre[i].SendAck? || pre[i].Deliver?
    ensures AllPermitted(v5, store, pre + RemoveReceived(id))
    ensures Apply(store, pre + RemoveReceived(id)) == store - {Key(Received, true, id), Key(Received, false, id)}
  {
    var rm := RemoveReceived(id);
    SilentPermitted(v5, store, pre);
    TwoPermitted(v5, store, rm[0], rm[1]);
    RemoveReceivedEffect(store, id);
    ApplyConcat(store, pre, rm);
    PermittedConcat(v5, store, pre, rm);
  }

  lemma CompleteInbound(s: Session, i: nat, t: Session)
    requires Inv(s) && i < |s.inbound| && t.v5 == s.v5 && t.inbound == Without(s.inbound, i)
    requires var id := s.inbound[i].msg.id; t.store == s.store - {Key(Received, true, id), Key(Received, false, id)}
    ensures InboundMatches(t)
  {
    WithoutDistinct(s.inbound, i);
    forall j | 0 <= j < |t.inbound|
      ensures t.inbound[j].next == AwaitPubrel && t.inbound[j].msg.qos == 2
                && Key(Received, t.v5, t.inbound[j].msg.id) in t.store
    {
      var j' := if j < i then j else j + 1;
      assert t.inbound[j] == s.inbound[j'];
      assert IdOf(s.inbound[j']) != IdOf(s.inbound[i]);
    }
  }

  lemma PubrelInDone(s: Session, i: nat, t: Session)
    requires Inv(s) && i < |s.inbound| && StoreOk(t.v5, t.store)
    requires var id := s.inbound[i].msg.id;
             t == Session(s.v5, s.outbound, Without(s.inbound, i),
                 s.store - {Key(Received, true, id), Key(Received, false, id)})
    ensures Inv(t)
  {
    hide StoreOk, OutboundMatches, NoOrphans, InboundMatches, Without;
    CompleteInbound(s, i, t);
    ReceivedOnly(s, t);
  }

  lemma PubrelInStep(s: Session, id: int, dup: bool, writable: bool)
    requires Inv(s)
    ensures AllPermitted(s.v5, s.store, HandlePubrel(s, id, dup, writable).actions)
    ensures Inv(Step(s, PubrelIn(id, dup, writable)))
  {
    hide StoreOk, OutboundMatches, NoOrphans, AllPermitted, Apply, Without, IndexOf, RemoveReceived;
    var o := HandlePubrel(s, id, dup, writable);
    var t := Step(s, PubrelIn(id, dup, writable));
    var i := IndexOf(s.inbound, id);
    if i < 0 || !writable {
      SilentPermitted(s.v5, s.store, o.actions);
      assert t == s;
    } else {
      CompleteActions(s.v5, s.store, id, [SendAck(Pubcomp, id)] + (if s.v5 then [] else [Deliver(s.inbound[i].msg)]));
      PermittedRun(s.v5, s.store, o.actions);
      PubrelInDone(s, i, t);
    }
  }

  // ---------- the end of a session ----------

  lemma {:induction false} DiscardPermitted(v5: bool, store: Store, keys: seq<Key>)
    ensures AllPermitted(v5, store, DiscardAll(keys))
    decreases |keys|
  {
    if keys != [] {
      assert DiscardAll(keys)[1..] == DiscardAll(keys[1..]);
      DiscardPermitted(v5, store - {keys[0]}, keys[1..]);
    }
  }

  /** Discarding erases exactly the keys given. */
  lemma {:induction false} DiscardEffect(store: Store, keys: seq<Key>)
    ensures var after := Apply(store, DiscardAll(keys));
            && (forall k :: k in after <==> k in store && k !in keys)
            && (forall k :: k in after ==> after[k] == store[k])
    decreases |keys|
  {
    if keys != [] {
      assert DiscardAll(keys)[1..] == DiscardAll(keys[1..]);
      DiscardEffect(store - {keys[0]}, keys[1..]);
    }
  }

  lemma CleanStep(s: Session, keys: seq<Key>)
    requires Lists(keys, s.store)
    ensures AllPermitted(s.v5, s.store, Handle(s, Clean(keys)).actions)
    ensures Inv(Step(s, Clean(keys)))
  {
    DiscardPermitted(s.v5, s.store, keys);
    DiscardEffect(s.store, keys);
  }
}
