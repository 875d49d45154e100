/**
  What the client does get done: messages in flight are sent again on reconnect, and an exchange that
  is acknowledged is over, in memory and in the store.
*/
module SessionProgress {
  import opened Sequences
  import opened SortedInsert
  import opened Session
  import opened SessionInvariant
  import opened SessionSteps
  import opened SessionRuns
  import opened SessionSending

  /** The packets of the client's own exchanges. */
  predicate Packet(a: Action) {
    a.SendPublish? || a.SendPubrel?
  }

  function Packets(actions: seq<Action>): seq<Action> {
    if actions == [] then []
    else
      var n := |actions| - 1;
      Packets(actions[..n]) + if Packet(actions[n]) then [actions[n]] else []
  }

  lemma {:induction false} PacketsConcat(a: seq<Action>, b: seq<Action>)
    ensures Packets(a + b) == Packets(a) + Packets(b)
  {
    if b == [] {
      assert a + b == a;
    } else {
      assert (a + b)[..|a + b| - 1] == a + b[..|b| - 1];
      PacketsConcat(a, b[..|b| - 1]);
    }
  }

  lemma {:induction false} NoPackets(a: seq<Action>)
    requires forall i :: 0 <= i < |a| ==> !Packet(a[i])
    ensures Packets(a) == []
  {
    if a != [] {
      NoPackets(a[..|a| - 1]);
    }
  }

  lemma {:induction false} PacketsCount(a: seq<Action>, x: Action)
    requires Packet(x)
    ensures multiset(Packets(a))[x] == multiset(a)[x]
  {
    if a != [] {
      PacketsCount(a[..|a| - 1], x);
      assert a == a[..|a| - 1] + [a[|a| - 1]];
    }
  }

  // ---------- sending again ----------

  /** Section 4.4 of MQTT 3.1.1: the packet that a message in flight is waiting to have answered. */
  function Owed(f: Flight): Action {
    if f.next == AwaitPubcomp then SendPubrel(f.msg.id) else SendPublish(f.msg.id, true)
  }

  /** Those of the messages that are due, in list order. */
  function OwedBy(list: seq<Flight>, due: seq<bool>): seq<Action>
    requires |due| <= |list|
  {
    if due == [] then []
    else
      var n := |due| - 1;
      OwedBy(list, due[..n]) + if due[n] then [Owed(list[n])] else []
  }

  /** What a message in flight can be waiting for. */
  lemma FlightStates(v5: bool, store: Store, f: Flight)
    requires StoreOk(v5, store) && Mirrors(v5, store, f)
    ensures (f.msg.qos == 1 && f.next == Unset) || (f.msg.qos == 2 && (f.next == AwaitPubrec || f.next == AwaitPubcomp))
  {
    assert RecordOk(v5, store, Key(Sent, v5, f.msg.id));
    if Key(Rel, v5, f.msg.id) in store {
      assert RecordOk(v5, store, Key(Rel, v5, f.msg.id));
    }
  }

  lemma OnePacket(v5: bool, f: Flight)
    requires (f.msg.qos == 1 && f.next == Unset)
             || (f.msg.qos == 2 && (f.next == AwaitPubrec || f.next == AwaitPubcomp))
    ensures Packets(Resend(v5, f)) == [Owed(f)]
  {
    var a := Resend(v5, f);
    assert a[..1] == [a[0]] && a[..1][..0] == [] && Packets([]) == [];
    assert Packets(a[..1]) == [];
  }

  lemma {:induction false} SelectedPackets(s: Session, due: seq<bool>)
    requires StoreOk(s.v5, s.store) && OutboundMatches(s) && |due| <= |s.outbound|
    ensures Packets(ResendAll(s.v5, Selected(s.outbound, due))) == OwedBy(s.outbound, due)
  {
    hide StoreOk, Mirrors, Resend, Owed;
    if due != [] {
      var n := |due| - 1;
      SelectedPackets(s, due[..n]);
      var init := Selected(s.outbound, due[..n]);
      if due[n] {
        var f := s.outbound[n];
        FlightStates(s.v5, s.store, f);
        OnePacket(s.v5, f);
        assert (init + [f])[..|init|] == init;
        PacketsConcat(ResendAll(s.v5, init), Resend(s.v5, f));
      } else {
        assert init + [] == init;
      }
    }
  }

  lemma {:induction false} OwedOnce(list: seq<Flight>, due: seq<bool>, i: nat)
    requires DistinctKeys(IdOf, list) && |due| <= |list| && i < |list|
    ensures multiset(OwedBy(list, due))[Owed(list[i])] == One(i < |due| && due[i])
    ensures OnlyOwed(OwedBy(list, due), list[i])
  {
    hide Owed, OnlyOwed;
    NothingOwed(list[i]);
    if due != [] {
      var n := |due| - 1;
      OwedOnce(list, due[..n], i);
      assert n != i ==> IdOf(list[n]) != IdOf(list[i]);
      OneMoreOwed(OwedBy(list, due[..n]), list[n], list[i]);
    }
  }

  /** Of the packets of this exchange there is none but the one owed. */
  ghost predicate OnlyOwed(actions: seq<Action>, f: Flight) {
    forall x :: x in actions && Packet(x) && x.id == f.msg.id ==> x == Owed(f)
  }

  lemma NothingOwed(f: Flight)
    ensures OnlyOwed([], f) && forall a: seq<Action> :: a + [] == a
  {
  }

  lemma OneMoreOwed(init: seq<Action>, f: Flight, g: Flight)
    requires OnlyOwed(init, g) && (f == g || f.msg.id != g.msg.id)
    ensures multiset(init + [Owed(f)])[Owed(g)] == multiset(init)[Owed(g)] + One(f == g)
    ensures OnlyOwed(init + [Owed(f)], g)
  {
    assert multiset(init + [Owed(f)]) == multiset(init) + multiset{Owed(f)};
  }

  lemma {:induction false} PacketsFrom(a: seq<Action>)
    ensures forall x :: x in a && Packet(x) ==> x in Packets(a)
  {
    if a != [] {
      PacketsFrom(a[..|a| - 1]);
      assert a == a[..|a| - 1] + [a[|a| - 1]];
    }
  }

  /** The actions send again, once, exactly the message in flight that f is. */
  ghost predicate SentAgain(actions: seq<Action>, f: Flight, times: nat) {
    multiset(actions)[Owed(f)] == times && OnlyOwed(actions, f)
  }

  /**
    Section 4.4 of MQTT 3.1.1, at every reachable state: of the messages in flight, exactly those that are
    due are sent again, in list order, each once: the PUBLISH with its flag for repetition set while it
    waits for PUBACK or PUBREC, the PUBREL and no PUBLISH while it waits for PUBCOMP.
  */
  lemma RetrySendsAgain(s: Session, due: seq<bool>)
    requires Inv(s) && |due| <= |s.outbound|
    ensures var a := Handle(s, Retry(due)).actions;
            && Packets(a) == OwedBy(s.outbound, due)
            && forall i :: 0 <= i < |s.outbound| ==> SentAgain(a, s.outbound[i], One(i < |due| && due[i]))
  {
    hide StoreOk, Mirrors, Owed, ResendAll, Selected, Packet, OwedBy;
    var a := Handle(s, Retry(due)).actions;
    SelectedPackets(s, due);
    PacketsFrom(a);
    forall i | 0 <= i < |s.outbound| ensures SentAgain(a, s.outbound[i], One(i < |due| && due[i])) {
      OwedOnce(s.outbound, due, i);
      OwedIsPacket(s.outbound[i]);
      PacketsCount(a, Owed(s.outbound[i]));
    }
  }

  lemma OwedIsPacket(f: Flight)
    ensures Packet(Owed(f))
  {
  }

  /**
    The same across a restart: after any run, crashes included, a client that restarts and connects again
    sends for every message it had in flight exactly the one packet that this message was waiting to have
    answered, and nothing else.
  */
  lemma RestartSendsAgain(v5: bool, moves: seq<Move>, keys: seq<Key>)
    requires CanRun(Fresh(v5).s, moves) && Lists(keys, Run(Fresh(v5), moves).s.store)
    ensures var s := Run(Fresh(v5), moves).s;
            var t := Step(s, Restart(keys));
            var a := Handle(t, Retry(Everything(|t.outbound|))).actions;
            && |Packets(a)| == |s.outbound|
            && forall i :: 0 <= i < |s.outbound| ==> SentAgain(a, s.outbound[i], 1)
  {
    hide CanRun, Run, Lists, StoreOk, OutboundMatches, InboundMatches, NoOrphans, RestorePackets, ResendAll, Selected;
    hide SentAgain;
    FreshInv(v5);
    RunKeeps(Fresh(v5), moves);
    RecoveryRefinesMemory(v5, moves, keys);
    var s := Run(Fresh(v5), moves).s;
    var t := Step(s, Restart(keys));
    StepKeeps(s, Restart(keys));
    var due := Everything(|t.outbound|);
    RetrySendsAgain(t, due);
    OwedByAll(t.outbound, |t.outbound|);
    assert |s.outbound| == |multiset(s.outbound)| == |multiset(t.outbound)| == |t.outbound|;
    forall i | 0 <= i < |s.outbound|
      ensures SentAgain(Handle(t, Retry(due)).actions, s.outbound[i], 1)
    {
      assert s.outbound[i] in multiset(t.outbound);
      var j :| 0 <= j < |t.outbound| && t.outbound[j] == s.outbound[i];
    }
  }

  lemma {:induction false} OwedByAll(list: seq<Flight>, n: nat)
    requires n <= |list|
    ensures |OwedBy(list, Everything(n))| == n
  {
    if n > 0 {
      assert Everything(n)[..n - 1] == Everything(n - 1);
      OwedByAll(list, n - 1);
    }
  }

  // ---------- the end of an exchange ----------

  predicate Acknowledges(e: Event) {
    e.PubackIn? || e.PubrecIn? || e.PubcompIn?
  }

  /** The acknowledgement is the last one of the exchange of f. */
  predicate Last(v5: bool, f: Flight, e: Event)
    requires Acknowledges(e)
  {
    f.msg.id == e.id &&
    match e
    case PubackIn(_) => f.msg.qos == 1
    case PubrecIn(_, error) => f.msg.qos == 2 && f.next == AwaitPubrec && v5 && error
    case PubcompIn(_) => f.msg.qos == 2 && f.next == AwaitPubcomp
  }

  /** The PUBREC is the one that f waits for, and carries no error. */
  predicate Middle(v5: bool, f: Flight, e: Event)
    requires Acknowledges(e)
  {
    f.msg.id == e.id && e.PubrecIn? && f.msg.qos == 2 && f.next == AwaitPubrec && !(v5 && e.error)
  }

  /** The message at position i is out of the list, and the others stay in order. */
  ghost predicate OutOfList(before: seq<Flight>, after: seq<Flight>, i: nat)
    requires i < |before|
  {
    && i <= |after| && before == after[..i] + [before[i]] + after[i..]
    && forall f :: f in after ==> f.msg.id != before[i].msg.id
  }

  /** The records of the exchange are gone, and no others. */
  ghost predicate OutOfStore(before: Store, after: Store, id: int) {
    && (forall k :: k in after <==> k in before && (k.id != id || k.stem == Received))
    && (forall k :: k in after ==> after[k] == before[k])
  }

  /** From any reachable state: what ends with an acknowledgement. */
  lemma LastAcknowledgementEnds(s: Session, e: Event, i: nat)
    requires Inv(s) && Acknowledges(e) && i < |s.outbound| && Last(s.v5, s.outbound[i], e)
    ensures var t := Step(s, e);
            && OutOfList(s.outbound, t.outbound, i) && OutOfStore(s.store, t.store, e.id)
            && t.inbound == s.inbound && Packets(Handle(s, e).actions) == []
  {
    hide StoreOk, Mirrors, NoOrphans, InboundMatches, RemoveSent, Apply;
    FoundAt(s.outbound, i);
    var t := Step(s, e);
    assert Handle(s, e).actions == RemoveSent(e.id) && t.outbound == Without(s.outbound, i);
    RemoveSentEffect(s.store, e.id);
    TakenOut(s.outbound, i);
    OnlyThose(s.store, t.store, e.id);
    RemovalsSendNothing(e.id);
  }

  lemma FoundAt(list: seq<Flight>, i: nat)
    requires DistinctKeys(IdOf, list) && i < |list|
    ensures IndexOf(list, list[i].msg.id) == i
  {
    assert IdOf(list[IndexOf(list, list[i].msg.id)]) == IdOf(list[i]);
  }

  lemma TakenOut(list: seq<Flight>, i: nat)
    requires DistinctKeys(IdOf, list) && i < |list|
    ensures OutOfList(list, Without(list, i), i)
  {
    var after := Without(list, i);
    assert list == after[..i] + [list[i]] + after[i..];
    forall f | f in after ensures f.msg.id != list[i].msg.id {
      var j :| 0 <= j < |after| && after[j] == f;
      assert IdOf(list[if j < i then j else j + 1]) != IdOf(list[i]);
    }
  }

  lemma OnlyThose(before: Store, after: Store, id: int)
    requires after == before - {Key(Sent, true, id), Key(Rel, true, id), Key(Sent, false, id), Key(Rel, false, id)}
    ensures OutOfStore(before, after, id)
  {
    forall k | k in before && k.id == id && k.stem != Received ensures k !in after {
      assert k == Key(k.stem, k.v5, id);
    }
  }

  lemma RemovalsSendNothing(id: int)
    ensures Packets(RemoveSent(id)) == []
  {
    NoPackets(RemoveSent(id));
  }

  /** Every other message, its own exchange moved on: the PUBREL is on record before it goes out. */
  lemma PubrecMovesOn(s: Session, e: Event, i: nat)
    requires Inv(s) && Acknowledges(e) && i < |s.outbound| && Middle(s.v5, s.outbound[i], e)
    ensures var t := Step(s, e);
            && t == s.(outbound := s.outbound[i := s.outbound[i].(next := AwaitPubcomp)],
                       store := s.store[Key(Rel, s.v5, e.id) := PubrelRecord(e.id)])
            && Packets(Handle(s, e).actions) == [SendPubrel(e.id)]
            && Handle(s, e).actions[0] == Put(Key(Rel, s.v5, e.id), PubrelRecord(e.id))
  {
    hide StoreOk, Mirrors, NoOrphans, InboundMatches, Apply;
    FoundAt(s.outbound, i);
    var a := Handle(s, e).actions;
    Pair(s.store, a[0], a[1]);
    TwoPackets(a[0], a[1]);
  }

  lemma TwoPackets(a: Action, b: Action)
    requires !Packet(a) && Packet(b)
    ensures Packets([a, b]) == [b]
  {
    NoPackets([a]);
    assert [a, b][..1] == [a];
  }

  /** Any other acknowledgement - an unknown id, a message of the other QoS, the wrong moment - does nothing. */
  lemma OtherAcknowledgementIgnored(s: Session, e: Event)
    requires Acknowledges(e)
    requires forall i :: 0 <= i < |s.outbound| ==> !Last(s.v5, s.outbound[i], e) && !Middle(s.v5, s.outbound[i], e)
    ensures Step(s, e) == s && Handle(s, e).actions == []
  {
    var i := IndexOf(s.outbound, e.id);
    assert i >= 0 ==> !Last(s.v5, s.outbound[i], e) && !Middle(s.v5, s.outbound[i], e);
    assert Handle(s, e).actions == [];
  }

  // ---------- whole exchanges ----------

  /** The moves of an exchange without losses. */
  function Exchange(m: Message): seq<Move> {
    if m.qos == 1 then [Whole(Publish(m)), Whole(PubackIn(m.id))]
    else [Whole(Publish(m)), Whole(PubrecIn(m.id, false)), Whole(PubcompIn(m.id))]
  }

  function ExchangePackets(m: Message): seq<Action> {
    if m.qos == 1 then [SendPublish(m.id, false)] else [SendPublish(m.id, false), SendPubrel(m.id)]
  }

  lemma PublicationStarts(s: Session, m: Message)
    requires Inv(s) && Enabled(s, Publish(m))
    ensures var t := Step(s, Publish(m));
            && t == s.(outbound := s.outbound + [Flight(m, if m.qos == 2 then AwaitPubrec else Unset)],
                       store := s.store[Key(Sent, s.v5, m.id) := PublishRecord(m, false)])
            && Inv(t) && Packets(Handle(s, Publish(m)).actions) == [SendPublish(m.id, false)]
            && Handle(s, Publish(m)).actions[0] == Put(Key(Sent, s.v5, m.id), PublishRecord(m, false))
  {
    hide Inv, Apply;
    PublishStep(s, m);
    var a := Handle(s, Publish(m)).actions;
    Pair(s.store, a[0], a[1]);
    TwoPackets(a[0], a[1]);
  }

  /** Taking out the last element and its records undoes the start. */
  lemma Undone(s: Session, m: Message, mid: Session, t: Session)
    requires Inv(s) && IndexOf(s.outbound, m.id) < 0
    requires |mid.outbound| == |s.outbound| + 1 && mid.outbound[..|s.outbound|] == s.outbound
    requires mid.outbound[|s.outbound|].msg.id == m.id
    requires forall k: Key :: k.id != m.id || k.stem == Received ==>
               (k in mid.store <==> k in s.store) && (k in s.store ==> mid.store[k] == s.store[k])
    requires OutOfList(mid.outbound, t.outbound, |s.outbound|) && OutOfStore(mid.store, t.store, m.id)
    requires t.v5 == s.v5 && t.inbound == s.inbound
    ensures t == s
  {
    hide Mirrors, InboundMatches;
    var n := |s.outbound|;
    assert |t.outbound| == n && t.outbound[..n] == mid.outbound[..n];
    forall k | k in s.store && k.stem != Received ensures k.id != m.id {
      assert RecordOk(s.v5, s.store, k);
      NewIdUnused(s, m.id);
      assert k == Key(k.stem, s.v5, k.id);
    }
    assert t.store == s.store;
  }

  /**
    From any reachable state, an exchange without losses sends its packets and nothing else, and leaves
    nothing behind: lists and store are what they were before.
  */
  lemma ExchangeLeavesNothing(w: World, m: Message)
    requires Inv(w.s) && Enabled(w.s, Publish(m))
    ensures CanRun(w.s, Exchange(m))
    ensures var t := Run(w, Exchange(m));
            t.s == w.s && Packets(t.trace) == Packets(w.trace) + ExchangePackets(m)
  {
    if m.qos == 1 {
      Qos1Exchange(w, m);
    } else {
      Qos2Exchange(w, m);
    }
  }

  lemma Qos1Exchange(w: World, m: Message)
    requires Inv(w.s) && Enabled(w.s, Publish(m)) && m.qos == 1
    ensures CanRun(w.s, Exchange(m))
    ensures var t := Run(w, Exchange(m));
            t.s == w.s && Packets(t.trace) == Packets(w.trace) + ExchangePackets(m)
  {
    hide Inv, OutOfList, OutOfStore, Packets, CanRun, Run, Apply, IndexOf, Handle;
    var a, b := Whole(Publish(m)), Whole(PubackIn(m.id));
    PublicationStarts(w.s, m);
    var w1 := After(w, a);
    LastAcknowledgementEnds(w1.s, PubackIn(m.id), |w.s.outbound|);
    var w2 := After(w1, b);
    Undone(w.s, m, w1.s, w2.s);
    RunTwo(w, a, b);
    PacketsConcat(w.trace, MoveActions(w.s, a));
    PacketsConcat(w1.trace, MoveActions(w1.s, b));
  }

  lemma Qos2Exchange(w: World, m: Message)
    requires Inv(w.s) && Enabled(w.s, Publish(m)) && m.qos == 2
    ensures CanRun(w.s, Exchange(m))
    ensures var t := Run(w, Exchange(m));
            t.s == w.s && Packets(t.trace) == Packets(w.trace) + ExchangePackets(m)
  {
    hide Inv, OutOfList, OutOfStore, Packets, CanRun, Run, Apply, IndexOf, Handle;
    var a, b, c := Whole(Publish(m)), Whole(PubrecIn(m.id, false)), Whole(PubcompIn(m.id));
    PublicationStarts(w.s, m);
    var w1 := After(w, a);
    PubrecMovesOn(w1.s, PubrecIn(m.id, false), |w.s.outbound|);
    AckStep(w1.s, PubrecIn(m.id, false));
    var w2 := After(w1, b);
    LastAcknowledgementEnds(w2.s, PubcompIn(m.id), |w.s.outbound|);
    var w3 := After(w2, c);
    Undone(w.s, m, w2.s, w3.s);
    RunThree(w, a, b, c);
    PacketsConcat(w.trace, MoveActions(w.s, a));
    PacketsConcat(w1.trace, MoveActions(w1.s, b));
    PacketsConcat(w2.trace, MoveActions(w2.s, c));
  }

  /** A cleaned session has nothing in flight, nothing half received, and nothing on record. */
  lemma CleaningForgets(s: Session, keys: seq<Key>)
    requires Lists(keys, s.store)
    ensures Step(s, Clean(keys)) == Session(s.v5, [], [], map[])
  {
    hide Apply, DiscardAll;
    DiscardEffect(s.store, keys);
    assert Step(s, Clean(keys)).store == map[];
  }
}
