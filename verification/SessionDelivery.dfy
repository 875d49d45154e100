/**
  QoS 2 receipt over runs with crashes and restarts: how many deliveries there are for the exchanges
  completed, exactly, and the runs on which it is one too many or one too few.
*/
module SessionDelivery {
  import opened Sequences
  import opened MessageIds
  import opened SortedInsert
  import opened RestoreOrder
  import opened Session
  import opened SessionInvariant
  import opened SessionSteps
  import opened SessionRestart
  import opened SessionRuns
  import opened SessionReceipt

  function ReceivedKey(s: Session, id: int): Key {
    Key(Received, s.v5, id)
  }

  // ---------- the received record in a cut step ----------

  /** Nothing is done to the record under k. */
  ghost predicate Spares(actions: seq<Action>, k: Key) {
    forall i :: 0 <= i < |actions| ==> !(Writes(actions[i]) && actions[i].key == k)
  }

  lemma {:induction false} Untouched(store: Store, actions: seq<Action>, k: Key)
    requires Spares(actions, k)
    ensures k in Apply(store, actions) <==> k in store
    ensures k in store ==> Apply(store, actions)[k] == store[k]
    decreases |actions|
  {
    if actions != [] {
      Untouched(ApplyOne(store, actions[0]), actions[1..], k);
    }
  }

  lemma PublishInReceived(s: Session, m: Message, dup: bool, writable: bool, n: nat, id: int)
    requires n <= |HandlePublish(s, m, dup, writable).actions|
    ensures ReceivedKey(s, id) in Apply(s.store, HandlePublish(s, m, dup, writable).actions[..n])
            <==> ReceivedKey(s, id) in s.store || (m.qos == 2 && m.id == id && n > 0)
  {
    var a := HandlePublish(s, m, dup, writable).actions[..n];
    if m.qos == 2 && n > 0 {
      assert a[0] == Put(ReceivedKey(s, m.id), PublishRecord(m, dup));
      Untouched(ApplyOne(s.store, a[0]), a[1..], ReceivedKey(s, id));
    } else {
      Untouched(s.store, a, ReceivedKey(s, id));
    }
  }

  lemma ErasedKey(v5: bool, m: Message)
    ensures var a := Completing(v5, m);
            |a| == (if v5 then 3 else 4) && a[ErasedAt(v5)] == Remove(Key(Received, v5, m.id))
    ensures forall i, id :: 0 <= i < |Completing(v5, m)| && (i != ErasedAt(v5) || m.id != id) ==>
              !(Writes(Completing(v5, m)[i]) && Completing(v5, m)[i].key == Key(Received, v5, id))
  {
  }

  lemma CompletingReceived(v5: bool, store: Store, m: Message, n: nat, id: int)
    requires n <= |Completing(v5, m)|
    ensures Key(Received, v5, id) in Apply(store, Completing(v5, m)[..n])
            <==> Key(Received, v5, id) in store && !(m.id == id && n > ErasedAt(v5))
  {
    ErasedKey(v5, m);
    hide Apply, Completing;
    var a, k, at := Completing(v5, m)[..n], Key(Received, v5, id), ErasedAt(v5);
    if m.id == id && n > at {
      assert a == a[..at] + ([a[at]] + a[at + 1..]);
      var before := Apply(store, a[..at]);
      ApplyConcat(store, a[..at], [a[at]] + a[at + 1..]);
      ApplyConcat(before, [a[at]], a[at + 1..]);
      Single(before, a[at]);
      Untouched(Apply(before, [a[at]]), a[at + 1..], k);
    } else {
      Untouched(store, a, k);
    }
  }

  lemma PubrelInReceived(s: Session, i: int, dup: bool, writable: bool, n: nat, id: int)
    requires InboundMatches(s) && n <= |HandlePubrel(s, i, dup, writable).actions|
    ensures ReceivedKey(s, id) in Apply(s.store, HandlePubrel(s, i, dup, writable).actions[..n])
            <==> ReceivedKey(s, id) in s.store && !(Completes(s, i, writable) && i == id && n > ErasedAt(s.v5))
  {
    hide Apply;
    if Completes(s, i, writable) {
      CompletingReceived(s.v5, s.store, s.inbound[IndexOf(s.inbound, i)].msg, n, id);
    } else {
      Untouched(s.store, HandlePubrel(s, i, dup, writable).actions[..n], ReceivedKey(s, id));
    }
  }

  lemma {:induction false} SweepSpares(v5: bool, store: Store, keys: seq<Key>, k: Key)
    requires k.stem == Received && forall x :: x in keys ==> x in store
    ensures Spares(RestoreKeys(v5, store, keys).actions, k)
  {
    hide Apply, Insert;
    if keys != [] {
      var o, key := RestoreKeys(v5, store, keys[..|keys| - 1]), keys[|keys| - 1];
      SweepSpares(v5, store, keys[..|keys| - 1], k);
      var a := RestoreKeys(v5, store, keys).actions;
      assert a == o.actions || (key.stem == Rel && a == o.actions + [Remove(key)]);
    }
  }

  lemma {:induction false} ResendSpares(v5: bool, list: seq<Flight>, k: Key)
    requires k.stem == Received
    ensures Spares(ResendAll(v5, list), k)
  {
    if list != [] {
      ResendSpares(v5, list[..|list| - 1], k);
    }
  }

  lemma OtherReceived(s: Session, e: Event, n: nat, id: int)
    requires Enabled(s, e) && !e.PublishIn? && !e.PubrelIn? && !e.Clean? && n <= |Handle(s, e).actions|
    ensures var k, after := ReceivedKey(s, id), Apply(s.store, Handle(s, e).actions[..n]);
            (k in after <==> k in s.store) && (k in s.store ==> after[k] == s.store[k])
  {
    hide IndexOf, ResendAll, RestoreKeys, Selected, Apply;
    match e {
      case Retry(due) => ResendSpares(s.v5, Selected(s.outbound, due), ReceivedKey(s, id));
      case Restart(keys) => SweepSpares(s.v5, s.store, keys, ReceivedKey(s, id));
      case _ =>
    }
    Untouched(s.store, Handle(s, e).actions[..n], ReceivedKey(s, id));
  }

  lemma CleanReceived(s: Session, keys: seq<Key>, n: nat, id: int)
    requires Lists(keys, s.store) && n <= |keys|
    ensures ReceivedKey(s, id) in Apply(s.store, DiscardAll(keys)[..n])
            <==> ReceivedKey(s, id) in s.store && ReceivedKey(s, id) !in keys[..n]
  {
    assert DiscardAll(keys)[..n] == DiscardAll(keys[..n]);
    DiscardEffect(s.store, keys[..n]);
  }

  /** After a restart an id is known exactly when the store has a received record for it. */
  lemma KnownAfterRestart(mid: Session, keys: seq<Key>, id: int)
    requires StoreOk(mid.v5, mid.store) && Lists(keys, mid.store)
    ensures Known(Step(mid, Restart(keys)), id) == if ReceivedKey(mid, id) in mid.store then 1 else 0
  {
    hide StoreOk, Apply, AllPermitted, Swept, SentFlights, ReceivedFlights, InsertAll, RestoreKeys, Wrap;
    RestoreScan(mid.v5, mid.store, keys);
    ReceivedFlightsContents(mid.v5, mid.store, keys);
    var t := Step(mid, Restart(keys));
    var i := IndexOf(t.inbound, id);
    if i >= 0 {
      assert t.inbound[i] in t.inbound;
    }
    if ReceivedKey(mid, id) in mid.store {
      assert ReceivedKey(mid, id) in keys;
    }
  }

  // ---------- what a crash does to an exchange ----------

  /** Before version 5: the crash comes after the delivery and before the record is erased. */
  ghost predicate CutAfterDelivery(s: Session, mv: Move, id: int) {
    mv.Torn? && mv.e.PubrelIn? && mv.e.id == id && Completes(s, id, mv.e.writable) && 1 < mv.n <= ErasedAt(s.v5)
  }

  /** The store that the restart of a move reads. */
  ghost function RestartStore(s: Session, mv: Move): Store
    requires CanMove(s, mv)
  {
    if mv.Torn? then Apply(s.store, Handle(s, mv.e).actions[..mv.n]) else s.store
  }

  /** The crash comes after the whole of a PUBLISH, its delivery included. */
  ghost predicate CutAfterOpening(s: Session, mv: Move, id: int) {
    mv.Torn? && mv.e.PublishIn? && Opens(s, mv.e.m, mv.e.writable) && mv.e.m.id == id && mv.n > 3
  }

  /** A restart finds a received record whose exchange was not open, and not opened by the step that was cut:
      its message was never delivered, and from now on the id passes for a known one. */
  ghost predicate FindsUndelivered(s: Session, mv: Move, id: int)
    requires CanMove(s, mv)
  {
    && (mv.Torn? || mv.e.Restart?)
    && ReceivedKey(s, id) in RestartStore(s, mv) && Known(s, id) == 0 && !CutAfterOpening(s, mv, id)
  }

  /** The session is cleaned, as far as the crash lets it, while the exchange is open. */
  ghost predicate GivesUp(s: Session, mv: Move, id: int)
    requires CanMove(s, mv)
  {
    && mv.e.Clean? && Known(s, id) == 1
    && (mv.Whole? || (mv.n <= |mv.e.keys| && ReceivedKey(s, id) in mv.e.keys[..mv.n]))
  }

  lemma KnownIsStored(s: Session, id: int)
    requires InboundMatches(s) && Known(s, id) == 1
    ensures ReceivedKey(s, id) in s.store
  {
  }

  /** Deliveries and completions in the part of a step before a crash. */
  lemma CutCounts(s: Session, e: Event, n: nat, id: int)
    requires Inv(s) && Enabled(s, e) && n <= |Handle(s, e).actions|
    ensures var a := Handle(s, e).actions[..n];
            && Count(a, Delivery, id)
               == One(|| (s.v5 && e.PublishIn? && Opens(s, e.m, e.writable) && e.m.id == id && n > 3)
                      || (!s.v5 && e.PubrelIn? && Completes(s, e.id, e.writable) && e.id == id && n > 1))
            && Count(a, Completion(s.v5), id)
               == One(e.PubrelIn? && Completes(s, e.id, e.writable) && e.id == id && n > ErasedAt(s.v5))
  {
    hide Count, OutboundMatches, NoOrphans, StoreOk, IndexOf;
    if e.PublishIn? {
      PublishInCount(s, e.m, e.dup, e.writable, n, Delivery, id);
      PublishInCount(s, e.m, e.dup, e.writable, n, Completion(s.v5), id);
    } else if e.PubrelIn? {
      PubrelInCount(s, e.id, e.dup, e.writable, n, Delivery, id);
      PubrelInCount(s, e.id, e.dup, e.writable, n, Completion(s.v5), id);
    } else {
      OtherCount(s, e, n, Delivery, id);
      OtherCount(s, e, n, Completion(s.v5), id);
    }
  }

  /** And whether the record is there after it. */
  lemma CutReceived(s: Session, e: Event, n: nat, id: int)
    requires Inv(s) && Enabled(s, e) && n <= |Handle(s, e).actions|
    ensures ReceivedKey(s, id) in Apply(s.store, Handle(s, e).actions[..n])
            <==> if e.PublishIn? then ReceivedKey(s, id) in s.store || (e.m.qos == 2 && e.m.id == id && n > 0)
                 else if e.PubrelIn? then ReceivedKey(s, id) in s.store
                                          && !(Completes(s, e.id, e.writable) && e.id == id && n > ErasedAt(s.v5))
                 else if e.Clean? then n <= |e.keys| && ReceivedKey(s, id) in s.store
                     && ReceivedKey(s, id) !in e.keys[..n]
                 else ReceivedKey(s, id) in s.store
  {
    hide Apply, OutboundMatches, NoOrphans, StoreOk, IndexOf;
    if e.PublishIn? {
      PublishInReceived(s, e.m, e.dup, e.writable, n, id);
    } else if e.PubrelIn? {
      PubrelInReceived(s, e.id, e.dup, e.writable, n, id);
    } else if e.Clean? {
      CleanReceived(s, e.keys, n, id);
    } else {
      OtherReceived(s, e, n, id);
    }
  }

  // ---------- one move ----------

  /** Neither deliveries nor completions in the restart that follows a crash. */
  lemma TornCounts(s: Session, mv: Move, w: What, id: int)
    requires CanMove(s, mv) && mv.Torn?
    ensures Count(MoveActions(s, mv), w, id) == Count(Handle(s, mv.e).actions[..mv.n], w, id)
  {
    hide Count, Handle, Apply, RestoreKeys;
    var a := Handle(s, mv.e).actions[..mv.n];
    var more := RestorePackets(s.v5, Apply(s.store, a), mv.keys).actions;
    SweepCount(s.v5, Apply(s.store, a), mv.keys, w, id);
    CountConcat(a, more, w, id);
  }

  lemma RestartCounts(s: Session, keys: seq<Key>, w: What, id: int)
    requires Lists(keys, s.store)
    ensures Count(Handle(s, Restart(keys)).actions, w, id) == 0
  {
    SweepCount(s.v5, s.store, keys, w, id);
  }

  /** Before version 5. */
  lemma MoveDeliveries(s: Session, mv: Move, id: int)
    requires Inv(s) && CanMove(s, mv) && !s.v5
    ensures Count(MoveActions(s, mv), Delivery, id)
         == Count(MoveActions(s, mv), Completion(false), id) + One(CutAfterDelivery(s, mv, id))
  {
    hide Count, Inv, Handle, Apply;
    if mv.Torn? {
      TornCounts(s, mv, Delivery, id);
      TornCounts(s, mv, Completion(false), id);
      CutCounts(s, mv.e, mv.n, id);
    } else if mv.e.Restart? {
      RestartCounts(s, mv.e.keys, Delivery, id);
      RestartCounts(s, mv.e.keys, Completion(false), id);
    } else {
      StepBalanced(s, mv.e, id);
    }
  }

  /** Version 5. */
  lemma MoveAccount(s: Session, mv: Move, id: int)
    requires Inv(s) && CanMove(s, mv) && s.v5
    ensures Count(MoveActions(s, mv), Delivery, id) - Count(MoveActions(s, mv), Completion(true), id)
         == Known(MoveSession(s, mv), id) - Known(s, id)
            + One(GivesUp(s, mv, id)) - One(FindsUndelivered(s, mv, id))
  {
    hide Count, Inv, Apply, IndexOf;
    if mv.Torn? {
      TornAccount(s, mv, id);
    } else if mv.e.Restart? {
      RestartCounts(s, mv.e.keys, Delivery, id);
      RestartCounts(s, mv.e.keys, Completion(true), id);
      WholeRestartKnown(s, mv.e.keys, id);
    } else {
      StepBalanced(s, mv.e, id);
    }
  }

  lemma WholeRestartKnown(s: Session, keys: seq<Key>, id: int)
    requires Inv(s) && Lists(keys, s.store)
    ensures Known(Step(s, Restart(keys)), id) == One(ReceivedKey(s, id) in s.store)
    ensures Known(s, id) == 1 ==> ReceivedKey(s, id) in s.store
  {
    KnownAfterRestart(s, keys, id);
  }

  lemma TornKnown(s: Session, mv: Move, id: int)
    requires Inv(s) && CanMove(s, mv) && mv.Torn?
    ensures Known(MoveSession(s, mv), id) == One(ReceivedKey(s, id) in RestartStore(s, mv))
    ensures Known(s, id) == 1 ==> ReceivedKey(s, id) in s.store
  {
    hide Handle, Apply, IndexOf, OutboundMatches, NoOrphans, AllPermitted;
    StepKeeps(s, mv.e);
    var a := Handle(s, mv.e).actions;
    assert a == a[..mv.n] + a[mv.n..];
    PermittedConcat(s.v5, s.store, a[..mv.n], a[mv.n..]);
    PermittedRun(s.v5, s.store, a[..mv.n]);
    KnownAfterRestart(Crashed(s, RestartStore(s, mv)), mv.keys, id);
    assert Known(s, id) == 1 ==> ReceivedKey(s, id) in s.store by {
      if Known(s, id) == 1 { KnownIsStored(s, id); }
    }
  }

  lemma TornAccount(s: Session, mv: Move, id: int)
    requires Inv(s) && CanMove(s, mv) && s.v5 && mv.Torn?
    ensures Count(MoveActions(s, mv), Delivery, id) - Count(MoveActions(s, mv), Completion(true), id)
         == Known(MoveSession(s, mv), id) - Known(s, id)
            + One(GivesUp(s, mv, id)) - One(FindsUndelivered(s, mv, id))
  {
    hide Count, Inv, Apply, IndexOf, MoveSession, MoveActions;
    TornCounts(s, mv, Delivery, id);
    TornCounts(s, mv, Completion(true), id);
    CutCounts(s, mv.e, mv.n, id);
    CutReceived(s, mv.e, mv.n, id);
    TornKnown(s, mv, id);
  }

  // ---------- whole runs ----------

  ghost function RepeatedIn(s: Session, moves: seq<Move>, id: int): nat
    requires CanRun(s, moves)
    decreases |moves|
  {
    if moves == [] then 0
    else One(CutAfterDelivery(s, moves[0], id)) + RepeatedIn(MoveSession(s, moves[0]), moves[1..], id)
  }

  ghost function LostIn(s: Session, moves: seq<Move>, id: int): nat
    requires CanRun(s, moves)
    decreases |moves|
  {
    if moves == [] then 0
    else One(FindsUndelivered(s, moves[0], id)) + LostIn(MoveSession(s, moves[0]), moves[1..], id)
  }

  ghost function AbandonedIn(s: Session, moves: seq<Move>, id: int): nat
    requires CanRun(s, moves)
    decreases |moves|
  {
    if moves == [] then 0
    else One(GivesUp(s, moves[0], id)) + AbandonedIn(MoveSession(s, moves[0]), moves[1..], id)
  }

  lemma VersionStays(s: Session, mv: Move)
    requires CanMove(s, mv)
    ensures MoveSession(s, mv).v5 == s.v5
  {
    hide Handle, Apply, RestorePackets, Lists;
  }

  lemma {:induction false} DeliveredRun(w: World, moves: seq<Move>, id: int)
    requires Inv(w.s) && !w.s.v5 && CanRun(w.s, moves)
    ensures Count(Run(w, moves).trace, Delivery, id) - Count(Run(w, moves).trace, Completion(false), id)
         == Count(w.trace, Delivery, id) - Count(w.trace, Completion(false), id) + RepeatedIn(w.s, moves, id)
    decreases |moves|
  {
    hide Count, Inv, CutAfterDelivery, MoveActions, MoveSession;
    if moves != [] {
      MoveKeeps(w.s, moves[0]);
      VersionStays(w.s, moves[0]);
      MoveDeliveries(w.s, moves[0], id);
      CountConcat(w.trace, MoveActions(w.s, moves[0]), Delivery, id);
      CountConcat(w.trace, MoveActions(w.s, moves[0]), Completion(false), id);
      DeliveredRun(After(w, moves[0]), moves[1..], id);
    }
  }

  /** The quantity that version 5 keeps up to losses and abandoned exchanges. */
  ghost function Excess(w: World, id: int): int {
    Count(w.trace, Delivery, id) - Count(w.trace, Completion(true), id) - Known(w.s, id)
  }

  lemma {:induction false} AccountRun(w: World, moves: seq<Move>, id: int)
    requires Inv(w.s) && w.s.v5 && CanRun(w.s, moves)
    ensures Excess(Run(w, moves), id)
         == Excess(w, id) + AbandonedIn(w.s, moves, id) - LostIn(w.s, moves, id)
    decreases |moves|
  {
    hide Count, Inv, FindsUndelivered, GivesUp, MoveActions, MoveSession, Known;
    if moves != [] {
      MoveKeeps(w.s, moves[0]);
      VersionStays(w.s, moves[0]);
      MoveAccount(w.s, moves[0], id);
      CountConcat(w.trace, MoveActions(w.s, moves[0]), Delivery, id);
      CountConcat(w.trace, MoveActions(w.s, moves[0]), Completion(true), id);
      AccountRun(After(w, moves[0]), moves[1..], id);
    }
  }

  /** No move of the run is such a cut. */
  ghost predicate NeverCutAfterDelivery(s: Session, moves: seq<Move>, id: int)
    requires CanRun(s, moves)
    decreases |moves|
  {
    || moves == []
    || (!CutAfterDelivery(s, moves[0], id) && NeverCutAfterDelivery(MoveSession(s, moves[0]), moves[1..], id))
  }

  /** No restart of the run finds such a record. */
  ghost predicate NeverFindsUndelivered(s: Session, moves: seq<Move>, id: int)
    requires CanRun(s, moves)
    decreases |moves|
  {
    || moves == []
    || (!FindsUndelivered(s, moves[0], id) && NeverFindsUndelivered(MoveSession(s, moves[0]), moves[1..], id))
  }

  lemma {:induction false} NoneCounted(s: Session, moves: seq<Move>, id: int)
    requires CanRun(s, moves)
    ensures RepeatedIn(s, moves, id) == 0 <==> NeverCutAfterDelivery(s, moves, id)
    ensures LostIn(s, moves, id) == 0 <==> NeverFindsUndelivered(s, moves, id)
    decreases |moves|
  {
    hide CutAfterDelivery, FindsUndelivered, MoveSession, CanMove;
    if moves != [] {
      NoneCounted(MoveSession(s, moves[0]), moves[1..], id);
    }
  }

  /**
    QoS 2 receipt before version 5, over every run with crashes and restarts: deliveries equal
    completed exchanges plus the crashes that came between a delivery and the erasure of its
    record.  So every completed exchange was delivered exactly once if and only if there was none.
  */
  lemma DeliveriesBefore5(moves: seq<Move>, id: int)
    requires CanRun(Fresh(false).s, moves)
    ensures var trace, s0 := Run(Fresh(false), moves).trace, Fresh(false).s;
            && Count(trace, Delivery, id) == Count(trace, Completion(false), id) + RepeatedIn(s0, moves, id)
            && (Count(trace, Delivery, id) == Count(trace, Completion(false), id)
                <==> NeverCutAfterDelivery(s0, moves, id))
  {
    FreshInv(false);
    DeliveredRun(Fresh(false), moves, id);
    NoneCounted(Fresh(false).s, moves, id);
  }

  /**
    QoS 2 receipt in version 5, over every run with crashes and restarts: deliveries equal completed
    exchanges, plus the one that is open, plus those open when the session was cleaned, minus the
    restarts that found the record of an undelivered message.  So no message was lost if and only
    if no restart found one.
  */
  lemma DeliveriesInVersion5(moves: seq<Move>, id: int)
    requires CanRun(Fresh(true).s, moves)
    ensures var w, s0 := Run(Fresh(true), moves), Fresh(true).s;
            var due := Count(w.trace, Completion(true), id) + Known(w.s, id) + AbandonedIn(s0, moves, id);
            && Count(w.trace, Delivery, id) == due - LostIn(s0, moves, id)
            && (Count(w.trace, Delivery, id) == due <==> NeverFindsUndelivered(s0, moves, id))
  {
    FreshInv(true);
    AccountRun(Fresh(true), moves, id);
    NoneCounted(Fresh(true).s, moves, id);
  }

  // ---------- the failing runs ----------

  /** A session in which the only thing stored or known is one inbound exchange. */
  function Lone(v5: bool, f: Flight, record: Record): Session {
    Session(v5, [], [f], map[Key(Received, v5, f.msg.id) := record])
  }

  ghost predicate Qos2(m: Message) {
    m.qos == 2 && 0 <= m.id <= MAX_MSG_ID
  }

  /** A crash that leaves just the record of m, and the restart. */
  lemma LoneRestart(v5: bool, m: Message, dup: bool)
    ensures var k := Key(Received, v5, m.id);
            var store: Store := map[k := PublishRecord(m, dup)];
            && Lists([k], store)
            && RestorePackets(v5, store, [k]) == Outcome([], [], [ReceivedFlight(v5, m)])
  {
    var k := Key(Received, v5, m.id);
    var store: Store := map[k := PublishRecord(m, dup)];
    assert [k][..0] == [];
    assert RestoreKeys(v5, store, []) == Outcome([], [], []);
    assert Apply(store, []) == store;
    assert RestoreKeys(v5, store, [k]) == Outcome([], [], [] + [ReceivedFlight(v5, m)]);
  }

  /** The PUBLISH comes again, and is taken for a duplicate. */
  lemma LoneDuplicate(w: World, f: Flight, r: Record, m: Message)
    requires w.s.v5 && w.s == Lone(true, f, r) && f.msg.id == m.id && Qos2(m)
    ensures var mv := Whole(PublishIn(m, true, true));
            && CanMove(w.s, mv)
            && After(w, mv).s == Lone(true, Incoming(true, m, true), PublishRecord(m, true))
            && After(w, mv).trace == w.trace
                 + [Put(Key(Received, true, m.id), PublishRecord(m, true)), SendAck(Pubrec, m.id)]
  {
    Pair(w.s.store, Put(Key(Received, true, m.id), PublishRecord(m, true)), SendAck(Pubrec, m.id));
  }

  /** The PUBREL completes the exchange. */
  lemma LonePubrel(w: World, f: Flight, r: Record)
    requires w.s == Lone(w.s.v5, f, r) && f.next == AwaitPubrel && f.msg.qos == 2
    ensures var mv := Whole(PubrelIn(f.msg.id, false, true));
            && CanMove(w.s, mv)
            && After(w, mv).s == Session(w.s.v5, [], [], map[])
            && After(w, mv).trace == w.trace + Completing(w.s.v5, f.msg)
  {
    var first := [SendAck(Pubcomp, f.msg.id)] + if w.s.v5 then [] else [Deliver(f.msg)];
    CompleteActions(w.s.v5, w.s.store, f.msg.id, first);
  }

  lemma DuplicateThenPubrel(w: World, f: Flight, r: Record, m: Message)
    requires w.s.v5 && w.s == Lone(true, f, r) && f.msg.id == m.id && Qos2(m)
    ensures var again, end := Whole(PublishIn(m, true, true)), Whole(PubrelIn(m.id, false, true));
            && CanMove(w.s, again) && CanMove(After(w, again).s, end)
            && var trace := After(After(w, again), end).trace;
               && Count(trace, Delivery, m.id) == Count(w.trace, Delivery, m.id)
               && Count(trace, Completion(true), m.id) == Count(w.trace, Completion(true), m.id) + 1
  {
    hide Count, CanMove, After;
    LoneDuplicate(w, f, r, m);
    var w1 := After(w, Whole(PublishIn(m, true, true)));
    LonePubrel(w1, Incoming(true, m, true), PublishRecord(m, true));
    var a := [Put(Key(Received, true, m.id), PublishRecord(m, true)), SendAck(Pubrec, m.id)];
    var b := Completing(true, Incoming(true, m, true).msg);
    CountNone(a, Delivery, m.id);
    CountNone(a, Completion(true), m.id);
    assert b[..|b|] == b;
    CompletingCount(true, Incoming(true, m, true).msg, |b|, Delivery, m.id);
    CompletingCount(true, Incoming(true, m, true).msg, |b|, Completion(true), m.id);
    CountConcat(w.trace, a, Delivery, m.id);
    CountConcat(w.trace, a, Completion(true), m.id);
    CountConcat(w1.trace, b, Delivery, m.id);
    CountConcat(w1.trace, b, Completion(true), m.id);
  }

  /** Version 5: a crash right after the record of a PUBLISH was written.  The server sends the PUBLISH
      again, and completes the exchange; the message is never delivered. */
  lemma CrashLosesInVersion5(m: Message)
    requires Qos2(m)
    ensures var k := Key(Received, true, m.id);
            var moves := [Torn(PublishIn(m, false, true), 1, [k]), Whole(PublishIn(m, true, true)),
                          Whole(PubrelIn(m.id, false, true))];
            && CanRun(Fresh(true).s, moves)
            && Count(Run(Fresh(true), moves).trace, Delivery, m.id) == 0
            && Count(Run(Fresh(true), moves).trace, Completion(true), m.id) == 1
  {
    hide Count;
    var w := Fresh(true);
    var k, put := Key(Received, true, m.id), Put(Key(Received, true, m.id), PublishRecord(m, false));
    var cut := Torn(PublishIn(m, false, true), 1, [k]);
    assert HandlePublish(w.s, m, false, true).actions[..1] == [put];
    Single(w.s.store, put);
    assert w.s.store[k := PublishRecord(m, false)] == map[k := PublishRecord(m, false)];
    LoneRestart(true, m, false);
    assert CanMove(w.s, cut);
    assert [put] + [] == [put] && w.trace + [put] == [put];
    assert Apply(map[k := PublishRecord(m, false)], []) == map[k := PublishRecord(m, false)];
    LoseAfter(w, cut, put, m);
  }

  lemma LoseAfter(w: World, mv: Move, put: Action, m: Message)
    requires Qos2(m) && CanMove(w.s, mv)
    requires put == Put(Key(Received, true, m.id), PublishRecord(m, false))
    requires After(w, mv) == World(Lone(true, ReceivedFlight(true, m), PublishRecord(m, false)), [put])
    ensures var moves := [mv, Whole(PublishIn(m, true, true)), Whole(PubrelIn(m.id, false, true))];
            && CanRun(w.s, moves)
            && Count(Run(w, moves).trace, Delivery, m.id) == 0
            && Count(Run(w, moves).trace, Completion(true), m.id) == 1
  {
    hide Count, CanMove, After;
    DuplicateThenPubrel(After(w, mv), ReceivedFlight(true, m), PublishRecord(m, false), m);
    RunThree(w, mv, Whole(PublishIn(m, true, true)), Whole(PubrelIn(m.id, false, true)));
    CountNone([put], Delivery, m.id);
    CountNone([put], Completion(true), m.id);
  }

  /** The same without a crash in the middle of a step: the PUBLISH was refused because of pending writes. */
  lemma RefusedThenRestartedLosesInVersion5(m: Message)
    requires Qos2(m)
    ensures var k := Key(Received, true, m.id);
            var moves := [Whole(PublishIn(m, false, false)), Whole(Restart([k])), Whole(PublishIn(m, true, true)),
                          Whole(PubrelIn(m.id, false, true))];
            && CanRun(Fresh(true).s, moves)
            && Count(Run(Fresh(true), moves).trace, Delivery, m.id) == 0
            && Count(Run(Fresh(true), moves).trace, Completion(true), m.id) == 1
  {
    hide Count;
    var w := Fresh(true);
    var k, put := Key(Received, true, m.id), Put(Key(Received, true, m.id), PublishRecord(m, false));
    var first, restart := Whole(PublishIn(m, false, false)), Whole(Restart([k]));
    var store: Store := map[k := PublishRecord(m, false)];
    Single(w.s.store, put);
    assert w.s.store[k := PublishRecord(m, false)] == store;
    var w1 := After(w, first);
    assert w1 == World(Session(true, [], [], store), [put]);
    LoneRestart(true, m, false);
    assert Apply(store, []) == store && [put] + [] == [put];
    assert After(w1, restart) == World(Lone(true, ReceivedFlight(true, m), PublishRecord(m, false)), [put]);
    LoseAfter(w1, restart, put, m);
    var rest := [restart, Whole(PublishIn(m, true, true)), Whole(PubrelIn(m.id, false, true))];
    assert ([first] + rest)[1..] == rest;
    assert [first] + rest == [first, restart, Whole(PublishIn(m, true, true)), Whole(PubrelIn(m.id, false, true))];
  }

  /** Before version 5: a crash right after the delivery.  The server sends the PUBREL again, and the
      message is delivered again. */
  lemma CrashRepeatsBefore5(m: Message)
    requires Qos2(m)
    ensures var k := Key(Received, false, m.id);
            var moves := [Whole(PublishIn(m, false, true)), Torn(PubrelIn(m.id, false, true), 2, [k]),
                          Whole(PubrelIn(m.id, false, true))];
            && CanRun(Fresh(false).s, moves)
            && Count(Run(Fresh(false), moves).trace, Delivery, m.id) == 2
            && Count(Run(Fresh(false), moves).trace, Completion(false), m.id) == 1
  {
    hide Count;
    var w := Fresh(false);
    var k := Key(Received, false, m.id);
    var a, c := Whole(PublishIn(m, false, true)), Whole(PubrelIn(m.id, false, true));
    var b := Torn(PubrelIn(m.id, false, true), 2, [k]);
    FirstPublish(m);
    var w1 := After(w, a);
    CutPubrel(w1, m);
    var w2 := After(w1, b);
    LonePubrel(w2, ReceivedFlight(false, m), PublishRecord(m, false));
    RunThree(w, a, b, c);
    CountTwice(m);
  }

  /** What happens before the cut. */
  function Opened(m: Message): seq<Action> {
    [Put(Key(Received, false, m.id), PublishRecord(m, false)), Open(m.id), SendAck(Pubrec, m.id)]
  }

  lemma FirstPublish(m: Message)
    requires Qos2(m)
    ensures CanMove(Fresh(false).s, Whole(PublishIn(m, false, true)))
    ensures After(Fresh(false), Whole(PublishIn(m, false, true)))
         == World(Lone(false, Incoming(false, m, false), PublishRecord(m, false)), Opened(m))
  {
    var w := Fresh(false);
    PublishInActions(w.s, m, false, true);
    assert w.s.store[Key(Received, false, m.id) := PublishRecord(m, false)]
        == map[Key(Received, false, m.id) := PublishRecord(m, false)];
    assert HandlePublish(w.s, m, false, true).actions == Opened(m);
    assert w.trace + Opened(m) == Opened(m);
  }

  lemma CutPubrel(w: World, m: Message)
    requires Qos2(m) && w.s == Lone(false, Incoming(false, m, false), PublishRecord(m, false))
    ensures var mv := Torn(PubrelIn(m.id, false, true), 2, [Key(Received, false, m.id)]);
            && CanMove(w.s, mv)
            && After(w, mv) == World(Lone(false, ReceivedFlight(false, m), PublishRecord(m, false)),
                                     w.trace + [SendAck(Pubcomp, m.id), Deliver(m)])
  {
    hide RestorePackets, Apply;
    var two := [SendAck(Pubcomp, m.id), Deliver(m)];
    CutActions(w.s, m);
    Pair(w.s.store, two[0], two[1]);
    LoneRestart(false, m, false);
    NothingApplied(w.s.store);
    assert two + [] == two;
  }

  lemma CutActions(s: Session, m: Message)
    requires Qos2(m) && s == Lone(false, Incoming(false, m, false), PublishRecord(m, false))
    ensures |HandlePubrel(s, m.id, false, true).actions| == 4
    ensures HandlePubrel(s, m.id, false, true).actions[..2] == [SendAck(Pubcomp, m.id), Deliver(m)]
  {
  }

  lemma NothingApplied(store: Store)
    ensures Apply(store, []) == store
  {
  }

  lemma CountTwice(m: Message)
    requires Qos2(m)
    ensures var trace := Opened(m) + [SendAck(Pubcomp, m.id), Deliver(m)] + Completing(false, m);
            Count(trace, Delivery, m.id) == 2 && Count(trace, Completion(false), m.id) == 1
  {
    var two, end := [SendAck(Pubcomp, m.id), Deliver(m)], Completing(false, m);
    CountNone(Opened(m), Delivery, m.id);
    CountNone(Opened(m), Completion(false), m.id);
    CountOnce(two, 1, Delivery, m.id);
    CountNone(two, Completion(false), m.id);
    assert end[..|end|] == end;
    CompletingCount(false, m, |end|, Delivery, m.id);
    CompletingCount(false, m, |end|, Completion(false), m.id);
    CountConcat(Opened(m), two, Delivery, m.id);
    CountConcat(Opened(m), two, Completion(false), m.id);
    CountConcat(Opened(m) + two, end, Delivery, m.id);
    CountConcat(Opened(m) + two, end, Completion(false), m.id);
  }
}
