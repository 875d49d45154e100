/**
  Whole runs of the client, crashes included: a move is a completed step, or a step cut short
  after n of its micro-actions by a crash, followed by a restart from what the store then holds.
*/
module SessionRuns {
  import opened MessageIds
  import opened SortedInsert
  import opened RestoreOrder
  import opened Session
  import opened SessionInvariant
  import opened SessionSteps
  import opened SessionRestart

  datatype World = World(s: Session, trace: seq<Action>)

  datatype Move = Whole(e: Event) | Torn(e: Event, n: nat, keys: seq<Key>)

  /** The moment after a crash: the store survives, the lists do not. */
  function Crashed(s: Session, store: Store): Session {
    Session(s.v5, [], [], store)
  }

  ghost predicate CanMove(s: Session, mv: Move) {
    && Enabled(s, mv.e)
    && (mv.Torn? ==>
          && mv.n <= |Handle(s, mv.e).actions|
          && Lists(mv.keys, Apply(s.store, Handle(s, mv.e).actions[..mv.n])))
  }

  ghost function MoveActions(s: Session, mv: Move): seq<Action>
    requires CanMove(s, mv)
  {
    var a := Handle(s, mv.e).actions;
    match mv
    case Whole(_) => a
    case Torn(_, n, keys) => a[..n] + RestorePackets(s.v5, Apply(s.store, a[..n]), keys).actions
  }

  ghost function MoveSession(s: Session, mv: Move): Session
    requires CanMove(s, mv)
  {
    match mv
    case Whole(e) => Step(s, e)
    case Torn(e, n, keys) => Step(Crashed(s, Apply(s.store, Handle(s, e).actions[..n])), Restart(keys))
  }

  ghost function After(w: World, mv: Move): World
    requires CanMove(w.s, mv)
  {
    World(MoveSession(w.s, mv), w.trace + MoveActions(w.s, mv))
  }

  ghost predicate CanRun(s: Session, moves: seq<Move>)
    decreases |moves|
  {
    moves == [] || (CanMove(s, moves[0]) && CanRun(MoveSession(s, moves[0]), moves[1..]))
  }

  ghost function Run(w: World, moves: seq<Move>): World
    requires CanRun(w.s, moves)
    decreases |moves|
  {
    if moves == [] then w
    else Run(After(w, moves[0]), moves[1..])
  }

  function Fresh(v5: bool): World {
    World(Session(v5, [], [], map[]), [])
  }

  lemma SameVersion(s: Session, mv: Move)
    requires CanMove(s, mv)
    ensures MoveSession(s, mv).v5 == s.v5
  {
  }

  lemma RunTwo(w: World, a: Move, b: Move)
    requires CanMove(w.s, a) && CanMove(After(w, a).s, b)
    ensures CanRun(w.s, [a, b]) && Run(w, [a, b]) == After(After(w, a), b)
  {
    hide CanMove, MoveSession, MoveActions;
    var w1, w2 := After(w, a), After(After(w, a), b);
    assert [a, b][1..] == [b] && [b][1..] == [];
    assert CanRun(w2.s, []) && Run(w2, []) == w2;
    assert CanRun(w1.s, [b]) && Run(w1, [b]) == w2;
  }

  lemma RunThree(w: World, a: Move, b: Move, c: Move)
    requires CanMove(w.s, a) && CanMove(After(w, a).s, b) && CanMove(After(After(w, a), b).s, c)
    ensures CanRun(w.s, [a, b, c]) && Run(w, [a, b, c]) == After(After(After(w, a), b), c)
  {
    hide CanMove, MoveSession, MoveActions;
    assert [a, b, c][1..] == [b, c];
    RunTwo(After(w, a), b, c);
  }

  lemma RunFour(w: World, a: Move, b: Move, c: Move, d: Move)
    requires CanMove(w.s, a) && CanMove(After(w, a).s, b) && CanMove(After(After(w, a), b).s, c)
    requires CanMove(After(After(After(w, a), b), c).s, d)
    ensures CanRun(w.s, [a, b, c, d]) && Run(w, [a, b, c, d]) == After(After(After(After(w, a), b), c), d)
  {
    hide CanMove, MoveSession, MoveActions;
    assert [a, b, c, d][1..] == [b, c, d];
    RunThree(After(w, a), b, c, d);
  }

  lemma FreshInv(v5: bool)
    ensures Inv(Fresh(v5).s)
  {
  }

  // ---------- one move ----------

  /** Restarting from any store the client can have left behind re-establishes the full invariant. */
  lemma RestartStep(s: Session, keys: seq<Key>)
    requires StoreOk(s.v5, s.store) && Lists(keys, s.store)
    ensures AllPermitted(s.v5, s.store, Handle(s, Restart(keys)).actions)
    ensures Inv(Step(s, Restart(keys)))
  {
    RestoreScan(s.v5, s.store, keys);
    var o := RestoreKeys(s.v5, s.store, keys);
    PermittedRun(s.v5, s.store, o.actions);
    var t := Step(s, Restart(keys));
    RestartOutbound(s, keys, t);
    RestartInbound(s, keys, t);
  }

  lemma SweptMirrors(v5: bool, store: Store, keys: seq<Key>, after: Store, f: Flight)
    requires Swept(v5, store, keys, after) && Mirrors(v5, store, f)
    ensures Mirrors(v5, after, f)
  {
    assert !Orphan(v5, store, Key(Rel, v5, f.msg.id));
  }

  lemma RestartOutbound(s: Session, keys: seq<Key>, t: Session)
    requires StoreOk(s.v5, s.store) && Lists(keys, s.store)
    requires t.v5 == s.v5 && Swept(s.v5, s.store, keys, t.store)
    requires t.outbound == Wrap(IdOf, InsertAll(IdOf, SentFlights(s.v5, s.store, keys)))
    ensures OutboundMatches(t)
  {
    var xs := SentFlights(s.v5, s.store, keys);
    SentFlightsContents(s.v5, s.store, keys);
    InsertAllSorts(IdOf, xs);
    WrapContents(InsertAll(IdOf, xs));
    DistinctPermuted(IdOf, xs, t.outbound);
    forall i | 0 <= i < |t.outbound| ensures Mirrors(t.v5, t.store, t.outbound[i]) {
      assert t.outbound[i] in multiset(xs);
      SweptMirrors(s.v5, s.store, keys, t.store, t.outbound[i]);
    }
    RestartComplete(s, keys, t, xs);
  }

  lemma RestartComplete(s: Session, keys: seq<Key>, t: Session, xs: seq<Flight>)
    requires StoreOk(s.v5, s.store) && Lists(keys, s.store) && Swept(s.v5, s.store, keys, t.store)
    requires forall f :: f in xs <==> Mirrors(s.v5, s.store, f) && Key(Sent, s.v5, f.msg.id) in keys
    requires multiset(t.outbound) == multiset(xs)
    ensures forall k :: k in t.store && k.stem == Sent ==> IndexOf(t.outbound, k.id) >= 0
  {
    forall k | k in t.store && k.stem == Sent ensures IndexOf(t.outbound, k.id) >= 0 {
      assert RecordOk(s.v5, s.store, k);
      var f := Flight(s.store[k].msg, RestoredNext(s.v5, s.store, s.store[k].msg));
      assert Mirrors(s.v5, s.store, f) && f in xs;
      assert f in multiset(t.outbound);
    }
  }

  lemma RestartInbound(s: Session, keys: seq<Key>, t: Session)
    requires StoreOk(s.v5, s.store) && Lists(keys, s.store)
    requires t.v5 == s.v5 && Swept(s.v5, s.store, keys, t.store)
    requires t.inbound == ReceivedFlights(s.v5, s.store, keys)
    ensures InboundMatches(t)
  {
    ReceivedFlightsContents(s.v5, s.store, keys);
    assert forall i :: 0 <= i < |t.inbound| ==> t.inbound[i] in t.inbound;
  }

  lemma StepKeeps(s: Session, e: Event)
    requires Inv(s) && Enabled(s, e)
    ensures AllPermitted(s.v5, s.store, Handle(s, e).actions)
    ensures Inv(Step(s, e))
  {
    match e
    case Publish(m) => PublishStep(s, m);
    case PubackIn(_) => AckStep(s, e);
    case PubrecIn(_, _) => AckStep(s, e);
    case PubcompIn(_) => AckStep(s, e);
    case Retry(due) => RetryStep(s, due);
    case Clean(keys) => CleanStep(s, keys);
    case PublishIn(m, dup, writable) => PublishInStep(s, m, dup, writable);
    case PubrelIn(id, dup, writable) => PubrelInStep(s, id, dup, writable);
    case Restart(keys) => RestartStep(s, keys);
  }

  lemma MoveKeeps(s: Session, mv: Move)
    requires Inv(s) && CanMove(s, mv)
    ensures AllPermitted(s.v5, s.store, MoveActions(s, mv))
    ensures Inv(MoveSession(s, mv))
    ensures Apply(s.store, MoveActions(s, mv)) == MoveSession(s, mv).store
  {
    StepKeeps(s, mv.e);
    if mv.Torn? {
      var a := Handle(s, mv.e).actions;
      assert a == a[..mv.n] + a[mv.n..];
      PermittedConcat(s.v5, s.store, a[..mv.n], a[mv.n..]);
      var mid := Crashed(s, Apply(s.store, a[..mv.n]));
      PermittedRun(s.v5, s.store, a[..mv.n]);
      RestartStep(mid, mv.keys);
      PermittedConcat(s.v5, s.store, a[..mv.n], Handle(mid, Restart(mv.keys)).actions);
      ApplyConcat(s.store, a[..mv.n], Handle(mid, Restart(mv.keys)).actions);
    }
  }

  // ---------- crash recovery ----------

  lemma {:induction false} RunKeeps(w: World, moves: seq<Move>)
    requires Inv(w.s) && CanRun(w.s, moves)
    ensures Inv(Run(w, moves).s) && Run(w, moves).s.v5 == w.s.v5
    decreases |moves|
  {
    if moves != [] {
      MoveKeeps(w.s, moves[0]);
      RunKeeps(After(w, moves[0]), moves[1..]);
    }
  }

  /**
    Crash recovery refines memory: after any run, crashes included, restarting from the store - its
    keys listed in any order - gives back exactly the outbound messages held in memory, each with
    the same id, QoS, contents and next expected packet.  Their order is RestoreOrder's, and every
    inbound exchange is still known.
  */
  lemma RecoveryRefinesMemory(v5: bool, moves: seq<Move>, keys: seq<Key>)
    requires CanRun(Fresh(v5).s, moves)
    requires Lists(keys, Run(Fresh(v5), moves).s.store)
    ensures var s := Run(Fresh(v5), moves).s;
            var t := Step(s, Restart(keys));
            && t.outbound == Restored(IdOf, s.outbound)
            && multiset(t.outbound) == multiset(s.outbound)
            && (forall i :: 0 <= i < |s.inbound| ==> IndexOf(t.inbound, s.inbound[i].msg.id) >= 0)
  {
    hide StoreOk, OutboundMatches, InboundMatches, NoOrphans, Run, CanRun, RestorePackets, Restored, IndexOf, Lists;
    FreshInv(v5);
    RunKeeps(Fresh(v5), moves);
    var s := Run(Fresh(v5), moves).s;
    RestoredOutbound(s, keys);
    InboundStillKnown(s, keys);
  }

  lemma InboundStillKnown(s: Session, keys: seq<Key>)
    requires StoreOk(s.v5, s.store) && InboundMatches(s) && Lists(keys, s.store)
    ensures forall i :: 0 <= i < |s.inbound| ==>
              IndexOf(RestorePackets(s.v5, s.store, keys).inbound, s.inbound[i].msg.id) >= 0
  {
    RestoreScan(s.v5, s.store, keys);
    ReceivedFlightsContents(s.v5, s.store, keys);
    forall i | 0 <= i < |s.inbound|
      ensures IndexOf(RestorePackets(s.v5, s.store, keys).inbound, s.inbound[i].msg.id) >= 0
    {
      assert Key(Received, s.v5, s.inbound[i].msg.id) in keys;
    }
  }

  lemma FlightIdsValid(s: Session)
    requires Inv(s)
    ensures ValidIds(IdOf, s.outbound)
  {
    forall x | x in s.outbound ensures 1 <= IdOf(x) <= MAX_MSG_ID {
      var i :| 0 <= i < |s.outbound| && s.outbound[i] == x;
      assert Mirrors(s.v5, s.store, s.outbound[i]);
      assert RecordOk(s.v5, s.store, Key(Sent, s.v5, x.msg.id));
    }
  }

  /** The restarted client has the same outbound list, order included, exactly when the ids of the
      messages in flight meet the condition of RestoreOrder. */
  lemma RestartIsExactIff(v5: bool, moves: seq<Move>, keys: seq<Key>)
    requires CanRun(Fresh(v5).s, moves)
    requires Lists(keys, Run(Fresh(v5), moves).s.store)
    requires Run(Fresh(v5), moves).s.outbound != []
    ensures var s := Run(Fresh(v5), moves).s;
            Step(s, Restart(keys)).outbound == s.outbound
            <==> RisesCyclically(IdOf, s.outbound) && OldestHasLargestGap(IdOf, s.outbound)
  {
    RunKeeps(Fresh(v5), moves);
    var s := Run(Fresh(v5), moves).s;
    RecoveryRefinesMemory(v5, moves, keys);
    FlightIdsValid(s);
    RestartKeepsOrderIff(IdOf, s.outbound, s.outbound);
  }
}
