/**
  What every packet that comes in leads to: over every run, how often each acknowledgement was sent and each
  message handed over, in terms of the packets alone.
*/
module SessionAnswers {
  import opened MessageIds
  import opened Sequences
  import opened SortedInsert
  import opened Session
  import opened SessionInvariant
  import opened SessionRuns
  import opened SessionReceipt

  /** The step gets as far as its action k. */
  predicate Reached(mv: Move, k: nat) {
    mv.Torn? ==> mv.n > k
  }

  ghost predicate Knows(s: Session, id: int) {
    exists i :: 0 <= i < |s.inbound| && s.inbound[i].msg.id == id
  }

  /** The message has arrived and waits for its PUBREL. */
  ghost predicate Waiting(s: Session, m: Message) {
    exists i :: 0 <= i < |s.inbound| && s.inbound[i].msg == m
  }

  predicate Arrives(e: Event, qos: int, id: int) {
    e.PublishIn? && e.m.qos == qos && e.m.id == id
  }

  predicate Releases(e: Event, id: int) {
    e.PubrelIn? && e.id == id && e.writable
  }

  /** What each packet calls for.  The writes of acknowledgements must not be blocked; a cut step does what it
      got to. */
  ghost predicate Due(s: Session, mv: Move, w: What, id: int) {
    match w
    case Opening => Arrives(mv.e, 2, id) && mv.e.writable && !Knows(s, id) && Reached(mv, 1)
    case Completion(_) => Releases(mv.e, id) && Knows(s, id) && Reached(mv, ErasedAt(s.v5))
    case Delivery => DueQos2(s, mv, id)
    case Answer(Puback) => Arrives(mv.e, 1, id) && mv.e.writable && Reached(mv, 0)
    case Answer(Pubrec) => Arrives(mv.e, 2, id) && mv.e.writable && Reached(mv, if Knows(s, id) then 1 else 2)
    case Answer(Pubcomp) => Releases(mv.e, id) && (Knows(s, id) || mv.e.dup) && Reached(mv, 0)
    case Handing(qos) =>
      if qos == 0 then Arrives(mv.e, 0, id) && Reached(mv, 0)
      else if qos == 1 then Arrives(mv.e, 1, id) && mv.e.writable && Reached(mv, 1)
      else qos == 2 && DueQos2(s, mv, id)
    case Handed(m) =>
      if m.qos == 0 then mv.e.PublishIn? && mv.e.m == m && Reached(mv, 0)
      else if m.qos == 1 then mv.e.PublishIn? && mv.e.m == m && mv.e.writable && Reached(mv, 1)
      else m.qos == 2 && DueQos2(s, mv, m.id) && if s.v5 then mv.e.m == m else Waiting(s, m)
  }

  /** A QoS 2 message is handed over when it first arrives in version 5, and before that with its PUBREL. */
  ghost predicate DueQos2(s: Session, mv: Move, id: int) {
    if s.v5 then Arrives(mv.e, 2, id) && mv.e.writable && !Knows(s, id) && Reached(mv, 3)
    else Releases(mv.e, id) && Knows(s, id) && Reached(mv, 1)
  }

  // ---------- one step ----------

  function Performed(mv: Move, a: seq<Action>): nat {
    if mv.Torn? then mv.n else |a|
  }

  lemma KnowsIff(s: Session, id: int)
    ensures Knows(s, id) <==> IndexOf(s.inbound, id) >= 0
  {
  }

  /** The only place of a PUBLISH's actions where w can be seen. */
  function Place(s: Session, e: Event, w: What): nat
    requires e.PublishIn?
  {
    match w
    case Opening => 1
    case Answer(_) => if e.m.qos == 1 then 0 else if IndexOf(s.inbound, e.m.id) >= 0 then 1 else 2
    case _ => if e.m.qos == 0 then 0 else if e.m.qos == 1 then 1 else 3
  }

  lemma HandOverHits(s: Session, e: Event, w: What, id: int)
    requires e.PublishIn? && e.m.qos != 2 && 0 <= e.m.qos <= 3
    ensures var a, k := HandlePublish(s, e.m, e.dup, e.writable).actions, Place(s, e, w);
            && (forall i :: 0 <= i < |a| && Hit(a[i], w, id) ==> i == k)
            && (k < |a| && Hit(a[k], w, id) <==> Due(s, Whole(e), w, id))
  {
    hide Waiting, Knows, IndexOf;
  }

  lemma Qos2Hits(s: Session, e: Event, w: What, id: int)
    requires e.PublishIn? && e.m.qos == 2
    ensures var a, k := HandlePublish(s, e.m, e.dup, e.writable).actions, Place(s, e, w);
            && (forall i :: 0 <= i < |a| && Hit(a[i], w, id) ==> i == k)
            && (k < |a| && Hit(a[k], w, id) <==> Due(s, Whole(e), w, id))
  {
    KnowsIff(s, e.m.id);
    hide Waiting, Knows, IndexOf, Incoming;
  }

  lemma PublishInReached(s: Session, mv: Move, w: What, id: int)
    requires mv.e.PublishIn?
    ensures Due(s, mv, w, id) <==> Due(s, Whole(mv.e), w, id) && Reached(mv, Place(s, mv.e, w))
  {
    KnowsIff(s, mv.e.m.id);
    hide Waiting, Knows, IndexOf;
  }

  lemma PublishInAnswers(s: Session, mv: Move, w: What, id: int)
    requires mv.e.PublishIn? && CanMove(s, mv)
    ensures var a := Handle(s, mv.e).actions;
            Count(a[..Performed(mv, a)], w, id) == One(Due(s, mv, w, id))
  {
    hide Due, Hit, Count, HandlePublish, Place, Lists, Apply;
    var e, a := mv.e, Handle(s, mv.e).actions;
    if e.m.qos == 2 {
      Qos2Hits(s, e, w, id);
    } else {
      HandOverHits(s, e, w, id);
    }
    PublishInReached(s, mv, w, id);
    CountAt(a, Performed(mv, a), Place(s, e, w), w, id);
  }

  /** The only place of a PUBREL's actions where w can be seen. */
  function RelPlace(v5: bool, w: What): nat {
    match w
    case Answer(_) => 0
    case Completion(_) => ErasedAt(v5)
    case _ => 1
  }

  lemma PubrelInHits(s: Session, e: Event, w: What, id: int)
    requires InboundMatches(s) && e.PubrelIn? && (w.Completion? ==> w.v5 == s.v5)
    ensures var a, k := HandlePubrel(s, e.id, e.dup, e.writable).actions, RelPlace(s.v5, w);
            && (forall i :: 0 <= i < |a| && Hit(a[i], w, id) ==> i == k)
            && (k < |a| && Hit(a[k], w, id) <==> Due(s, Whole(e), w, id))
  {
    hide Waiting, Knows, DistinctKeys, IndexOf, HandlePubrel, Hit, Completing, ErasedAt;
    KnowsIff(s, e.id);
    WaitingIs(s, e.id);
    var i := IndexOf(s.inbound, e.id);
    if Completes(s, e.id, e.writable) {
      CompletingShape(s, e);
      CompletingHits(s.v5, s.inbound[i].msg, w, id);
    } else {
      NotCompleting(s, e, w, id);
    }
  }

  lemma CompletingShape(s: Session, e: Event)
    requires InboundMatches(s) && e.PubrelIn? && Completes(s, e.id, e.writable)
    ensures var m := s.inbound[IndexOf(s.inbound, e.id)].msg;
            m.id == e.id && m.qos == 2 && HandlePubrel(s, e.id, e.dup, e.writable).actions == Completing(s.v5, m)
  {
  }

  lemma CompletingHits(v5: bool, m: Message, w: What, id: int)
    requires m.qos == 2 && (w.Completion? ==> w.v5 == v5)
    ensures var a, k := Completing(v5, m), RelPlace(v5, w);
            && (forall i :: 0 <= i < |a| && Hit(a[i], w, id) ==> i == k)
            && (k < |a| && Hit(a[k], w, id) <==>
                 match w
                 case Completion(_) => m.id == id
                 case Answer(ack) => ack == Pubcomp && m.id == id
                 case Delivery => !v5 && m.id == id
                 case Handing(qos) => !v5 && m.id == id && qos == 2
                 case Handed(x) => !v5 && x == m
                 case Opening => false)
  {
    var a := if v5
      then [SendAck(Pubcomp, m.id), Remove(Key(Received, true, m.id)), Remove(Key(Received, false, m.id))]
      else [SendAck(Pubcomp, m.id), Deliver(m), Remove(Key(Received, true, m.id)), Remove(Key(Received, false, m.id))];
    assert a == Completing(v5, m);
  }

  lemma NotCompleting(s: Session, e: Event, w: What, id: int)
    requires InboundMatches(s) && e.PubrelIn? && !Completes(s, e.id, e.writable)
    ensures var a := HandlePubrel(s, e.id, e.dup, e.writable).actions;
            && (forall i :: 0 <= i < |a| && Hit(a[i], w, id) ==> i == 0 && w.Answer?)
            && (0 < |a| && Hit(a[0], w, id) <==>
                  w == Answer(Pubcomp) && id == e.id && e.writable && e.dup && IndexOf(s.inbound, e.id) < 0)
  {
    hide IndexOf;
  }

  /** With distinct ids only one message can be waiting under an id. */
  lemma WaitingIs(s: Session, id: int)
    requires InboundMatches(s)
    ensures var i := IndexOf(s.inbound, id);
            forall m: Message :: m.id == id ==> (Waiting(s, m) <==> i >= 0 && s.inbound[i].msg == m)
  {
    var i := IndexOf(s.inbound, id);
    forall m: Message | m.id == id ensures Waiting(s, m) <==> i >= 0 && s.inbound[i].msg == m {
      if Waiting(s, m) {
        var j :| 0 <= j < |s.inbound| && s.inbound[j].msg == m;
        assert IdOf(s.inbound[j]) == IdOf(s.inbound[i]);
      }
    }
  }

  lemma PubrelInReached(s: Session, mv: Move, w: What, id: int)
    requires mv.e.PubrelIn?
    ensures Due(s, mv, w, id) <==> Due(s, Whole(mv.e), w, id) && Reached(mv, RelPlace(s.v5, w))
  {
    hide Waiting, Knows;
  }

  lemma PubrelInAnswers(s: Session, mv: Move, w: What, id: int)
    requires InboundMatches(s) && mv.e.PubrelIn? && CanMove(s, mv) && (w.Completion? ==> w.v5 == s.v5)
    ensures var a := Handle(s, mv.e).actions;
            Count(a[..Performed(mv, a)], w, id) == One(Due(s, mv, w, id))
  {
    hide Due, Hit, Count, HandlePubrel, RelPlace, Lists, Apply, InboundMatches;
    var a := Handle(s, mv.e).actions;
    PubrelInHits(s, mv.e, w, id);
    PubrelInReached(s, mv, w, id);
    CountAt(a, Performed(mv, a), RelPlace(s.v5, w), w, id);
  }

  lemma StepAnswers(s: Session, mv: Move, w: What, id: int)
    requires Inv(s) && CanMove(s, mv) && (w.Completion? ==> w.v5 == s.v5)
    ensures Count(MoveActions(s, mv), w, id) == One(Due(s, mv, w, id))
  {
    hide Inv, Count, Apply, RestoreKeys;
    var a := Handle(s, mv.e).actions;
    var n := Performed(mv, a);
    if mv.e.PublishIn? {
      PublishInAnswers(s, mv, w, id);
    } else if mv.e.PubrelIn? {
      InvInbound(s);
      PubrelInAnswers(s, mv, w, id);
    } else {
      OtherCount(s, mv.e, n, w, id);
    }
    if mv.Torn? {
      SweepCount(s.v5, Apply(s.store, a[..n]), mv.keys, w, id);
      CountConcat(a[..n], RestoreKeys(s.v5, Apply(s.store, a[..n]), mv.keys).actions, w, id);
    } else {
      assert a[..n] == a;
    }
  }

  lemma InvInbound(s: Session)
    requires Inv(s)
    ensures InboundMatches(s)
  {
  }

  // ---------- runs ----------

  /** How many moves of the run call for it. */
  ghost function DueIn(s: Session, moves: seq<Move>, w: What, id: int): nat
    requires CanRun(s, moves)
    decreases |moves|
  {
    if moves == [] then 0
    else One(Due(s, moves[0], w, id)) + DueIn(MoveSession(s, moves[0]), moves[1..], w, id)
  }

  lemma {:induction false} RunAnswers(w: World, moves: seq<Move>, x: What, id: int)
    requires Inv(w.s) && CanRun(w.s, moves) && (x.Completion? ==> x.v5 == w.s.v5)
    ensures Count(Run(w, moves).trace, x, id) == Count(w.trace, x, id) + DueIn(w.s, moves, x, id)
    decreases |moves|
  {
    hide Inv, Count, Due, CanMove, MoveSession, MoveActions;
    if moves != [] {
      MoveKeeps(w.s, moves[0]);
      SameVersion(w.s, moves[0]);
      StepAnswers(w.s, moves[0], x, id);
      CountConcat(w.trace, MoveActions(w.s, moves[0]), x, id);
      RunAnswers(After(w, moves[0]), moves[1..], x, id);
    }
  }

  /**
    Over every run, crashes and restarts included: each acknowledgement has been sent, each exchange opened
    and completed, and each message handed over exactly as often as the packets that came in called for.
  */
  lemma EveryPacketIsAnswered(v5: bool, moves: seq<Move>, w: What, id: int)
    requires CanRun(Fresh(v5).s, moves) && (w.Completion? ==> w.v5 == v5)
    ensures Count(Run(Fresh(v5), moves).trace, w, id) == DueIn(Fresh(v5).s, moves, w, id)
  {
    FreshInv(v5);
    RunAnswers(Fresh(v5), moves, w, id);
  }

  // ---------- without crashes, in terms of the packets alone ----------

  /** The move brings the message, and its acknowledgement can be written. */
  predicate Brings(mv: Move, m: Message) {
    mv.e.PublishIn? && mv.e.m == m && (m.qos == 0 || mv.e.writable)
  }

  predicate Asks(mv: Move, qos: int, id: int) {
    Arrives(mv.e, qos, id) && mv.e.writable
  }

  function Brought(moves: seq<Move>, m: Message): nat {
    if moves == [] then 0 else One(Brings(moves[0], m)) + Brought(moves[1..], m)
  }

  function Asked(moves: seq<Move>, qos: int, id: int): nat {
    if moves == [] then 0 else One(Asks(moves[0], qos, id)) + Asked(moves[1..], qos, id)
  }

  lemma {:induction false} WholeRuns(s: Session, moves: seq<Move>, m: Message, id: int)
    requires CanRun(s, moves) && forall i :: 0 <= i < |moves| ==> moves[i].Whole?
    ensures m.qos == 0 || m.qos == 1 ==> DueIn(s, moves, Handed(m), m.id) == Brought(moves, m)
    ensures DueIn(s, moves, Answer(Puback), id) == DueIn(s, moves, Handing(1), id) == Asked(moves, 1, id)
    ensures DueIn(s, moves, Answer(Pubrec), id) == Asked(moves, 2, id)
    decreases |moves|
  {
    hide CanMove, MoveSession, Knows, Waiting;
    if moves != [] {
      WholeRuns(MoveSession(s, moves[0]), moves[1..], m, id);
    }
  }

  /**
    Over every run without a crash in the middle of a step: a message of QoS 0 or 1 has been handed over
    exactly as often as it came in (QoS 1: while acknowledgements could be written); every QoS 1 PUBLISH has
    been acknowledged and handed over, and every QoS 2 PUBLISH acknowledged, once each time it came in.
  */
  lemma AnsweredOnce(v5: bool, moves: seq<Move>, m: Message, id: int)
    requires CanRun(Fresh(v5).s, moves) && forall i :: 0 <= i < |moves| ==> moves[i].Whole?
    ensures var trace := Run(Fresh(v5), moves).trace;
            && (m.qos == 0 || m.qos == 1 ==> Count(trace, Handed(m), m.id) == Brought(moves, m))
            && Count(trace, Answer(Puback), id) == Count(trace, Handing(1), id) == Asked(moves, 1, id)
            && Count(trace, Answer(Pubrec), id) == Asked(moves, 2, id)
  {
    hide Count, CanRun, Run, DueIn;
    EveryPacketIsAnswered(v5, moves, Handed(m), m.id);
    EveryPacketIsAnswered(v5, moves, Answer(Puback), id);
    EveryPacketIsAnswered(v5, moves, Handing(1), id);
    EveryPacketIsAnswered(v5, moves, Answer(Pubrec), id);
    WholeRuns(Fresh(v5).s, moves, m, id);
  }

  // ---------- what a crash changes ----------

  /** The crash comes after the PUBACK and before the message is handed over. */
  predicate CutAfterPuback(mv: Move, id: int) {
    mv.Torn? && mv.n == 1 && Asks(mv, 1, id)
  }

  function CutsAfterPuback(moves: seq<Move>, id: int): nat {
    if moves == [] then 0 else One(CutAfterPuback(moves[0], id)) + CutsAfterPuback(moves[1..], id)
  }

  lemma {:induction false} PubackSurplus(s: Session, moves: seq<Move>, id: int)
    requires CanRun(s, moves)
    ensures DueIn(s, moves, Answer(Puback), id) == DueIn(s, moves, Handing(1), id) + CutsAfterPuback(moves, id)
    decreases |moves|
  {
    hide CanMove, MoveSession;
    if moves != [] {
      PubackSurplus(MoveSession(s, moves[0]), moves[1..], id);
    }
  }

  /**
    QoS 1 receipt over every run, crashes included: PUBACKs for an id are the messages handed over under it
    plus the crashes between a PUBACK and the handing over.  So what is acknowledged is handed over, as
    section 4.3.2 of MQTT 3.1.1 asks, if and only if there is no such crash.
  */
  lemma AcknowledgedIsHandedOverIff(v5: bool, moves: seq<Move>, id: int)
    requires CanRun(Fresh(v5).s, moves)
    ensures var trace := Run(Fresh(v5), moves).trace;
            && Count(trace, Answer(Puback), id) == Count(trace, Handing(1), id) + CutsAfterPuback(moves, id)
            && (Count(trace, Answer(Puback), id) == Count(trace, Handing(1), id)
                <==> forall i :: 0 <= i < |moves| ==> !CutAfterPuback(moves[i], id))
  {
    hide Count, CanRun, Run, DueIn, CutAfterPuback;
    EveryPacketIsAnswered(v5, moves, Answer(Puback), id);
    EveryPacketIsAnswered(v5, moves, Handing(1), id);
    PubackSurplus(Fresh(v5).s, moves, id);
    NoCutsIff(moves, id);
  }

  lemma {:induction false} NoCutsIff(moves: seq<Move>, id: int)
    ensures CutsAfterPuback(moves, id) == 0 <==> forall i :: 0 <= i < |moves| ==> !CutAfterPuback(moves[i], id)
  {
    hide CutAfterPuback;
    if moves != [] {
      NoCutsIff(moves[1..], id);
      assert forall i :: 1 <= i < |moves| ==> moves[i] == moves[1..][i - 1];
    }
  }

  /** The failing run: the PUBACK has gone out, and the client stops before it hands the message over. */
  lemma CrashLosesAcknowledged(v5: bool, m: Message)
    requires m.qos == 1 && 0 <= m.id <= MAX_MSG_ID
    ensures var moves := [Torn(PublishIn(m, false, true), 1, [])];
            && CanRun(Fresh(v5).s, moves)
            && Count(Run(Fresh(v5), moves).trace, Answer(Puback), m.id) == 1
            && Count(Run(Fresh(v5), moves).trace, Handed(m), m.id) == 0
  {
    hide Count;
    var s, mv := Fresh(v5).s, Torn(PublishIn(m, false, true), 1, []);
    Single(s.store, SendAck(Puback, m.id));
    assert Handle(s, mv.e).actions[..1] == [SendAck(Puback, m.id)];
    assert CanMove(s, mv);
    assert [mv][1..] == [] && CanRun(MoveSession(s, mv), []);
    assert CanRun(s, [mv]);
    EveryPacketIsAnswered(v5, [mv], Answer(Puback), m.id);
    EveryPacketIsAnswered(v5, [mv], Handed(m), m.id);
    assert DueIn(MoveSession(s, mv), [], Handed(m), m.id) == 0 == DueIn(MoveSession(s, mv), [], Answer(Puback), m.id);
  }

  /**
    PUBCOMPs for an id are the exchanges completed, the PUBRELs repeated for an exchange that is not known,
    and the crashes between a PUBCOMP and the erasure of its record.
  */
  ghost predicate RepeatedRelease(s: Session, mv: Move, id: int) {
    Releases(mv.e, id) && mv.e.dup && !Knows(s, id) && Reached(mv, 0)
  }

  ghost predicate CutBeforeErasure(s: Session, mv: Move, id: int) {
    Releases(mv.e, id) && Knows(s, id) && Reached(mv, 0) && !Reached(mv, ErasedAt(s.v5))
  }

  ghost function Surplus(s: Session, moves: seq<Move>, id: int): nat
    requires CanRun(s, moves)
    decreases |moves|
  {
    if moves == [] then 0
    else One(RepeatedRelease(s, moves[0], id)) + One(CutBeforeErasure(s, moves[0], id))
         + Surplus(MoveSession(s, moves[0]), moves[1..], id)
  }

  lemma {:induction false} PubcompSurplus(s: Session, moves: seq<Move>, id: int)
    requires CanRun(s, moves)
    ensures DueIn(s, moves, Answer(Pubcomp), id)
         == DueIn(s, moves, Completion(s.v5), id) + Surplus(s, moves, id)
    decreases |moves|
  {
    hide CanMove, MoveSession, Knows;
    if moves != [] {
      SameVersion(s, moves[0]);
      PubcompSurplus(MoveSession(s, moves[0]), moves[1..], id);
    }
  }

  lemma PubcompsAccountedFor(v5: bool, moves: seq<Move>, id: int)
    requires CanRun(Fresh(v5).s, moves)
    ensures var trace := Run(Fresh(v5), moves).trace;
            Count(trace, Answer(Pubcomp), id)
            == Count(trace, Completion(v5), id) + Surplus(Fresh(v5).s, moves, id)
  {
    hide Count, CanRun, Run, DueIn, Surplus;
    EveryPacketIsAnswered(v5, moves, Answer(Pubcomp), id);
    EveryPacketIsAnswered(v5, moves, Completion(v5), id);
    PubcompSurplus(Fresh(v5).s, moves, id);
  }
}
