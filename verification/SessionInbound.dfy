/**
  The contents of a QoS 2 message on its way in.  Before version 5 they are handed over only when the
  PUBREL comes, so a restart in between delivers what the record under the id says.  A PUBLISH that is
  refused because of pending writes has already replaced that record, and leaves the list alone.
*/
module SessionInbound {
  import opened SortedInsert
  import opened Session
  import opened SessionInvariant
  import opened SessionSteps
  import opened SessionRestart
  import opened SessionRuns
  import opened SessionDelivery

  /** Which message the record under an id holds: the one in the list, or one refused since. */
  datatype Last = Taken | Refused(m: Message)

  ghost predicate Concerns(mv: Move, id: int) {
    mv.e.PublishIn? && mv.e.m.qos == 2 && mv.e.m.id == id
  }

  ghost function Noted(mv: Move, id: int, last: Last): Last {
    if mv.Torn? || mv.e.Restart? then Taken
    else if Concerns(mv, id) then (if mv.e.writable then Taken else Refused(mv.e.m))
    else last
  }

  /** Over a run, for one id. */
  ghost function LastOf(moves: seq<Move>, id: int): Last {
    if moves == [] then Taken else Noted(moves[|moves| - 1], id, LastOf(moves[..|moves| - 1], id))
  }

  function Kept(f: Flight, last: Last): Message {
    match last
    case Taken => f.msg
    case Refused(m) => m
  }

  ghost predicate InboundStored(s: Session, id: int, last: Last) {
    forall i :: 0 <= i < |s.inbound| && s.inbound[i].msg.id == id ==> RecordHolds(s.store, id, Kept(s.inbound[i], last))
  }

  ghost predicate RecordHolds(store: Store, id: int, m: Message) {
    var k := Key(Received, false, id);
    k in store && store[k].PublishRecord? && store[k].msg == m
  }

  // ---------- every move ----------

  /** What a restart makes of the received records. */
  lemma {:induction false} FlightsFromRecords(store: Store, keys: seq<Key>)
    requires StoreOk(false, store) && forall k :: k in keys ==> k in store
    ensures forall f :: f in ReceivedFlights(false, store, keys) ==> RecordHolds(store, f.msg.id, f.msg)
  {
    hide StoreOk;
    if keys != [] {
      var init, key := keys[..|keys| - 1], keys[|keys| - 1];
      FlightsFromRecords(store, init);
      if key.stem == Received {
        ReceivedRecordAt(false, store, key);
      }
    }
  }

  lemma RestartHolds(mid: Session, keys: seq<Key>, id: int)
    requires StoreOk(false, mid.store) && !mid.v5 && Lists(keys, mid.store)
    ensures InboundStored(Step(mid, Restart(keys)), id, Taken)
    ensures forall i :: 0 <= i < |Step(mid, Restart(keys)).inbound| ==>
              var f := Step(mid, Restart(keys)).inbound[i]; RecordHolds(mid.store, f.msg.id, f.msg)
  {
    hide Apply, StoreOk, RestoreKeys, AllPermitted, InsertAll, SentFlights, ReceivedFlights, Swept;
    RestoreScan(false, mid.store, keys);
    FlightsFromRecords(mid.store, keys);
    var t := Step(mid, Restart(keys));
    forall i | 0 <= i < |t.inbound| ensures RecordHolds(mid.store, t.inbound[i].msg.id, t.inbound[i].msg)
                                            && RecordHolds(t.store, t.inbound[i].msg.id, t.inbound[i].msg)
    {
      assert t.inbound[i] in t.inbound;
      SweptHolds(mid.store, keys, t.store, t.inbound[i].msg);
    }
  }

  lemma SweptHolds(store: Store, keys: seq<Key>, after: Store, m: Message)
    requires Swept(false, store, keys, after) && RecordHolds(store, m.id, m)
    ensures RecordHolds(after, m.id, m)
  {
  }

  lemma PublishInHolds(s: Session, mv: Move, id: int, last: Last)
    requires Inv(s) && !s.v5 && CanMove(s, mv) && mv.Whole? && mv.e.PublishIn? && InboundStored(s, id, last)
    ensures InboundStored(MoveSession(s, mv), id, Noted(mv, id, last))
  {
    hide Inv, AllPermitted, Apply, HandlePublish;
    var m := mv.e.m;
    PublishInActions(s, m, mv.e.dup, mv.e.writable);
    var t := MoveSession(s, mv);
    forall i | 0 <= i < |t.inbound| && t.inbound[i].msg.id == id
      ensures RecordHolds(t.store, id, Kept(t.inbound[i], Noted(mv, id, last)))
    {
      PublishInList(s, m, mv.e.dup, mv.e.writable, i);
      if i < |s.inbound| && t.inbound[i] == s.inbound[i] {
        assert RecordHolds(s.store, id, Kept(s.inbound[i], last));
      }
    }
  }

  /** An element of the list afterwards is the message that was accepted, or was there before, under another
      id unless the PUBLISH was refused. */
  lemma PublishInList(s: Session, m: Message, dup: bool, writable: bool, i: nat)
    requires Inv(s) && !s.v5 && i < |HandlePublish(s, m, dup, writable).inbound|
    ensures var f := HandlePublish(s, m, dup, writable).inbound[i];
            || (m.qos == 2 && writable && f.msg == m)
            || (i < |s.inbound| && f == s.inbound[i] && (m.qos == 2 && writable ==> f.msg.id != m.id))
  {
    hide StoreOk, OutboundMatches, NoOrphans;
    var i0 := IndexOf(s.inbound, m.id);
    assert 0 <= i0 != i && i < |s.inbound| ==> IdOf(s.inbound[i]) != IdOf(s.inbound[i0]);
  }

  lemma PubrelInHolds(s: Session, mv: Move, id: int, last: Last)
    requires Inv(s) && !s.v5 && CanMove(s, mv) && mv.Whole? && mv.e.PubrelIn? && InboundStored(s, id, last)
    ensures InboundStored(MoveSession(s, mv), id, last)
  {
    hide StoreOk, OutboundMatches, NoOrphans, AllPermitted, Apply, Kept, RemoveReceived;
    var e, t := mv.e, MoveSession(s, mv);
    var i := IndexOf(s.inbound, e.id);
    if i < 0 || !e.writable {
      SilentPermitted(s.v5, s.store, HandlePubrel(s, e.id, e.dup, e.writable).actions);
    } else {
      CompleteActions(s.v5, s.store, e.id, [SendAck(Pubcomp, e.id)] + [Deliver(s.inbound[i].msg)]);
      forall j | 0 <= j < |t.inbound| && t.inbound[j].msg.id == id
        ensures RecordHolds(t.store, id, Kept(t.inbound[j], last))
      {
        var j' := if j < i then j else j + 1;
        assert t.inbound[j] == s.inbound[j'] && IdOf(s.inbound[j']) != IdOf(s.inbound[i]);
        assert RecordHolds(s.store, id, Kept(s.inbound[j'], last));
        assert t.store == s.store - {Key(Received, true, e.id), Key(Received, false, e.id)};
      }
    }
  }

  lemma OtherHolds(s: Session, mv: Move, id: int, last: Last)
    requires Inv(s) && !s.v5 && CanMove(s, mv) && mv.Whole? && InboundStored(s, id, last)
    requires !mv.e.PublishIn? && !mv.e.PubrelIn? && !mv.e.Restart?
    ensures InboundStored(MoveSession(s, mv), id, last)
  {
    hide Inv, Apply, IndexOf, ResendAll, Selected, DiscardAll, Kept;
    if !mv.e.Clean? {
      var a := Handle(s, mv.e).actions;
      OtherReceived(s, mv.e, |a|, id);
      assert a[..|a|] == a;
      forall i | 0 <= i < |s.inbound| && s.inbound[i].msg.id == id
        ensures RecordHolds(MoveSession(s, mv).store, id, Kept(s.inbound[i], last))
      {
        assert RecordHolds(s.store, id, Kept(s.inbound[i], last));
      }
    }
  }

  lemma MoveHolds(s: Session, mv: Move, id: int, last: Last)
    requires Inv(s) && !s.v5 && CanMove(s, mv) && InboundStored(s, id, last)
    ensures InboundStored(MoveSession(s, mv), id, Noted(mv, id, last))
  {
    hide InboundStored, OutboundMatches, InboundMatches, NoOrphans, StoreOk, AllPermitted, Apply, Handle;
    if mv.Torn? {
      var a := Handle(s, mv.e).actions;
      StepKeeps(s, mv.e);
      assert a == a[..mv.n] + a[mv.n..];
      PermittedConcat(s.v5, s.store, a[..mv.n], a[mv.n..]);
      PermittedRun(s.v5, s.store, a[..mv.n]);
      RestartHolds(Crashed(s, Apply(s.store, a[..mv.n])), mv.keys, id);
    } else {
      match mv.e
      case Restart(keys) => RestartHolds(s, keys, id);
      case PublishIn(_, _, _) => PublishInHolds(s, mv, id, last);
      case PubrelIn(_, _, _) => PubrelInHolds(s, mv, id, last);
      case _ => OtherHolds(s, mv, id, last);
    }
  }

  // ---------- runs ----------

  lemma {:induction false} RunSplit(w: World, moves: seq<Move>)
    requires CanRun(w.s, moves) && moves != []
    ensures var n := |moves| - 1;
            && CanRun(w.s, moves[..n]) && CanMove(Run(w, moves[..n]).s, moves[n])
            && Run(w, moves) == After(Run(w, moves[..n]), moves[n])
    decreases |moves|
  {
    hide CanMove, MoveSession, MoveActions;
    var n := |moves| - 1;
    if n == 0 {
      assert moves[..0] == [] && moves[1..] == [];
      assert Run(After(w, moves[0]), []) == After(w, moves[0]);
    } else {
      RunSplit(After(w, moves[0]), moves[1..]);
      assert moves[1..][..n - 1] == moves[..n][1..] && moves[..n][0] == moves[0];
      assert moves[1..][n - 1] == moves[n];
    }
  }

  lemma {:induction false} RunHolds(moves: seq<Move>, id: int)
    requires CanRun(Fresh(false).s, moves)
    ensures InboundStored(Run(Fresh(false), moves).s, id, LastOf(moves, id))
    ensures Inv(Run(Fresh(false), moves).s) && !Run(Fresh(false), moves).s.v5
  {
    hide Inv, CanMove, MoveSession, MoveActions, Noted, CanRun, Run;
    FreshInv(false);
    RunKeeps(Fresh(false), moves);
    if moves == [] {
      NothingRun();
    } else {
      var n := |moves| - 1;
      RunSplit(Fresh(false), moves);
      RunHolds(moves[..n], id);
      MoveHolds(Run(Fresh(false), moves[..n]).s, moves[n], id, LastOf(moves[..n], id));
    }
  }

  lemma NothingRun()
    ensures CanRun(Fresh(false).s, []) && Run(Fresh(false), []) == Fresh(false)
  {
  }

  /**
    Before version 5, after any run, crashes included: a restart gives back every inbound message, with the
    contents of the last PUBLISH refused under its id since it was taken or restored, if there was one,
    and those held in memory otherwise.  So it is the message in memory if and only if there was none, or
    the last one was the same message.
  */
  lemma RestoredInbound(moves: seq<Move>, keys: seq<Key>, i: nat)
    requires CanRun(Fresh(false).s, moves) && Lists(keys, Run(Fresh(false), moves).s.store)
    requires i < |Run(Fresh(false), moves).s.inbound|
    ensures var s := Run(Fresh(false), moves).s;
            var f, t := s.inbound[i], Step(s, Restart(keys));
            var j, last := IndexOf(t.inbound, f.msg.id), LastOf(moves, f.msg.id);
            && j >= 0 && t.inbound[j].msg == Kept(f, last)
            && (t.inbound[j] == f <==> last == Taken || last.m == f.msg)
  {
    hide CanRun, Run, StoreOk, OutboundMatches, NoOrphans, Lists, RestorePackets, Apply, LastOf;
    var s := Run(Fresh(false), moves).s;
    var f, t := s.inbound[i], Step(s, Restart(keys));
    RunHolds(moves, f.msg.id);
    RestartHolds(s, keys, f.msg.id);
    InboundStillKnown(s, keys);
    RestartStep(s, keys);
    var j := IndexOf(t.inbound, f.msg.id);
    assert RecordHolds(s.store, t.inbound[j].msg.id, t.inbound[j].msg);
    assert RecordHolds(s.store, f.msg.id, Kept(f, LastOf(moves, f.msg.id)));
  }
}
