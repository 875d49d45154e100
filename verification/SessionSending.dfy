/** QoS 2 sending over whole runs: a PUBLISH never follows its own PUBREL. */
module SessionSending {
  import opened MessageIds
  import opened SortedInsert
  import opened RestoreOrder
  import opened Session
  import opened SessionInvariant
  import opened SessionRestart
  import opened SessionRuns
  import opened SessionSafety

  /** The exchange ends when its PUBLISH record goes: on its last acknowledgement, or with the session. */
  predicate Ends(a: Action, v5: bool, id: int) {
    a == Remove(Key(Sent, v5, id)) || a == Discard(Key(Sent, v5, id))
  }

  /** A PUBREL has gone out for id and its exchange has not ended since. */
  function PubrelOutstanding(v5: bool, trace: seq<Action>, id: int): bool {
    trace != [] &&
    var last := trace[|trace| - 1];
    if last == SendPubrel(id) then true
    else if Ends(last, v5, id) then false
    else PubrelOutstanding(v5, trace[..|trace| - 1], id)
  }

  /** A PUBREL and a later PUBLISH with its id. */
  ghost predicate Follows(trace: seq<Action>, i: nat, j: nat) {
    i < j < |trace| && trace[i].SendPubrel? && trace[j].SendPublish? && trace[i].id == trace[j].id
  }

  ghost predicate EndsBetween(v5: bool, trace: seq<Action>, i: nat, j: nat, id: int)
    requires i < j <= |trace|
  {
    exists k :: i < k < j && Ends(trace[k], v5, id)
  }

  /** Section 4.3.3 of MQTT 3.1.1: after PUBREL for an id, PUBLISH with that id only once the exchange has ended. */
  ghost predicate NoPublishAfterPubrel(v5: bool, trace: seq<Action>) {
    forall i: nat, j: nat :: Follows(trace, i, j) ==> EndsBetween(v5, trace, i, j, trace[i].id)
  }

  lemma {:induction false} SettledByEnd(v5: bool, trace: seq<Action>, i: nat)
    requires i < |trace| && trace[i].SendPubrel? && !PubrelOutstanding(v5, trace, trace[i].id)
    ensures EndsBetween(v5, trace, i, |trace|, trace[i].id)
  {
    var last := trace[|trace| - 1];
    if !Ends(last, v5, trace[i].id) {
      var init := trace[..|trace| - 1];
      SettledByEnd(v5, init, i);
      var k :| i < k < |init| && Ends(init[k], v5, init[i].id);
      assert trace[k] == init[k];
    }
  }

  ghost predicate TraceOk(v5: bool, store: Store, trace: seq<Action>) {
    NoPublishAfterPubrel(v5, trace) && OutstandingStored(v5, store, trace)
  }

  ghost predicate OutstandingStored(v5: bool, store: Store, trace: seq<Action>) {
    forall id :: PubrelOutstanding(v5, trace, id) ==> Key(Sent, v5, id) in store && Key(Rel, v5, id) in store
  }

  /** A longer trace is in order when the PUBLISH it ends with, if any, has nothing outstanding. */
  lemma NoPublishGrows(v5: bool, trace: seq<Action>, a: Action)
    requires NoPublishAfterPubrel(v5, trace)
    requires a.SendPublish? ==> !PubrelOutstanding(v5, trace, a.id)
    ensures NoPublishAfterPubrel(v5, trace + [a])
  {
    var longer := trace + [a];
    forall i: nat, j: nat | Follows(longer, i, j) ensures EndsBetween(v5, longer, i, j, longer[i].id) {
      if j == |trace| {
        SettledByEnd(v5, trace, i);
        var k :| i < k < |trace| && Ends(trace[k], v5, trace[i].id);
        assert longer[k] == trace[k];
      } else {
        assert Follows(trace, i, j);
        var k :| i < k < j && Ends(trace[k], v5, trace[i].id);
        assert longer[k] == trace[k];
      }
    }
  }

  lemma OutstandingGrows(v5: bool, trace: seq<Action>, a: Action, id: int)
    ensures PubrelOutstanding(v5, trace + [a], id)
         == (a == SendPubrel(id) || (!Ends(a, v5, id) && PubrelOutstanding(v5, trace, id)))
  {
    assert (trace + [a])[..|trace|] == trace;
  }

  lemma TraceGrows(v5: bool, store: Store, trace: seq<Action>, a: Action)
    requires TraceOk(v5, store, trace) && Permitted(v5, store, a) && !a.Discard?
    ensures TraceOk(v5, ApplyOne(store, a), trace + [a])
  {
    NoPublishGrows(v5, trace, a);
    forall id ensures PubrelOutstanding(v5, trace + [a], id) ==>
                        Key(Sent, v5, id) in ApplyOne(store, a) && Key(Rel, v5, id) in ApplyOne(store, a)
    {
      OutstandingGrows(v5, trace, a, id);
    }
  }

  ghost predicate NoDiscard(actions: seq<Action>) {
    forall i :: 0 <= i < |actions| ==> !actions[i].Discard?
  }

  lemma {:induction false} TraceRuns(v5: bool, store: Store, trace: seq<Action>, actions: seq<Action>)
    requires TraceOk(v5, store, trace) && AllPermitted(v5, store, actions) && NoDiscard(actions)
    ensures TraceOk(v5, Apply(store, actions), trace + actions)
    decreases |actions|
  {
    hide TraceOk;
    if actions == [] {
      assert trace + actions == trace;
    } else {
      TraceGrows(v5, store, trace, actions[0]);
      TraceRuns(v5, ApplyOne(store, actions[0]), trace + [actions[0]], actions[1..]);
      assert trace + actions == trace + [actions[0]] + actions[1..];
    }
  }

  // ---------- cleaning a session ----------

  lemma {:induction false} DiscardsTrace(v5: bool, trace: seq<Action>, keys: seq<Key>, id: int)
    requires NoPublishAfterPubrel(v5, trace)
    ensures NoPublishAfterPubrel(v5, trace + DiscardAll(keys))
    ensures PubrelOutstanding(v5, trace + DiscardAll(keys), id)
         == (PubrelOutstanding(v5, trace, id) && Key(Sent, v5, id) !in keys)
  {
    hide NoPublishAfterPubrel, PubrelOutstanding;
    if keys == [] {
      assert trace + DiscardAll(keys) == trace;
    } else {
      var init, k := keys[..|keys| - 1], keys[|keys| - 1];
      DiscardsTrace(v5, trace, init, id);
      assert trace + DiscardAll(keys) == trace + DiscardAll(init) + [Discard(k)];
      NoPublishGrows(v5, trace + DiscardAll(init), Discard(k));
      OutstandingGrows(v5, trace + DiscardAll(init), Discard(k), id);
      assert keys == init + [k];
    }
  }

  /** No message whose PUBREL is out has its records split by the cut. */
  ghost predicate SafeCut(v5: bool, trace: seq<Action>, keys: seq<Key>, n: nat)
    requires n <= |keys|
  {
    forall id :: PubrelOutstanding(v5, trace, id) ==> !Splits(v5, keys, n, id)
  }

  lemma SafeCutKeeps(v5: bool, store: Store, trace: seq<Action>, keys: seq<Key>, n: nat)
    requires TraceOk(v5, store, trace) && Lists(keys, store) && n <= |keys| && SafeCut(v5, trace, keys, n)
    ensures TraceOk(v5, Apply(store, DiscardAll(keys)[..n]), trace + DiscardAll(keys)[..n])
  {
    hide NoPublishAfterPubrel, PubrelOutstanding;
    var gone := keys[..n];
    assert DiscardAll(keys)[..n] == DiscardAll(gone);
    CutEffect(store, keys, n);
    DiscardsTrace(v5, trace, gone, 0);
    forall id | PubrelOutstanding(v5, trace + DiscardAll(gone), id)
      ensures Key(Sent, v5, id) in Apply(store, DiscardAll(gone)) && Key(Rel, v5, id) in Apply(store, DiscardAll(gone))
    {
      DiscardsTrace(v5, trace, gone, id);
    }
  }

  /** A store that lists every PUBLISH record before its PUBREL record may be cut anywhere. */
  lemma SentFirstIsSafe(v5: bool, trace: seq<Action>, keys: seq<Key>, n: nat)
    requires n <= |keys| && (forall i, j :: 0 <= i < j < |keys| ==> keys[i] != keys[j])
    requires forall i, j, id | 0 <= i < |keys| && 0 <= j < |keys|
               && keys[i] == Key(Rel, v5, id) && keys[j] == Key(Sent, v5, id) :: j < i
    ensures SafeCut(v5, trace, keys, n)
  {
  }

  // ---------- runs ----------

  /** The only crash that can do harm: one that cuts the cleaning of a session between the records of a
      message whose PUBREL is out. */
  ghost predicate SafeMove(w: World, mv: Move)
    requires CanMove(w.s, mv)
  {
    mv.Torn? && mv.e.Clean? ==> SafeCut(w.s.v5, w.trace, mv.e.keys, mv.n)
  }

  ghost predicate SafeRun(w: World, moves: seq<Move>)
    requires CanRun(w.s, moves)
    decreases |moves|
  {
    moves == [] || (SafeMove(w, moves[0]) && SafeRun(After(w, moves[0]), moves[1..]))
  }

  lemma {:induction false} SweepDiscardsNothing(v5: bool, store: Store, keys: seq<Key>)
    requires forall k :: k in keys ==> k in store
    ensures NoDiscard(RestoreKeys(v5, store, keys).actions)
  {
    if keys != [] {
      SweepDiscardsNothing(v5, store, keys[..|keys| - 1]);
    }
  }

  lemma {:induction false} ResendDiscardsNothing(v5: bool, list: seq<Flight>)
    ensures NoDiscard(ResendAll(v5, list))
  {
    if list != [] {
      ResendDiscardsNothing(v5, list[..|list| - 1]);
    }
  }

  lemma HandleDiscardsNothing(s: Session, e: Event)
    requires Enabled(s, e) && !e.Clean?
    ensures NoDiscard(Handle(s, e).actions)
  {
    hide IndexOf, ResendAll, RestoreKeys, Selected;
    match e
    case Retry(due) => ResendDiscardsNothing(s.v5, Selected(s.outbound, due));
    case Restart(keys) => SweepDiscardsNothing(s.v5, s.store, keys);
    case _ =>
  }

  /** The part of a move before a crash, or all of it. */
  lemma FirstPart(w: World, e: Event, n: nat)
    requires Inv(w.s) && Enabled(w.s, e) && n <= |Handle(w.s, e).actions| && TraceOk(w.s.v5, w.s.store, w.trace)
    requires e.Clean? ==> SafeCut(w.s.v5, w.trace, e.keys, n)
    ensures TraceOk(w.s.v5, Apply(w.s.store, Handle(w.s, e).actions[..n]), w.trace + Handle(w.s, e).actions[..n])
  {
    hide TraceOk, StoreOk, OutboundMatches, InboundMatches, NoOrphans, AllPermitted, Apply, SafeCut;
    if e.Clean? {
      SafeCutKeeps(w.s.v5, w.s.store, w.trace, e.keys, n);
    } else {
      var a := Handle(w.s, e).actions;
      StepKeeps(w.s, e);
      HandleDiscardsNothing(w.s, e);
      assert a == a[..n] + a[n..];
      PermittedConcat(w.s.v5, w.s.store, a[..n], a[n..]);
      TraceRuns(w.s.v5, w.s.store, w.trace, a[..n]);
    }
  }

  lemma WholeCleanIsSafe(v5: bool, trace: seq<Action>, keys: seq<Key>)
    ensures SafeCut(v5, trace, keys, |keys|)
  {
  }

  lemma MoveTrace(w: World, mv: Move)
    requires Inv(w.s) && CanMove(w.s, mv) && TraceOk(w.s.v5, w.s.store, w.trace) && SafeMove(w, mv)
    ensures TraceOk(w.s.v5, After(w, mv).s.store, After(w, mv).trace)
  {
    hide TraceOk, StoreOk, OutboundMatches, InboundMatches, NoOrphans, AllPermitted, Apply, SafeCut, RestorePackets;
    var a := Handle(w.s, mv.e).actions;
    if mv.Whole? {
      if mv.e.Clean? {
        WholeCleanIsSafe(w.s.v5, w.trace, mv.e.keys);
      }
      FirstPart(w, mv.e, |a|);
      assert a[..|a|] == a;
    } else {
      FirstPart(w, mv.e, mv.n);
      SecondPart(w, a[..mv.n], mv);
    }
  }

  /** The restart after a crash. */
  lemma SecondPart(w: World, cut: seq<Action>, mv: Move)
    requires Inv(w.s) && CanMove(w.s, mv) && mv.Torn? && cut == Handle(w.s, mv.e).actions[..mv.n]
    requires TraceOk(w.s.v5, Apply(w.s.store, cut), w.trace + cut)
    ensures TraceOk(w.s.v5, After(w, mv).s.store, After(w, mv).trace)
  {
    hide TraceOk, StoreOk, OutboundMatches, InboundMatches, NoOrphans, AllPermitted, Apply, Handle;
    var mid := Crashed(w.s, Apply(w.s.store, cut));
    var more := RestorePackets(w.s.v5, mid.store, mv.keys).actions;
    CutStoreOk(w.s, mv);
    RestartPermitted(mid, mv.keys);
    SweepDiscardsNothing(w.s.v5, mid.store, mv.keys);
    TraceRuns(w.s.v5, mid.store, w.trace + cut, more);
    TornStore(w.s, mv);
    assert w.trace + cut + more == w.trace + (cut + more);
  }

  lemma RestartPermitted(mid: Session, keys: seq<Key>)
    requires StoreOk(mid.v5, mid.store) && Lists(keys, mid.store)
    ensures AllPermitted(mid.v5, mid.store, RestorePackets(mid.v5, mid.store, keys).actions)
  {
    hide AllPermitted, StoreOk, RestorePackets;
    RestartStep(mid, keys);
  }

  lemma CutStoreOk(s: Session, mv: Move)
    requires Inv(s) && CanMove(s, mv) && mv.Torn?
    ensures StoreOk(s.v5, Apply(s.store, Handle(s, mv.e).actions[..mv.n]))
  {
    PrefixStoreOk(s, mv.e, mv.n);
  }

  lemma TornStore(s: Session, mv: Move)
    requires CanMove(s, mv) && mv.Torn?
    ensures var mid := Apply(s.store, Handle(s, mv.e).actions[..mv.n]);
            MoveSession(s, mv).store == Apply(mid, RestorePackets(s.v5, mid, mv.keys).actions)
  {
    hide Apply, RestorePackets, Lists;
  }

  lemma {:induction false} TraceInvariant(w: World, moves: seq<Move>)
    requires Inv(w.s) && CanRun(w.s, moves) && SafeRun(w, moves) && TraceOk(w.s.v5, w.s.store, w.trace)
    ensures TraceOk(w.s.v5, Run(w, moves).s.store, Run(w, moves).trace) && Inv(Run(w, moves).s)
    decreases |moves|
  {
    hide TraceOk, Inv, SafeMove;
    if moves != [] {
      MoveKeeps(w.s, moves[0]);
      MoveTrace(w, moves[0]);
      TraceInvariant(After(w, moves[0]), moves[1..]);
    }
  }

  /**
    Once a PUBREL has been sent for an id, nothing - retry of any messages, reconnect, duplicate
    acknowledgement, cleaning of the session, crash, restart from the store - sends a PUBLISH with
    that id before the exchange has ended, provided no crash cuts the cleaning of a session
    between the two records of a message whose PUBREL is out.
  */
  lemma NeverPublishAfterPubrel(v5: bool, moves: seq<Move>)
    requires CanRun(Fresh(v5).s, moves) && SafeRun(Fresh(v5), moves)
    ensures NoPublishAfterPubrel(v5, Run(Fresh(v5), moves).trace)
  {
    FreshInv(v5);
    TraceInvariant(Fresh(v5), moves);
  }

  // ---------- the harmful cut ----------

  ghost predicate NoEnd(v5: bool, actions: seq<Action>, id: int) {
    forall i :: 0 <= i < |actions| ==> !Ends(actions[i], v5, id)
  }

  lemma {:induction false} OutstandingStays(v5: bool, trace: seq<Action>, more: seq<Action>, id: int)
    requires PubrelOutstanding(v5, trace, id) && NoEnd(v5, more, id)
    ensures PubrelOutstanding(v5, trace + more, id)
  {
    if more == [] {
      assert trace + more == trace;
    } else {
      var init, a := more[..|more| - 1], more[|more| - 1];
      OutstandingStays(v5, trace, init, id);
      OutstandingGrows(v5, trace + init, a, id);
      assert trace + more == trace + init + [a];
    }
  }

  lemma {:induction false} OutstandingSince(v5: bool, trace: seq<Action>, id: int) returns (i: nat)
    requires PubrelOutstanding(v5, trace, id)
    ensures i < |trace| && trace[i] == SendPubrel(id) && !EndsBetween(v5, trace, i, |trace|, id)
  {
    if trace[|trace| - 1] == SendPubrel(id) {
      i := |trace| - 1;
    } else {
      i := OutstandingSince(v5, trace[..|trace| - 1], id);
    }
  }

  /** A PUBLISH sent while its PUBREL is out, whatever comes after it. */
  lemma PublishWhileOutstanding(v5: bool, trace: seq<Action>, id: int, dup: bool, more: seq<Action>)
    requires PubrelOutstanding(v5, trace, id)
    ensures !NoPublishAfterPubrel(v5, trace + [SendPublish(id, dup)] + more)
  {
    var all := trace + [SendPublish(id, dup)] + more;
    var i := OutstandingSince(v5, trace, id);
    var j := |trace|;
    assert Follows(all, i, j);
    assert forall k :: i < k < j ==> all[k] == trace[k];
  }

  lemma {:induction false} ResendAllSplit(v5: bool, a: seq<Flight>, b: seq<Flight>)
    ensures ResendAll(v5, a + b) == ResendAll(v5, a) + ResendAll(v5, b)
  {
    if b == [] {
      assert a + b == a;
    } else {
      assert (a + b)[..|a + b| - 1] == a + b[..|b| - 1];
      ResendAllSplit(v5, a, b[..|b| - 1]);
    }
  }

  lemma {:induction false} ResendEndsNothing(v5: bool, list: seq<Flight>, id: int)
    ensures NoEnd(v5, ResendAll(v5, list), id)
  {
    if list != [] {
      ResendEndsNothing(v5, list[..|list| - 1], id);
    }
  }

  lemma {:induction false} SweepEndsNothing(v5: bool, store: Store, keys: seq<Key>, id: int)
    requires forall k :: k in keys ==> k in store
    ensures NoEnd(v5, RestoreKeys(v5, store, keys).actions, id)
  {
    hide Apply, Insert;
    if keys != [] {
      var o, key := RestoreKeys(v5, store, keys[..|keys| - 1]), keys[|keys| - 1];
      SweepEndsNothing(v5, store, keys[..|keys| - 1], id);
      var a := RestoreKeys(v5, store, keys).actions;
      assert a == o.actions || (key.stem == Rel && a == o.actions + [Remove(key)]);
    }
  }

  function Everything(n: nat): (due: seq<bool>)
    ensures |due| == n
  {
    seq(n, i => true)
  }

  lemma {:induction false} EverythingSelected(list: seq<Flight>, n: nat)
    requires n <= |list|
    ensures Selected(list, Everything(n)) == list[..n]
  {
    if n > 0 {
      EverythingSelected(list, n - 1);
      assert Everything(n)[..n - 1] == Everything(n - 1);
    }
  }

  /** Re-sending everything sends the PUBLISH of a message that awaits its PUBREC. */
  lemma ResendsPublish(v5: bool, trace: seq<Action>, list: seq<Flight>, i: nat)
    requires i < |list| && list[i].msg.qos == 2 && list[i].next == AwaitPubrec
    requires PubrelOutstanding(v5, trace, list[i].msg.id)
    ensures !NoPublishAfterPubrel(v5, trace + ResendAll(v5, list))
  {
    hide NoPublishAfterPubrel, PubrelOutstanding, ResendAll;
    var f, id := list[i], list[i].msg.id;
    var pre, post := list[..i], list[i + 1..];
    assert list == pre + ([f] + post);
    ResendAllSplit(v5, pre, [f] + post);
    ResendAllSplit(v5, [f], post);
    ResendEndsNothing(v5, pre, id);
    var put := Put(Key(Sent, v5, id), PublishRecord(f.msg, true));
    OneResent(v5, f);
    var before := ResendAll(v5, pre) + [put];
    OutstandingStays(v5, trace, before, id);
    PublishWhileOutstanding(v5, trace + before, id, true, ResendAll(v5, post));
    assert trace + ResendAll(v5, list) == trace + before + [SendPublish(id, true)] + ResendAll(v5, post);
  }

  lemma OneResent(v5: bool, f: Flight)
    requires f.msg.qos == 2 && f.next == AwaitPubrec
    ensures ResendAll(v5, [f])
         == [Put(Key(Sent, v5, f.msg.id), PublishRecord(f.msg, true)), SendPublish(f.msg.id, true)]
  {
    assert [f][..0] == [];
    assert ResendAll(v5, []) == [];
  }

  /** After a cut that splits the records of a message, it is found waiting for its PUBREC. */
  lemma SplitRegresses(s: Session, mv: Move, id: int) returns (i: nat)
    requires Inv(s) && CanMove(s, mv) && mv.Torn? && mv.e.Clean? && Splits(s.v5, mv.e.keys, mv.n, id)
    ensures var list := MoveSession(s, mv).outbound;
            i < |list| && list[i].msg.id == id && list[i].msg.qos == 2 && list[i].next == AwaitPubrec
  {
    hide Inv, StoreOk, OutboundMatches, InboundMatches, NoOrphans, Apply;
    var cut := Apply(s.store, DiscardAll(mv.e.keys)[..mv.n]);
    CutEffect(s.store, mv.e.keys, mv.n);
    var t := MoveSession(s, mv);
    MoveKeeps(s, mv);
    CutFinds(s, mv, cut, id);
    i := StoredIsListed(t, id);
  }

  lemma CutFinds(s: Session, mv: Move, cut: Store, id: int)
    requires Inv(s) && CanMove(s, mv) && mv.Torn? && mv.e.Clean? && Splits(s.v5, mv.e.keys, mv.n, id)
    requires cut == Apply(s.store, DiscardAll(mv.e.keys)[..mv.n])
    ensures var t := MoveSession(s, mv);
            var k := Key(Sent, s.v5, id);
            k in t.store && t.store[k].PublishRecord? && t.store[k].msg.qos == 2 && Key(Rel, s.v5, id) !in t.store
  {
    hide OutboundMatches, InboundMatches, NoOrphans, Apply, StoreOk, Step, Lists;
    CutEffect(s.store, mv.e.keys, mv.n);
    CutStoreOk(s, mv);
    RestartSweeps(Crashed(s, cut), mv.keys);
    SplitRecords(s.v5, s.store, id);
    assert !Orphan(s.v5, cut, Key(Sent, s.v5, id));
  }

  lemma RestartSweeps(mid: Session, keys: seq<Key>)
    requires StoreOk(mid.v5, mid.store) && Lists(keys, mid.store)
    ensures Swept(mid.v5, mid.store, keys, Step(mid, Restart(keys)).store)
  {
    hide Apply, StoreOk, RestoreKeys, AllPermitted, Swept, Wrap, InsertAll, SentFlights, ReceivedFlights;
    RestoreScan(mid.v5, mid.store, keys);
  }

  /** A message with both records is a QoS 2 message. */
  lemma SplitRecords(v5: bool, store: Store, id: int)
    requires StoreOk(v5, store) && Key(Sent, v5, id) in store && Key(Rel, v5, id) in store
    ensures store[Key(Sent, v5, id)].PublishRecord? && store[Key(Sent, v5, id)].msg.qos == 2
  {
    assert RecordOk(v5, store, Key(Rel, v5, id));
  }

  lemma StoredIsListed(t: Session, id: int) returns (i: nat)
    requires Inv(t) && Key(Sent, t.v5, id) in t.store && t.store[Key(Sent, t.v5, id)].PublishRecord?
    requires t.store[Key(Sent, t.v5, id)].msg.qos == 2 && Key(Rel, t.v5, id) !in t.store
    ensures i < |t.outbound| && t.outbound[i].msg.id == id && t.outbound[i].msg.qos == 2
    ensures t.outbound[i].next == AwaitPubrec
  {
    i := IndexOf(t.outbound, id);
    assert Mirrors(t.v5, t.store, t.outbound[i]);
  }

  /** The cut, and then the re-sending of everything on reconnect. */
  ghost function CutThenRetry(w: World, mv: Move): World
    requires CanMove(w.s, mv)
  {
    After(After(w, mv), Whole(Retry(Everything(|MoveSession(w.s, mv).outbound|))))
  }

  /**
    The condition is exact: when a crash cuts the cleaning of a session, the PUBLISHes that the next
    reconnect re-sends respect the order if and only if the cut falls between the two records of no
    message whose PUBREL is out.
  */
  lemma CleanCutSafeIff(w: World, mv: Move)
    requires Inv(w.s) && TraceOk(w.s.v5, w.s.store, w.trace) && CanMove(w.s, mv) && mv.Torn? && mv.e.Clean?
    ensures NoPublishAfterPubrel(w.s.v5, CutThenRetry(w, mv).trace) <==> SafeCut(w.s.v5, w.trace, mv.e.keys, mv.n)
  {
    hide Inv, NoPublishAfterPubrel, PubrelOutstanding, MoveSession, MoveActions, Splits, Lists;
    if SafeCut(w.s.v5, w.trace, mv.e.keys, mv.n) {
      SafeThenRetry(w, mv);
    } else {
      var id :| PubrelOutstanding(w.s.v5, w.trace, id) && Splits(w.s.v5, mv.e.keys, mv.n, id);
      UnsafeThenRetry(w, mv, id);
    }
  }

  lemma SafeThenRetry(w: World, mv: Move)
    requires Inv(w.s) && TraceOk(w.s.v5, w.s.store, w.trace) && CanMove(w.s, mv) && SafeMove(w, mv)
    ensures NoPublishAfterPubrel(w.s.v5, CutThenRetry(w, mv).trace)
  {
    hide Inv, NoPublishAfterPubrel, OutstandingStored, MoveSession, MoveActions, SafeCut, CanMove;
    var w1 := After(w, mv);
    RetryTrace(w1);
    MoveKeeps(w.s, mv);
    SameVersion(w.s, mv);
    MoveTrace(w, mv);
    MoveTrace(w1, Whole(Retry(Everything(|w1.s.outbound|))));
  }

  lemma UnsafeThenRetry(w: World, mv: Move, id: int)
    requires Inv(w.s) && CanMove(w.s, mv) && mv.Torn? && mv.e.Clean?
    requires PubrelOutstanding(w.s.v5, w.trace, id) && Splits(w.s.v5, mv.e.keys, mv.n, id)
    ensures !NoPublishAfterPubrel(w.s.v5, CutThenRetry(w, mv).trace)
  {
    hide Inv, NoPublishAfterPubrel, PubrelOutstanding, MoveSession, MoveActions, Splits, CanMove;
    var w1 := After(w, mv);
    RetryTrace(w1);
    SameVersion(w.s, mv);
    var i := SplitRegresses(w.s, mv, id);
    CutKeepsOutstanding(w, mv, id);
    ResendsPublish(w.s.v5, w1.trace, w1.s.outbound, i);
  }

  lemma RetryTrace(w: World)
    ensures CanMove(w.s, Whole(Retry(Everything(|w.s.outbound|))))
    ensures After(w, Whole(Retry(Everything(|w.s.outbound|)))).trace == w.trace + ResendAll(w.s.v5, w.s.outbound)
  {
    EverythingSelected(w.s.outbound, |w.s.outbound|);
    assert w.s.outbound[..|w.s.outbound|] == w.s.outbound;
  }

  lemma CutKeepsOutstanding(w: World, mv: Move, id: int)
    requires CanMove(w.s, mv) && mv.Torn? && mv.e.Clean? && Splits(w.s.v5, mv.e.keys, mv.n, id)
    requires PubrelOutstanding(w.s.v5, w.trace, id)
    ensures PubrelOutstanding(w.s.v5, After(w, mv).trace, id)
  {
    hide PubrelOutstanding, Apply, RestoreKeys;
    var keys, n := mv.e.keys, mv.n;
    var gone := DiscardAll(keys)[..n];
    var cut := Apply(w.s.store, gone);
    assert Handle(w.s, mv.e).actions == DiscardAll(keys);
    assert forall i :: 0 <= i < n ==> keys[i] != Key(Sent, w.s.v5, id) by {
      var j :| 0 <= j < |keys[n..]| && keys[n..][j] == Key(Sent, w.s.v5, id);
      assert keys[n + j] == Key(Sent, w.s.v5, id);
    }
    OutstandingStays(w.s.v5, w.trace, gone, id);
    var more := RestorePackets(w.s.v5, cut, mv.keys).actions;
    SweepEndsNothing(w.s.v5, cut, mv.keys, id);
    OutstandingStays(w.s.v5, w.trace + gone, more, id);
    assert w.trace + gone + more == w.trace + (gone + more);
  }

  // ---------- it happens ----------

  /** What has gone on when the cut comes. */
  function PubrelSent(v5: bool, m: Message): seq<Action> {
    [Put(Key(Sent, v5, m.id), PublishRecord(m, false)), SendPublish(m.id, false)]
    + [Put(Key(Rel, v5, m.id), PubrelRecord(m.id)), SendPubrel(m.id)]
  }

  /** A client with one message out: next tells how far it has got. */
  function OneOut(v5: bool, m: Message, next: Next): Session {
    var sent: Store := map[Key(Sent, v5, m.id) := PublishRecord(m, false)];
    Session(v5, [Flight(m, next)], [],
            if next == AwaitPubcomp then sent[Key(Rel, v5, m.id) := PubrelRecord(m.id)] else sent)
  }

  lemma FirstSent(v5: bool, m: Message)
    requires 1 <= m.id <= MAX_MSG_ID && m.qos == 2
    ensures CanMove(Fresh(v5).s, Whole(Publish(m)))
    ensures After(Fresh(v5), Whole(Publish(m))) == World(OneOut(v5, m, AwaitPubrec), PubrelSent(v5, m)[..2])
  {
    var s := Fresh(v5).s;
    Pair(s.store, PubrelSent(v5, m)[0], PubrelSent(v5, m)[1]);
    assert s.store[Key(Sent, v5, m.id) := PublishRecord(m, false)] == OneOut(v5, m, AwaitPubrec).store;
    assert PubrelSent(v5, m)[..2] == Handle(s, Publish(m)).actions;
  }

  lemma PubrelFollows(v5: bool, m: Message)
    requires m.qos == 2
    ensures var w := World(OneOut(v5, m, AwaitPubrec), PubrelSent(v5, m)[..2]);
            && CanMove(w.s, Whole(PubrecIn(m.id, false)))
            && After(w, Whole(PubrecIn(m.id, false))) == World(OneOut(v5, m, AwaitPubcomp), PubrelSent(v5, m))
  {
    var s, two := OneOut(v5, m, AwaitPubrec), PubrelSent(v5, m)[2..];
    Pair(s.store, two[0], two[1]);
    assert IndexOf(s.outbound, m.id) == 0;
    assert Handle(s, PubrecIn(m.id, false)).actions == two;
    assert s.outbound[0 := Flight(m, AwaitPubcomp)] == [Flight(m, AwaitPubcomp)];
  }

  /** The PUBREL record is erased, the PUBLISH record is not. */
  lemma CutBetween(v5: bool, m: Message, trace: seq<Action>)
    requires m.qos == 2
    ensures var sent, rel := Key(Sent, v5, m.id), Key(Rel, v5, m.id);
            var w, cut := World(OneOut(v5, m, AwaitPubcomp), trace), Torn(Clean([rel, sent]), 1, [sent]);
            && CanMove(w.s, cut)
            && After(w, cut) == World(OneOut(v5, m, AwaitPubrec), trace + [Discard(rel)])
  {
    hide RestorePackets, Apply, OneOut, Lists;
    var sent, rel := Key(Sent, v5, m.id), Key(Rel, v5, m.id);
    var s, one := OneOut(v5, m, AwaitPubcomp), OneOut(v5, m, AwaitPubrec);
    FirstErased(v5, m);
    LoneSentRestart(v5, m);
    assert [Discard(rel)] + [] == [Discard(rel)];
  }

  lemma FirstErased(v5: bool, m: Message)
    ensures var sent, rel := Key(Sent, v5, m.id), Key(Rel, v5, m.id);
            var s, one := OneOut(v5, m, AwaitPubcomp), OneOut(v5, m, AwaitPubrec);
            && Lists([rel, sent], s.store)
            && DiscardAll([rel, sent])[..1] == [Discard(rel)]
            && Apply(s.store, [Discard(rel)]) == one.store && Apply(one.store, []) == one.store
            && s.v5 == one.v5 == v5 && one == Session(v5, [Flight(m, AwaitPubrec)], [], one.store)
  {
    var s, one := OneOut(v5, m, AwaitPubcomp), OneOut(v5, m, AwaitPubrec);
    var rel := Key(Rel, v5, m.id);
    Single(s.store, Discard(rel));
    assert s.store - {rel} == one.store;
  }

  lemma LoneSentRestart(v5: bool, m: Message)
    requires m.qos == 2
    ensures var k, store := Key(Sent, v5, m.id), OneOut(v5, m, AwaitPubrec).store;
            Lists([k], store) && RestorePackets(v5, store, [k]) == Outcome([], [Flight(m, AwaitPubrec)], [])
  {
    var k, store := Key(Sent, v5, m.id), OneOut(v5, m, AwaitPubrec).store;
    assert [k][..0] == [];
    assert RestoreKeys(v5, store, []) == Outcome([], [], []);
    assert Apply(store, []) == store;
    assert RestoreKeys(v5, store, [k]) == Outcome([], [Flight(m, AwaitPubrec)], []);
    assert WrapIndex(Keys(IdOf, [Flight(m, AwaitPubrec)]), 1, 0) == 0;
  }

  lemma OneRetried(v5: bool, m: Message, trace: seq<Action>)
    requires m.qos == 2
    ensures var w, retry := World(OneOut(v5, m, AwaitPubrec), trace), Whole(Retry([true]));
            && CanMove(w.s, retry)
            && After(w, retry).trace
               == trace + [Put(Key(Sent, v5, m.id), PublishRecord(m, true)), SendPublish(m.id, true)]
  {
    hide Resend, Apply, ResendAll, Selected;
    var f := Flight(m, AwaitPubrec);
    OneSelected(f);
    OneResent(v5, f);
  }

  lemma OneSelected(f: Flight)
    ensures Selected([f], [true]) == [f]
  {
    assert [true][..0] == [] && Selected([f], []) == [];
  }

  /**
    The order does fail: a message of QoS 2 has its PUBREL out, the session is cleaned, the store lists
    the PUBREL record first, and the client stops between the two removals.  On the next connect the
    PUBLISH goes out again.
  */
  lemma CutCleaningRepublishes(v5: bool, m: Message)
    requires 1 <= m.id <= MAX_MSG_ID && m.qos == 2
    ensures var sent, rel := Key(Sent, v5, m.id), Key(Rel, v5, m.id);
            var moves := [Whole(Publish(m)), Whole(PubrecIn(m.id, false)),
                          Torn(Clean([rel, sent]), 1, [sent]), Whole(Retry([true]))];
            && CanRun(Fresh(v5).s, moves)
            && !NoPublishAfterPubrel(v5, Run(Fresh(v5), moves).trace)
  {
    hide CanMove, After, NoPublishAfterPubrel, OneOut;
    var sent, rel := Key(Sent, v5, m.id), Key(Rel, v5, m.id);
    var a, b := Whole(Publish(m)), Whole(PubrecIn(m.id, false));
    var c, d := Torn(Clean([rel, sent]), 1, [sent]), Whole(Retry([true]));
    FirstSent(v5, m);
    PubrelFollows(v5, m);
    CutBetween(v5, m, PubrelSent(v5, m));
    OneRetried(v5, m, PubrelSent(v5, m) + [Discard(rel)]);
    RunFour(Fresh(v5), a, b, c, d);
    OutOfOrder(v5, m);
  }

  lemma OutOfOrder(v5: bool, m: Message)
    ensures !NoPublishAfterPubrel(v5, PubrelSent(v5, m) + [Discard(Key(Rel, v5, m.id))]
              + [Put(Key(Sent, v5, m.id), PublishRecord(m, true)), SendPublish(m.id, true)])
  {
    var trace := PubrelSent(v5, m) + [Discard(Key(Rel, v5, m.id))]
                 + [Put(Key(Sent, v5, m.id), PublishRecord(m, true)), SendPublish(m.id, true)];
    assert Follows(trace, 3, 6);
    assert forall k :: 3 < k < 6 ==> !Ends(trace[k], v5, m.id);
    assert !EndsBetween(v5, trace, 3, 6, m.id);
  }
}
