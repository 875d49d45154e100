/** Why a callback fires, and that a finished command gets exactly one. */
module EngineCallbacks {
  import opened Sequences
  import opened Engine
  import opened EngineConservation
  import opened EngineEffects
  import opened EngineLists

  // ---------- causes ----------

  /** The step reports success of c: a QoS 0 message was written, or an acknowledgement for it came, without
      an error unless none can be reported. */
  ghost predicate SuccessCause(st: State, s: Step, c: Command) {
    match s
    case DoProcess(_, i, rc) => i < |st.commands| && c == st.commands[i] && c.kind == Publish(0) && rc == Complete
    case DoWriteComplete(client, written) =>
      && c in st.responses && c.client == client && c.kind == Publish(0) && written == 1
      && client in st.clients && st.clients[client].pendingWrite == Some(c.uid)
    case DoAcknowledge(client, ack, token, error, _) =>
      && c in st.responses && c.client == client && c.token == token
      && (error ==> ack == Unsuback || (ack != Suback && c.cb.onSuccess))
    case _ => false
  }

  /** The step reports failure of c: a write failed, an acknowledgement carried an error, or the client's
      commands were given up. */
  ghost predicate FailureCause(st: State, s: Step, c: Command) {
    match s
    case DoProcess(_, i, rc) => i < |st.commands| && c == st.commands[i] && rc == Failed
    case DoWriteComplete(client, written) =>
      && c in st.responses && c.client == client && c.kind.Publish? && written == -1
      && client in st.clients && st.clients[client].pendingWrite == Some(c.uid)
    case DoAcknowledge(client, ack, token, error, _) =>
      c in st.responses && c.client == client && c.token == token && error && ack != Unsuback
    case DoFreeResponses(client) => c in st.responses && c.client == client
    case DoDestroy(client) => (c in st.responses || c in st.commands) && c.client == client
    case _ => false
  }

  ghost predicate Cause(st: State, s: Step, f: Fired) {
    exists c: Command :: c.uid == f.uid && App(c)
        && if f.success then SuccessCause(st, s, c) else FailureCause(st, s, c)
  }

  /** The step adds calls, all of them with a cause. */
  ghost predicate AddsCaused(st: State, s: Step, calls: seq<Fired>, t: State) {
    t.fired == st.fired + calls && forall k :: 0 <= k < |calls| ==> Cause(st, s, calls[k])
  }

  lemma CausedBy(st: State, s: Step, calls: seq<Fired>, c: Command, t: State)
    requires Own(calls, c) && t.fired == st.fired + calls && App(c)
    requires calls != [] ==> if calls[0].success then SuccessCause(st, s, c) else FailureCause(st, s, c)
    ensures AddsCaused(st, s, calls, t)
  {
    hide SuccessCause, FailureCause;
  }

  lemma ProcessCaused(st: State, s: Step) returns (calls: seq<Fired>)
    requires Enabled(st, s) && s.DoProcess?
    ensures AddsCaused(st, s, calls, Next(st, s))
  {
    hide AddsCaused, Cause, Without, Charged;
    var c := st.commands[s.i];
    var t := Process(st, s.i, s.rc);
    if !App(c) {
      calls := [];
      NoneAdded(st, s, t);
    } else if s.rc == Failed {
      calls := OnFailure(c);
      CausedBy(st, s, calls, c, t);
    } else if c.kind == Publish(0) && s.rc == Complete {
      calls := OnSuccess(c);
      CausedBy(st, s, calls, c, t);
    } else {
      calls := [];
      NoneAdded(st, s, t);
    }
  }

  lemma NoneAdded(st: State, s: Step, t: State)
    requires t.fired == st.fired
    ensures AddsCaused(st, s, [], t)
  {
    assert st.fired + [] == st.fired;
  }

  lemma WriteCompleteCaused(st: State, s: Step) returns (calls: seq<Fired>)
    requires Enabled(st, s) && s.DoWriteComplete? && AllApp(st.responses)
    ensures AddsCaused(st, s, calls, Next(st, s))
  {
    hide AddsCaused, Cause, Without, Find;
    var t := WriteComplete(st, s.client, s.written);
    var info := st.clients[s.client];
    calls := [];
    var i := if info.pendingWrite.None? then -1 else Find(st.responses, s.client, WithUid(info.pendingWrite.value));
    if i < 0 {
      NoneAdded(st, s, t);
    } else {
      var c := st.responses[i];
      if c.kind == Publish(0) && s.written == 1 {
        calls := OnSuccess(c);
      } else if c.kind.Publish? && s.written == -1 {
        calls := OnFailure(c);
      }
      CausedBy(st, s, calls, c, t);
    }
  }

  lemma AcknowledgeCaused(st: State, s: Step) returns (calls: seq<Fired>)
    requires Enabled(st, s) && s.DoAcknowledge? && AllApp(st.responses)
    ensures AddsCaused(st, s, calls, Next(st, s))
  {
    hide AddsCaused, Cause, Without, Find;
    var t := Acknowledge(st, s.client, s.ack, s.token, s.error, s.gone);
    var i := Find(st.responses, s.client, WithToken(s.token));
    calls := [];
    if i < 0 || (s.ack == Pubrec && !s.error) {
      NoneAdded(st, s, t);
    } else {
      var c := st.responses[i];
      calls := AckCalls(c, s.ack, st.clients[s.client].v5, s.error);
      CausedBy(st, s, calls, c, t);
    }
  }

  /** Who is told when a client's commands are given up: its own, as failures. */
  lemma {:induction false} FailAllFrom(s: seq<Command>, client: int, k: nat) returns (c: Command)
    requires k < |FailAll(Mine(s, client))|
    ensures c in s && c.client == client && App(c) && FailAll(Mine(s, client))[k] == Fired(c.uid, false)
  {
    var init, last := s[..|s| - 1], s[|s| - 1];
    assert s == init + [last];
    var mine := Mine(init, client);
    if last.client == client {
      assert (mine + [last])[..|mine|] == mine;
      if k < |FailAll(mine)| {
        c := FailAllFrom(init, client, k);
      } else {
        c := last;
      }
    } else {
      assert Mine(s, client) == mine;
      c := FailAllFrom(init, client, k);
    }
  }

  lemma FreeCaused(st: State, s: Step) returns (calls: seq<Fired>)
    requires Enabled(st, s) && (s.DoFreeResponses? || s.DoDestroy?)
    ensures AddsCaused(st, s, calls, Next(st, s))
  {
    hide Mine, Others, FailAll, Uids;
    var a := FailAll(Mine(st.responses, s.client));
    var b := if s.DoDestroy? then FailAll(Mine(st.commands, s.client)) else [];
    calls := a + b;
    assert Next(st, s).fired == st.fired + calls;
    forall k | 0 <= k < |calls| ensures Cause(st, s, calls[k]) {
      if k < |a| {
        var c := FailAllFrom(st.responses, s.client, k);
        assert FailureCause(st, s, c);
      } else {
        var c := FailAllFrom(st.commands, s.client, k - |a|);
        assert FailureCause(st, s, c);
      }
    }
  }

  lemma StepCaused(st: State, s: Step) returns (calls: seq<Fired>)
    requires Conserved(st) && Enabled(st, s)
    ensures AddsCaused(st, s, calls, Next(st, s))
  {
    hide AddsCaused, Process, WriteComplete, Acknowledge, FreeResponses, Destroy, Find, Without, Uids;
    match s
    case DoProcess(_, _, _) => calls := ProcessCaused(st, s);
    case DoWriteComplete(_, _) => calls := WriteCompleteCaused(st, s);
    case DoAcknowledge(_, _, _, _, _) => calls := AcknowledgeCaused(st, s);
    case DoFreeResponses(_) => calls := FreeCaused(st, s);
    case DoDestroy(_) => calls := FreeCaused(st, s);
    case _ =>
      calls := [];
      NoneAdded(st, s, Next(st, s));
  }

  /** Some step of the run is the cause. */
  ghost predicate CausedIn(st: State, steps: seq<Step>, f: Fired)
    requires CanRun(st, steps)
    decreases |steps|
  {
    steps != [] && (Cause(st, steps[0], f) || CausedIn(Next(st, steps[0]), steps[1..], f))
  }

  lemma {:induction false} RunCaused(st: State, steps: seq<Step>, f: Fired)
    requires Conserved(st) && CanRun(st, steps) && f in Run(st, steps).fired
    ensures f in st.fired || CausedIn(st, steps, f)
    decreases |steps|
  {
    hide Conserved, Cause;
    if steps != [] {
      StepConserves(st, steps[0]);
      var calls := StepCaused(st, steps[0]);
      RunCaused(Next(st, steps[0]), steps[1..], f);
    }
  }

  /** Over every run: a success or failure callback has fired only because of a step that is a cause of it. */
  lemma NoCallbackWithoutCause(steps: seq<Step>, f: Fired)
    requires CanRun(Initial(), steps) && f in Run(Initial(), steps).fired
    ensures CausedIn(Initial(), steps, f)
  {
    RunCaused(Initial(), steps, f);
  }

  // ---------- exactly one ----------

  ghost predicate In(st: State, c: Command) {
    c in st.commands || c in st.responses
  }

  /** The pair of callbacks of the client's version.  MQTTAsync_send and its like refuse only those of the other
      version: a caller may also leave out one of the pair, or both. */
  predicate Both(cb: Callbacks, v5: bool) {
    cb == if v5 then Callbacks(false, false, true, true) else Callbacks(true, true, false, false)
  }

  /** Numbers are given once, and a write that is remembered as unfinished is that of a QoS 0 message. */
  ghost predicate Told(st: State) {
    && (forall c :: In(st, c) ==> c.uid < st.nextUid)
    && (forall a, b :: In(st, a) && In(st, b) && a.uid == b.uid ==> a == b)
    && (forall d :: d in st.clients && st.clients[d].pendingWrite.Some? ==>
         PendingOk(st, st.clients[d].pendingWrite.value))
  }

  ghost predicate PendingOk(st: State, uid: nat) {
    uid < st.nextUid && forall c :: In(st, c) && c.uid == uid ==> c.kind == Publish(0)
  }

  /** The command u, wherever it is, has both callbacks of its client's version. */
  ghost predicate Equipped(st: State, u: nat) {
    forall c :: In(st, c) && c.uid == u && App(c) ==> c.client in st.clients && Both(c.cb, st.clients[c.client].v5)
  }

  ghost predicate OnePerFinish(st: State, u: nat) {
    FiredUids(st.fired)[u] == st.finished[u]
  }

  ghost predicate Exact(st: State, u: nat) {
    Told(st) && Equipped(st, u) && OnePerFinish(st, u)
  }

  // how the members of the two lists change

  lemma MembersShrink(st: State, t: State, u: nat)
    requires Told(st) && Equipped(st, u)
    requires t.nextUid >= st.nextUid
    requires forall c :: In(t, c) ==> In(st, c) && (c.client in st.clients ==> c.client in t.clients)
    requires forall d :: d in t.clients ==> d in st.clients && t.clients[d].v5 == st.clients[d].v5
    requires forall d :: d in t.clients && t.clients[d].pendingWrite.Some? ==>
               t.clients[d].pendingWrite == st.clients[d].pendingWrite || PendingOk(st, t.clients[d].pendingWrite.value)
    ensures Told(t) && Equipped(t, u)
  {
    hide In;
  }

  lemma MembersGrow(st: State, t: State, added: seq<Command>, u: nat)
    requires Told(st) && Equipped(st, u)
    requires t.nextUid >= st.nextUid + |added|
    requires forall i :: 0 <= i < |added| ==> added[i].uid == st.nextUid + i
    requires forall c :: In(t, c) ==> In(st, c) || c in added
    requires forall d :: d in st.clients ==> d in t.clients && t.clients[d].v5 == st.clients[d].v5
                                             && t.clients[d].pendingWrite == st.clients[d].pendingWrite
    requires forall d :: d in t.clients && d !in st.clients ==> t.clients[d].pendingWrite.None?
    requires forall c :: c in added && c.uid == u && App(c) ==>
               c.client in t.clients && Both(c.cb, t.clients[c.client].v5)
    ensures Told(t) && Equipped(t, u)
  {
    hide In;
  }

  lemma InWithout(s: seq<Command>, i: nat)
    requires i < |s|
    ensures forall c :: c in Without(s, i) ==> c in s
  {
  }

  // the steps

  lemma EnqueueExact(st: State, s: Step, u: nat)
    requires Exact(st, u) && Enabled(st, s) && s.DoEnqueue?
    requires st.nextUid == u ==> Both(st.sending[s.k].cb, st.clients[st.sending[s.k].client].v5)
    ensures Exact(Next(st, s), u)
  {
    hide Told, Equipped, Find, Without, FiredUids;
    var x, st1 := st.sending[s.k], st.(sending := Without(st.sending, s.k));
    var cmd := Command(st.nextUid, x.client, x.kind, x.token, x.cb);
    var longer := st.commands + [cmd];
    var t := Next(st, s);
    AcceptClients(st1, x.client, x.kind, x.token, x.cb);
    if x.kind.Publish? && Full(st.clients[x.client]) && Find(longer, x.client, APublish) >= 0 {
      InWithout(longer, Find(longer, x.client, APublish));
    }
    MembersGrow(st, t, [cmd], u);
  }

  /** The steps before a command is queued. */
  lemma TalkExact(st: State, s: Step, u: nat)
    requires Exact(st, u) && Enabled(st, s) && Talks(s)
    ensures Exact(Next(st, s), u)
  {
    hide FiredUids, OnePerFinish, Told, Equipped, UsedIds, TokenInUse, Full;
    MembersShrink(st, Next(st, s), u);
    SameCalls(st, Next(st, s), u);
  }

  lemma AcceptControlExact(st: State, s: Step, u: nat)
    requires Exact(st, u) && Enabled(st, s) && s.DoAcceptControl?
    ensures Exact(Next(st, s), u)
  {
    hide Told, Equipped, Without, FiredUids;
    var cmd := Command(st.nextUid, s.client, s.kind, 0, s.cb);
    var t := Next(st, s);
    if s.victim >= 0 {
      InWithout(st.commands, s.victim);
    }
    MembersGrow(st, t, [cmd], u);
  }

  lemma CreateExact(st: State, s: Step, u: nat)
    requires Exact(st, u) && Enabled(st, s) && s.DoCreate?
    requires forall i :: 0 <= i < |s.restored| && s.restored[i].uid == u ==> Both(s.restored[i].cb, s.info.v5)
    ensures Exact(Next(st, s), u)
  {
    hide Told, Equipped, FiredUids, Uids, CountPublish;
    MembersGrow(st, Next(st, s), s.restored, u);
  }

  /** A command is finished with calls: one for u if it is u. */
  lemma FinishOne(st: State, t: State, c: Command, calls: seq<Fired>, u: nat)
    requires OnePerFinish(st, u) && Own(calls, c) && (c.uid == u ==> calls != [])
    requires t.finished == st.finished + multiset{c.uid} && t.fired == st.fired + calls
    ensures OnePerFinish(t, u)
  {
    FiredConcat(st.fired, calls);
    OwnCount(calls, c);
  }

  lemma ProcessExact(st: State, s: Step, u: nat)
    requires Exact(st, u) && Enabled(st, s) && s.DoProcess?
    ensures Exact(Next(st, s), u)
  {
    hide Without, FiredUids, OnePerFinish, Told, Equipped;
    var c, t := st.commands[s.i], Next(st, s);
    InWithout(st.commands, s.i);
    ProcessClients(st, s.i, s.rc);
    PendingQos0(st, c);
    EquippedHas(st, c, u);
    MembersShrink(st, t, u);
    if App(c) {
      if s.rc == Failed {
        FinishOne(st, t, c, OnFailure(c), u);
      } else if c.kind == Publish(0) && s.rc == Complete {
        FinishOne(st, t, c, OnSuccess(c), u);
      } else {
        SameCalls(st, t, u);
      }
    } else {
      SameCalls(st, t, u);
    }
  }

  lemma SameCalls(st: State, t: State, u: nat)
    requires OnePerFinish(st, u) && t.fired == st.fired && t.finished == st.finished
    ensures OnePerFinish(t, u)
  {
  }

  lemma PendingQos0(st: State, c: Command)
    requires Told(st) && In(st, c)
    ensures c.kind == Publish(0) ==> PendingOk(st, c.uid)
  {
  }

  lemma EquippedHas(st: State, c: Command, u: nat)
    requires Equipped(st, u) && In(st, c)
    ensures App(c) && c.uid == u ==> c.client in st.clients && Both(c.cb, st.clients[c.client].v5)
  {
  }

  /** A response is answered, and the client's record of the message goes. */
  lemma AnswerExact(st: State, st1: State, client: int, i: nat, calls: seq<Fired>, u: nat)
    requires Exact(st, u) && AllApp(st.responses) && i < |st.responses| && Own(calls, st.responses[i])
    requires st.responses[i].uid == u ==> calls != []
    requires client in st.clients && OnlyClient(st, st1, client)
    ensures Exact(Answer(st1, i, calls), u)
  {
    hide Without, FiredUids, OnePerFinish, Told, Equipped;
    var t := Answer(st1, i, calls);
    InWithout(st.responses, i);
    MembersShrink(st, t, u);
    FinishOne(st, t, st.responses[i], calls, u);
  }

  /** Only this client has changed, and neither its version nor, except to be cleared, its pending write. */
  ghost predicate OnlyClient(st: State, t: State, client: int)
    requires client in st.clients
  {
    && t.(clients := st.clients) == st && client in t.clients && t.clients == st.clients[client := t.clients[client]]
    && t.clients[client].v5 == st.clients[client].v5
    && (t.clients[client].pendingWrite.None? || t.clients[client].pendingWrite == st.clients[client].pendingWrite)
  }

  lemma OnlyClientExact(st: State, t: State, client: int, u: nat)
    requires Exact(st, u) && client in st.clients && OnlyClient(st, t, client)
    ensures Exact(t, u)
  {
    hide FiredUids, OnePerFinish, Told, Equipped;
    MembersShrink(st, t, u);
    SameCalls(st, t, u);
  }

  lemma WriteCompleteExact(st: State, s: Step, u: nat)
    requires Exact(st, u) && AllApp(st.responses) && Enabled(st, s) && s.DoWriteComplete?
    ensures Exact(Next(st, s), u)
  {
    hide Exact, Without, Find;
    var info := st.clients[s.client];
    if info.pendingWrite.Some? {
      var st1 := SetClient(st, s.client, info.(pendingWrite := None));
      OnlyClientExact(st, st1, s.client, u);
      var i := Find(st.responses, s.client, WithUid(info.pendingWrite.value));
      if i >= 0 {
        var c := st.responses[i];
        PendingKind(st, s.client, c, u);
        if s.written == 1 {
          AnswerExact(st, st1, s.client, i, OnSuccess(c), u);
        } else if s.written == -1 {
          AnswerExact(st, st1, s.client, i, OnFailure(c), u);
        }
      }
    }
  }

  lemma PendingKind(st: State, client: int, c: Command, u: nat)
    requires Exact(st, u) && client in st.clients && c in st.responses && App(c)
    ensures st.clients[client].pendingWrite == Some(c.uid) ==> c.kind == Publish(0)
    ensures c.uid == u ==> c.client in st.clients && Both(c.cb, st.clients[c.client].v5)
  {
    assert In(st, c);
  }

  lemma AcknowledgeExact(st: State, s: Step, u: nat)
    requires Exact(st, u) && AllApp(st.responses) && Enabled(st, s) && s.DoAcknowledge?
    ensures Exact(Next(st, s), u)
  {
    hide Exact, Without, Find;
    var info := st.clients[s.client];
    assert st.clients == st.clients[s.client := info];
    var st1 := if s.gone < 0 then st else SetClient(st, s.client, info.(outbound := Without(info.outbound, s.gone)));
    OnlyClientExact(st, st1, s.client, u);
    var i := Find(st.responses, s.client, WithToken(s.token));
    if i >= 0 && !(s.ack == Pubrec && !s.error) {
      var c := st.responses[i];
      PendingKind(st, s.client, c, u);
      AnswerExact(st, st1, s.client, i, AckCalls(c, s.ack, info.v5, s.error), u);
    }
  }

  /** Giving up commands tells u exactly as often as it was among them. */
  lemma {:induction false} FailAllExact(s: seq<Command>, u: nat)
    requires forall c :: c in s && c.uid == u && App(c) ==> c.cb.onFailure || c.cb.onFailure5
    ensures FiredUids(FailAll(s))[u] == Uids(s)[u]
  {
    if s != [] {
      var init, c := s[..|s| - 1], s[|s| - 1];
      assert c in s && forall x :: x in init ==> x in s;
      FailAllExact(init, u);
      var calls := if App(c) then OnFailure(c) else [];
      FiredConcat(FailAll(init), calls);
      OwnCount(calls, c);
    }
  }

  lemma OwnCount(calls: seq<Fired>, c: Command)
    requires Own(calls, c)
    ensures FiredUids(calls) == if calls == [] then multiset{} else multiset{c.uid}
  {
    if calls != [] {
      assert calls[..0] == [];
      assert FiredUids(calls) == FiredUids(calls[..0]) + multiset{c.uid};
    }
  }

  lemma {:induction false} MineFrom(s: seq<Command>, client: int)
    ensures forall c :: c in Mine(s, client) ==> c in s
  {
    if s != [] {
      MineFrom(s[..|s| - 1], client);
      assert s == s[..|s| - 1] + [s[|s| - 1]];
    }
  }

  /** The client's commands of a list are given up. */
  lemma GiveUpOne(st: State, list: seq<Command>, client: int, u: nat, finished: multiset<nat>, fired: seq<Fired>)
    requires Equipped(st, u) && (forall c :: c in list ==> In(st, c))
    requires FiredUids(fired)[u] == finished[u]
    ensures FiredUids(fired + FailAll(Mine(list, client)))[u] == (finished + Uids(Mine(list, client)))[u]
  {
    hide Mine, FailAll, Uids, FiredUids;
    MineFrom(list, client);
    FailAllExact(Mine(list, client), u);
    FiredConcat(fired, FailAll(Mine(list, client)));
  }

  lemma FreeResponsesExact(st: State, client: int, u: nat)
    requires Exact(st, u) && client in st.clients
    ensures Exact(FreeResponses(st, client), u)
  {
    hide Mine, Others, FailAll, Uids, FiredUids, Told, Equipped;
    var t := FreeResponses(st, client);
    OthersFrom(st.responses, client);
    MembersShrink(st, t, u);
    GiveUpOne(st, st.responses, client, u, st.finished, st.fired);
  }

  lemma DestroyExact(st: State, client: int, u: nat)
    requires Exact(st, u) && client in st.clients
    ensures Exact(Destroy(st, client), u)
  {
    hide Mine, Others, FailAll, Uids, FiredUids, Told, Equipped, FreeResponses;
    FreeResponsesExact(st, client, u);
    var st1, t := FreeResponses(st, client), Destroy(st, client);
    DestroyEffect(st, client);
    OthersFrom(st.responses, client);
    OthersFrom(st.commands, client);
    MembersShrink(st, t, u);
    FreeKeepsCommands(st, client);
    GiveUpOne(st1, st1.commands, client, u, st1.finished, st1.fired);
  }

  lemma FreeKeepsCommands(st: State, client: int)
    requires client in st.clients
    ensures FreeResponses(st, client).commands == st.commands
  {
    hide Mine, Others, FailAll, Uids;
  }

  /** u is accepted, if this step accepts it, with both callbacks of its client's version. */
  ghost predicate Fitted(st: State, s: Step, u: nat)
    requires Enabled(st, s)
  {
    match s
    case DoEnqueue(k) => st.nextUid == u ==> Both(st.sending[k].cb, st.clients[st.sending[k].client].v5)
    case DoCreate(_, info, restored) => forall i :: 0 <= i < |restored| && restored[i].uid == u ==>
        Both(restored[i].cb, info.v5)
    case _ => true
  }

  lemma StepExact(st: State, s: Step, u: nat)
    requires Exact(st, u) && AllApp(st.responses) && Enabled(st, s) && Fitted(st, s, u)
    ensures Exact(Next(st, s), u)
  {
    hide Exact, Enqueue, AcceptControl, Process, Destroy, Create, WriteComplete, Acknowledge, FreeResponses, Reserve;
    hide UsedIds, TokenInUse, Chosen, CountPublish;
    if Talks(s) {
      TalkExact(st, s, u);
    } else {
      match s
      case DoEnqueue(_) => EnqueueExact(st, s, u);
      case DoAcceptControl(_, _, _, _) => AcceptControlExact(st, s, u);
      case DoProcess(_, _, _) => ProcessExact(st, s, u);
      case DoWriteComplete(_, _) => WriteCompleteExact(st, s, u);
      case DoAcknowledge(_, _, _, _, _) => AcknowledgeExact(st, s, u);
      case DoFreeResponses(c) => FreeResponsesExact(st, c, u);
      case DoDestroy(c) => DestroyExact(st, c, u);
      case DoCreate(_, _, _) => CreateExact(st, s, u);
      case DoLink(c, _, _) => OnlyClientExact(st, Next(st, s), c, u);
      case DoLimit(c, _) => OnlyClientExact(st, Next(st, s), c, u);
    }
  }

  ghost predicate AllFitted(st: State, steps: seq<Step>, u: nat)
    requires CanRun(st, steps)
    decreases |steps|
  {
    steps == [] || (Fitted(st, steps[0], u) && AllFitted(Next(st, steps[0]), steps[1..], u))
  }

  lemma {:induction false} RunExact(st: State, steps: seq<Step>, u: nat)
    requires Exact(st, u) && Conserved(st) && CanRun(st, steps) && AllFitted(st, steps, u)
    ensures Exact(Run(st, steps), u)
    decreases |steps|
  {
    hide Exact, Fitted, Uids, FiredUids;
    if steps != [] {
      StepConserves(st, steps[0]);
      StepExact(st, steps[0], u);
      RunExact(Next(st, steps[0]), steps[1..], u);
    }
  }

  /**
    A command accepted with the success and failure callbacks of its client's version gets exactly one
    call when it is finished, and none before: over every run, calls for it equal the number of
    times it was finished, which is 0 or 1.
  */
  lemma ExactlyOneCallback(steps: seq<Step>, u: nat)
    requires CanRun(Initial(), steps) && AllFitted(Initial(), steps, u)
    ensures var st := Run(Initial(), steps);
            CallsFor(st.fired, u) == st.finished[u] <= 1
  {
    RunExact(Initial(), steps, u);
    RunConserves(Initial(), steps);
    var st := Run(Initial(), steps);
    assert (Uids(st.commands) + Uids(st.responses) + st.finished + st.dropped)[u] == st.accepted[u];
  }
}
