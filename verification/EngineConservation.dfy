/** No command is lost, doubled or answered twice. */
module EngineConservation {
  import opened Sequences
  import opened Engine

  lemma {:induction false} UidsConcat(a: seq<Command>, b: seq<Command>)
    ensures Uids(a + b) == Uids(a) + Uids(b)
  {
    if b == [] {
      assert a + b == a;
    } else {
      assert (a + b)[..|a + b| - 1] == a + b[..|b| - 1];
      UidsConcat(a, b[..|b| - 1]);
    }
  }

  function UidOf(c: Command): multiset<nat> {
    if App(c) then multiset{c.uid} else multiset{}
  }

  lemma UidsOne(c: Command)
    ensures Uids([c]) == UidOf(c)
  {
    assert [c][..0] == [];
    assert Uids([]) == multiset{};
  }

  lemma UidsWithout(s: seq<Command>, i: nat)
    requires i < |s|
    ensures Uids(s) == Uids(Without(s, i)) + UidOf(s[i])
  {
    hide Uids, UidOf;
    assert s == s[..i] + ([s[i]] + s[i + 1..]);
    UidsConcat(s[..i], [s[i]] + s[i + 1..]);
    UidsConcat([s[i]], s[i + 1..]);
    UidsConcat(s[..i], s[i + 1..]);
    UidsOne(s[i]);
  }

  lemma UidsAppend(s: seq<Command>, c: Command)
    ensures Uids(s + [c]) == Uids(s) + UidOf(c)
  {
    hide Uids, UidOf;
    UidsConcat(s, [c]);
    UidsOne(c);
  }

  lemma UidsEmpty()
    ensures Uids([]) == multiset{}
  {
  }

  lemma {:induction false} UidsSplit(s: seq<Command>, client: int)
    ensures Uids(s) == Uids(Mine(s, client)) + Uids(Others(s, client))
  {
    hide Uids, UidOf;
    if s == [] {
      UidsEmpty();
    } else {
      var init, c := s[..|s| - 1], s[|s| - 1];
      UidsSplit(init, client);
      assert s == init + [c];
      UidsAppend(init, c);
      var mine, others := Mine(init, client), Others(init, client);
      UidsAppend(mine, c);
      UidsAppend(others, c);
      if c.client == client {
        assert Mine(s, client) == mine + [c] && Others(s, client) == others;
      } else {
        assert Mine(s, client) == mine && Others(s, client) == others + [c];
      }
    }
  }

  function FiredUids(f: seq<Fired>): multiset<nat> {
    if f == [] then multiset{} else FiredUids(f[..|f| - 1]) + multiset{f[|f| - 1].uid}
  }

  lemma {:induction false} FiredConcat(a: seq<Fired>, b: seq<Fired>)
    ensures FiredUids(a + b) == FiredUids(a) + FiredUids(b)
  {
    if b == [] {
      assert a + b == a;
    } else {
      assert (a + b)[..|a + b| - 1] == a + b[..|b| - 1];
      FiredConcat(a, b[..|b| - 1]);
    }
  }

  /** A command's callbacks: at most one, and its own. */
  ghost predicate Own(calls: seq<Fired>, c: Command) {
    calls == [] || (|calls| == 1 && calls[0].uid == c.uid)
  }

  lemma OwnUids(calls: seq<Fired>, c: Command)
    requires Own(calls, c)
    ensures FiredUids(calls) <= multiset{c.uid}
  {
    if calls != [] {
      assert calls[..0] == [];
      assert FiredUids(calls) == FiredUids(calls[..0]) + multiset{c.uid};
    }
  }

  lemma {:induction false} FailAllUids(s: seq<Command>)
    ensures FiredUids(FailAll(s)) <= Uids(s)
  {
    if s != [] {
      var init, c := s[..|s| - 1], s[|s| - 1];
      FailAllUids(init);
      var calls := if App(c) then OnFailure(c) else [];
      FiredConcat(FailAll(init), calls);
      OwnUids(calls, c);
    }
  }

  ghost predicate AllApp(s: seq<Command>) {
    forall i :: 0 <= i < |s| ==> App(s[i])
  }

  /** Every accepted command is in exactly one place, and no callback fires before its command is done
      or twice for the same command. */
  ghost predicate Conserved(st: State) {
    && Uids(st.commands) + Uids(st.responses) + st.finished + st.dropped == st.accepted
    && AllApp(st.responses)
    && FiredUids(st.fired) <= st.finished
    && (forall u :: st.accepted[u] <= 1 && (u >= st.nextUid ==> st.accepted[u] == 0))
  }

  // ---------- the steps ----------

  lemma AcceptConserves(st: State, client: int, kind: Kind, token: int, cb: Callbacks)
    requires Conserved(st) && client in st.clients && !kind.Connect? && !kind.Disconnect?
    ensures Conserved(Accept(st, client, kind, token, cb))
  {
    hide Uids, FiredUids;
    var cmd := Command(st.nextUid, client, kind, token, cb);
    UidsAppend(st.commands, cmd);
    var longer := st.commands + [cmd];
    if kind.Publish? && Full(st.clients[client]) {
      var i := Find(longer, client, APublish);
      if i >= 0 {
        UidsWithout(longer, i);
      }
    }
  }

  lemma AcceptControlConserves(st: State, client: int, kind: Kind, cb: Callbacks, victim: int)
    requires Conserved(st) && Enabled(st, DoAcceptControl(client, kind, cb, victim))
    ensures Conserved(AcceptControl(st, client, kind, cb, victim))
  {
    var cmd := Command(st.nextUid, client, kind, 0, cb);
    QueueConserves(st, cmd, victim);
    hide Conserved, Uids, FiredUids;
    var t := AcceptControl(st, client, kind, cb, victim);
    var rest := if victim < 0 then st.commands else Without(st.commands, victim);
    if kind == Disconnect(false) {
      SameUids(st, t);
    } else if st.commands != [] && SameControl(st.commands[0], cmd) {
      assert t.commands == st.commands;
      SameUids(st, t);
    } else {
      assert t.commands == [cmd] + rest;
      SameUids(st, t);
    }
  }

  /** CONNECT and DISCONNECT are not counted, wherever they are put and whatever they replace. */
  lemma QueueConserves(st: State, cmd: Command, victim: int)
    requires !App(cmd) && victim < |st.commands| && (victim >= 0 ==> !App(st.commands[victim]))
    ensures Uids(st.commands + [cmd]) == Uids(st.commands)
    ensures Uids([cmd] + if victim < 0 then st.commands else Without(st.commands, victim)) == Uids(st.commands)
  {
    hide Uids;
    var rest := if victim < 0 then st.commands else Without(st.commands, victim);
    if victim >= 0 {
      UidsWithout(st.commands, victim);
    }
    UidsAppend(st.commands, cmd);
    UidsConcat([cmd], rest);
    UidsOne(cmd);
  }

  lemma SameUids(st: State, t: State)
    requires Conserved(st) && Uids(t.commands) == Uids(st.commands) && t.nextUid >= st.nextUid
    requires t.(commands := st.commands, nextUid := st.nextUid, clients := st.clients, sending := st.sending) == st
    ensures Conserved(t)
  {
    hide Uids, FiredUids;
  }

  /** A command leaves a list and is finished, with at most its own callback. */
  lemma FinishConserves(st: State, t: State, c: Command, calls: seq<Fired>)
    requires Conserved(st) && App(c) && Own(calls, c)
    requires Uids(st.commands) + Uids(st.responses) == Uids(t.commands) + Uids(t.responses) + multiset{c.uid}
    requires AllApp(t.responses)
    requires t.finished == st.finished + multiset{c.uid} && t.fired == st.fired + calls
    requires t.dropped == st.dropped && t.accepted == st.accepted && t.nextUid == st.nextUid
    ensures Conserved(t)
  {
    hide Uids, FiredUids;
    FiredConcat(st.fired, calls);
    OwnUids(calls, c);
  }

  lemma ProcessConserves(st: State, i: nat, rc: Rc)
    requires Conserved(st) && i < |st.commands| && st.commands[i].client in st.clients
    ensures Conserved(Process(st, i, rc))
  {
    hide Conserved, Uids, FiredUids, Without;
    var c := st.commands[i];
    UidsWithout(st.commands, i);
    var t := Process(st, i, rc);
    assert t.commands == Without(st.commands, i);
    if !App(c) {
      SameUids(st, t);
    } else if rc == Failed {
      FinishProcessed(st, t, i, OnFailure(c));
    } else if c.kind.Publish? && c.kind.qos == 0 && rc == Complete {
      FinishProcessed(st, t, i, OnSuccess(c));
    } else {
      WaitConserves(st, t, i);
    }
  }

  lemma FinishProcessed(st: State, t: State, i: nat, calls: seq<Fired>)
    requires Conserved(st) && i < |st.commands| && App(st.commands[i]) && Own(calls, st.commands[i])
    requires t.commands == Without(st.commands, i) && t.responses == st.responses
    requires t.finished == st.finished + multiset{st.commands[i].uid} && t.fired == st.fired + calls
    requires t.dropped == st.dropped && t.accepted == st.accepted && t.nextUid == st.nextUid
    ensures Conserved(t)
  {
    hide Uids, FiredUids, Without;
    UidsWithout(st.commands, i);
    FinishConserves(st, t, st.commands[i], calls);
  }

  lemma WaitConserves(st: State, t: State, i: nat)
    requires Conserved(st) && i < |st.commands| && App(st.commands[i])
    requires t.commands == Without(st.commands, i) && t.responses == st.responses + [st.commands[i]]
    requires t.finished == st.finished && t.fired == st.fired
    requires t.dropped == st.dropped && t.accepted == st.accepted && t.nextUid == st.nextUid
    ensures Conserved(t)
  {
    hide Uids, FiredUids, Without;
    UidsWithout(st.commands, i);
    UidsAppend(st.responses, st.commands[i]);
  }

  lemma AnswerConserves(st: State, st1: State, i: nat, calls: seq<Fired>)
    requires Conserved(st) && i < |st.responses| && Own(calls, st.responses[i])
    requires st1.(clients := st.clients) == st
    ensures Conserved(Answer(st1, i, calls))
  {
    hide Uids, FiredUids;
    UidsWithout(st.responses, i);
    FinishConserves(st, Answer(st1, i, calls), st.responses[i], calls);
  }

  lemma FreeResponsesConserves(st: State, client: int)
    requires Conserved(st) && client in st.clients
    ensures Conserved(FreeResponses(st, client))
  {
    hide Uids, FiredUids, FailAll;
    var mine := Mine(st.responses, client);
    UidsSplit(st.responses, client);
    FailAllUids(mine);
    FiredConcat(st.fired, FailAll(mine));
    OthersApp(st.responses, client);
  }

  lemma {:induction false} OthersApp(s: seq<Command>, client: int)
    requires AllApp(s)
    ensures AllApp(Others(s, client))
  {
    if s != [] {
      OthersApp(s[..|s| - 1], client);
    }
  }

  lemma DestroyConserves(st: State, client: int)
    requires Conserved(st) && client in st.clients
    ensures Conserved(Destroy(st, client))
  {
    hide Uids, FiredUids, FailAll, FreeResponses;
    FreeResponsesConserves(st, client);
    var st1 := FreeResponses(st, client);
    var mine := Mine(st1.commands, client);
    UidsSplit(st1.commands, client);
    FailAllUids(mine);
    FiredConcat(st1.fired, FailAll(mine));
  }

  lemma {:induction false} FreshUids(s: seq<Command>, first: nat)
    requires forall i :: 0 <= i < |s| ==> s[i].uid == first + i
    ensures forall u :: Uids(s)[u] <= 1 && (u < first || u >= first + |s| ==> Uids(s)[u] == 0)
  {
    if s != [] {
      FreshUids(s[..|s| - 1], first);
    }
  }

  lemma CreateConserves(st: State, client: int, info: ClientInfo, restored: seq<Command>)
    requires Conserved(st) && Enabled(st, DoCreate(client, info, restored))
    ensures Conserved(Create(st, client, info, restored))
  {
    hide Uids, FiredUids;
    UidsConcat(st.commands, restored);
    FreshUids(restored, st.nextUid);
  }

  lemma StepConserves(st: State, s: Step)
    requires Conserved(st) && Enabled(st, s)
    ensures Conserved(Next(st, s))
  {
    hide Conserved;
    match s
    case DoEnqueue(k) => EnqueueConserves(st, k);
    case DoAcceptControl(c, kind, cb, victim) => AcceptControlConserves(st, c, kind, cb, victim);
    case DoProcess(_, i, rc) => ProcessConserves(st, i, rc);
    case DoWriteComplete(c, rc) => WriteCompleteConserves(st, c, rc);
    case DoAcknowledge(c, ack, token, error, gone) => AcknowledgeConserves(st, c, ack, token, error, gone);
    case DoFreeResponses(c) => FreeResponsesConserves(st, c);
    case DoDestroy(c) => DestroyConserves(st, c);
    case DoCreate(c, info, restored) => CreateConserves(st, c, info, restored);
    case _ => ClientsDoNotMatter(st, Next(st, s));
  }

  lemma EnqueueConserves(st: State, k: nat)
    requires Conserved(st) && Enabled(st, DoEnqueue(k))
    ensures Conserved(Enqueue(st, k))
  {
    hide Conserved, Accept, Without;
    var x, st1 := st.sending[k], st.(sending := Without(st.sending, k));
    ClientsDoNotMatter(st, st1);
    AcceptConserves(st1, x.client, x.kind, x.token, x.cb);
  }

  lemma ClientsDoNotMatter(st: State, t: State)
    requires Conserved(st) && t.(clients := st.clients, sending := st.sending) == st
    ensures Conserved(t)
  {
  }

  lemma WriteCompleteConserves(st: State, client: int, rc: int)
    requires Conserved(st) && client in st.clients
    ensures Conserved(WriteComplete(st, client, rc))
  {
    hide Conserved, Find;
    var t := WriteComplete(st, client, rc);
    var info := st.clients[client];
    if info.pendingWrite.Some? {
      var st1 := SetClient(st, client, info.(pendingWrite := None));
      ClientsDoNotMatter(st, st1);
      var i := Find(st.responses, client, WithUid(info.pendingWrite.value));
      if i >= 0 {
        AnswerConserves(st, st1, i, []);
        AnswerConserves(st, st1, i, OnSuccess(st.responses[i]));
        AnswerConserves(st, st1, i, OnFailure(st.responses[i]));
      }
    }
  }

  lemma AcknowledgeConserves(st: State, client: int, ack: AckKind, token: int, error: bool, gone: int)
    requires Conserved(st) && client in st.clients && gone < |st.clients[client].outbound|
    ensures Conserved(Acknowledge(st, client, ack, token, error, gone))
  {
    hide Conserved, Find;
    var info := st.clients[client];
    var st1 := if gone < 0 then st else SetClient(st, client, info.(outbound := Without(info.outbound, gone)));
    ClientsDoNotMatter(st, st1);
    var i := Find(st.responses, client, WithToken(token));
    if i >= 0 {
      AnswerConserves(st, st1, i, AckCalls(st.responses[i], ack, info.v5, error));
    }
  }

  lemma {:induction false} RunConserves(st: State, steps: seq<Step>)
    requires Conserved(st) && CanRun(st, steps)
    ensures Conserved(Run(st, steps))
    decreases |steps|
  {
    hide Conserved;
    if steps != [] {
      StepConserves(st, steps[0]);
      RunConserves(Next(st, steps[0]), steps[1..]);
    }
  }

  /** How often a command sits in a list. */
  function Held(s: seq<Command>, uid: nat): nat {
    Uids(s)[uid]
  }

  function CallsFor(f: seq<Fired>, uid: nat): nat {
    FiredUids(f)[uid]
  }

  /**
    Command conservation: after any run every accepted SUBSCRIBE, UNSUBSCRIBE or PUBLISH is in
    exactly one of the queue, the responses, the finished commands and the ones dropped as
    oldest; and at most one of its success and failure callbacks has fired, only once it was
    finished.
  */
  lemma EveryCommandInOnePlace(steps: seq<Step>, uid: nat)
    requires CanRun(Initial(), steps)
    ensures var st := Run(Initial(), steps);
            && (uid in st.accepted ==>
                  Held(st.commands, uid) + Held(st.responses, uid) + st.finished[uid] + st.dropped[uid] == 1)
            && CallsFor(st.fired, uid) <= st.finished[uid]
            && (uid in st.accepted ==> CallsFor(st.fired, uid) <= 1)
  {
    RunConserves(Initial(), steps);
    var st := Run(Initial(), steps);
    assert (Uids(st.commands) + Uids(st.responses) + st.finished + st.dropped)[uid] == st.accepted[uid];
  }
}
