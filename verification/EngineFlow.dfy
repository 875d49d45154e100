/** Flow control and the offline buffer. */
module EngineFlow {
  import opened Sequences
  import opened Engine
  import opened EngineEffects
  import opened EngineLists

  // ---------- the in-flight limit ----------

  /** No step raises a client's in-flight count above its limit. */
  lemma StepKeepsInFlight(st: State, s: Step, c: int)
    requires Enabled(st, s) && c in st.clients && c in Next(st, s).clients
    ensures |Next(st, s).clients[c].outbound| > |st.clients[c].outbound| ==>
              |Next(st, s).clients[c].outbound| <= st.clients[c].maxInflight
  {
    hide Accept, AcceptControl, Process, Destroy, Create, WriteComplete, Acknowledge, FreeResponses;
    if QuietStep(s) {
      StepQuiet(st, s);
    } else {
      LoudStep(st, s);
    }
  }

  lemma LimitUnchanged(st: State, s: Step, c: int)
    requires Enabled(st, s) && c in st.clients && c in Next(st, s).clients && !(s.DoLimit? && s.client == c)
    ensures Next(st, s).clients[c].maxInflight == st.clients[c].maxInflight
  {
    hide Enqueue, AcceptControl, Process, Destroy, Create, WriteComplete, Acknowledge, FreeResponses;
    hide TokenInUse, UsedIds, Chosen, CountPublish;
    if !QuietStep(s) {
      LoudStep(st, s);
    } else if s.DoWriteComplete? || s.DoAcknowledge? || s.DoFreeResponses? {
      AnswersKeepLimit(st, s, c);
    }
  }

  lemma AnswersKeepLimit(st: State, s: Step, c: int)
    requires Enabled(st, s) && c in st.clients && c in Next(st, s).clients
    requires s.DoWriteComplete? || s.DoAcknowledge? || s.DoFreeResponses?
    ensures Next(st, s).clients[c].maxInflight == st.clients[c].maxInflight
  {
    hide Find, Without, Uids, Mine, Others, FailAll, AckCalls, OnSuccess, OnFailure, Chosen, TokenInUse, CountPublish;
  }

  /** What the other steps do to the clients. */
  lemma LoudStep(st: State, s: Step)
    requires Enabled(st, s) && !QuietStep(s)
    ensures match s
            case DoEnqueue(k) =>
              var cl := st.sending[k].client;
              || Next(st, s).clients == st.clients
              || Next(st, s).clients == st.clients[cl := st.clients[cl].(buffered := st.clients[cl].buffered + 1)]
            case DoAcceptControl(_, _, _, _) => Next(st, s).clients == st.clients
            case DoProcess(writable, i, rc) =>
              var c := st.commands[i];
              && Ready(st.clients, writable, c)
              && Next(st, s).clients ==
                 if c.kind.Publish? then st.clients[c.client := Charged(st.clients[c.client], c, rc)] else st.clients
            case DoDestroy(cl) => Next(st, s).clients == st.clients - {cl}
            case DoCreate(cl, info, _) => Next(st, s).clients == st.clients[cl := info]
            case _ => true
  {
    hide Accept, Process, Destroy, Charged, Uids, CountPublish, TokenInUse;
    match s
    case DoEnqueue(k) =>
      var x := st.sending[k];
      AcceptClients(st.(sending := Without(st.sending, k)), x.client, x.kind, x.token, x.cb);
    case DoProcess(_, i, rc) => ProcessClients(st, i, rc);
    case DoDestroy(cl) => DestroyEffect(st, cl);
    case _ =>
  }

  /** Every limit the run sets for the client, and what it starts with, is at most m. */
  ghost predicate LimitedTo(s: Step, c: int, m: int) {
    && (s.DoLimit? && s.client == c ==> s.maxInflight <= m)
    && (s.DoCreate? && s.client == c ==> s.info.maxInflight <= m && |s.info.outbound| <= m)
  }

  ghost predicate InFlightBy(st: State, c: int, m: int) {
    c in st.clients ==> |st.clients[c].outbound| <= m && st.clients[c].maxInflight <= m
  }

  lemma StepKeepsLimit(st: State, s: Step, c: int, m: int)
    requires InFlightBy(st, c, m) && Enabled(st, s) && LimitedTo(s, c, m)
    ensures InFlightBy(Next(st, s), c, m)
  {
    hide Accept, AcceptControl, Process, Destroy, WriteComplete, Acknowledge, FreeResponses, TokenInUse, Chosen;
    hide CountPublish;
    if c in st.clients && c in Next(st, s).clients {
      StepKeepsInFlight(st, s, c);
      if !(s.DoLimit? && s.client == c) {
        LimitUnchanged(st, s, c);
      }
    } else if QuietStep(s) {
      StepQuiet(st, s);
    } else {
      LoudStep(st, s);
    }
  }

  lemma {:induction false} RunKeepsLimit(st: State, steps: seq<Step>, c: int, m: int)
    requires InFlightBy(st, c, m) && CanRun(st, steps)
    requires forall i :: 0 <= i < |steps| ==> LimitedTo(steps[i], c, m)
    ensures InFlightBy(Run(st, steps), c, m)
    decreases |steps|
  {
    hide InFlightBy, LimitedTo;
    if steps != [] {
      StepKeepsLimit(st, steps[0], c, m);
      RunKeepsLimit(Next(st, steps[0]), steps[1..], c, m);
    }
  }

  /** With limits of at most m, no more than m messages of the client are ever in flight. */
  lemma InFlightNeverAboveLimit(steps: seq<Step>, c: int, m: int)
    requires CanRun(Initial(), steps)
    requires forall i :: 0 <= i < |steps| ==> LimitedTo(steps[i], c, m)
    ensures var st := Run(Initial(), steps); c in st.clients ==> |st.clients[c].outbound| <= m
  {
    RunKeepsLimit(Initial(), steps, c, m);
  }

  // ---------- the offline buffer ----------

  lemma {:induction false} CountConcat(a: seq<Command>, b: seq<Command>, c: int)
    ensures CountPublish(a + b, c) == CountPublish(a, c) + CountPublish(b, c)
  {
    if b == [] {
      assert a + b == a;
    } else {
      assert (a + b)[..|a + b| - 1] == a + b[..|b| - 1];
      CountConcat(a, b[..|b| - 1], c);
    }
  }

  function CountOne(x: Command, c: int): nat {
    if x.client == c && x.kind.Publish? then 1 else 0
  }

  lemma CountSingle(x: Command, c: int)
    ensures CountPublish([x], c) == CountOne(x, c)
  {
    assert CountPublish([x][..0], c) == 0;
  }

  lemma CountWithout(s: seq<Command>, i: nat, c: int)
    requires i < |s|
    ensures CountPublish(s, c) == CountPublish(Without(s, i), c) + CountOne(s[i], c)
  {
    hide CountPublish;
    assert s == s[..i] + ([s[i]] + s[i + 1..]);
    CountConcat(s[..i], [s[i]] + s[i + 1..], c);
    CountConcat([s[i]], s[i + 1..], c);
    CountConcat(s[..i], s[i + 1..], c);
    CountSingle(s[i], c);
  }

  lemma CountAppend(s: seq<Command>, x: Command, c: int)
    ensures CountPublish(s + [x], c) == CountPublish(s, c) + CountOne(x, c)
  {
    hide CountPublish;
    CountConcat(s, [x], c);
    CountSingle(x, c);
  }

  lemma CountFront(s: seq<Command>, x: Command, c: int)
    ensures CountPublish([x] + s, c) == CountPublish(s, c) + CountOne(x, c)
  {
    hide CountPublish;
    CountConcat([x], s, c);
    CountSingle(x, c);
  }

  lemma {:induction false} CountOthers(s: seq<Command>, gone: int, c: int)
    requires c != gone
    ensures CountPublish(Others(s, gone), c) == CountPublish(s, c)
  {
    if s != [] {
      var init, last := s[..|s| - 1], s[|s| - 1];
      CountOthers(init, gone, c);
      if last.client == gone {
        assert Others(s, gone) == Others(init, gone);
      } else {
        assert Others(s, gone) == Others(init, gone) + [last];
        CountAppend(Others(init, gone), last, c);
      }
    }
  }

  lemma {:induction false} CountNone(s: seq<Command>, c: int)
    requires forall i :: 0 <= i < |s| ==> !(s[i].client == c && s[i].kind.Publish?)
    ensures CountPublish(s, c) == 0
  {
    if s != [] {
      CountNone(s[..|s| - 1], c);
    }
  }

  function Max(a: int, b: int): int {
    if a < b then b else a
  }

  /** The counter is the number of queued PUBLISH commands, and within the limit. */
  ghost predicate Buffers(st: State, c: int) {
    c in st.clients ==>
      var info := st.clients[c];
      && info.buffered == CountPublish(st.commands, c)
      && info.restored >= 0
      && (info.limit.Some? ==> info.buffered <= Max(info.limit.value, info.restored))
  }

  /** Commands belong to live clients. */
  ghost predicate Owned(st: State) {
    forall i :: 0 <= i < |st.commands| ==> st.commands[i].client in st.clients
  }

  lemma AcceptKeepsBuffer(st: State, client: int, kind: Kind, token: int, cb: Callbacks, c: int)
    requires Buffers(st, c) && client in st.clients
    ensures Buffers(Accept(st, client, kind, token, cb), c)
  {
    hide CountPublish, Without;
    var cmd := Command(st.nextUid, client, kind, token, cb);
    CountAppend(st.commands, cmd, c);
    var longer := st.commands + [cmd];
    if kind.Publish? && Full(st.clients[client]) {
      var i := Find(longer, client, APublish);
      assert longer[|longer| - 1] == cmd;
      assert i >= 0;
      CountWithout(longer, i, c);
    }
  }

  lemma EnqueueKeepsBuffer(st: State, k: nat, c: int)
    requires Buffers(st, c) && Enabled(st, DoEnqueue(k))
    ensures Buffers(Enqueue(st, k), c)
  {
    hide Accept, CountPublish;
    var x := st.sending[k];
    AcceptKeepsBuffer(st.(sending := Without(st.sending, k)), x.client, x.kind, x.token, x.cb, c);
  }

  lemma AcceptControlKeepsBuffer(st: State, client: int, kind: Kind, cb: Callbacks, victim: int, c: int)
    requires Buffers(st, c) && Enabled(st, DoAcceptControl(client, kind, cb, victim))
    ensures Buffers(AcceptControl(st, client, kind, cb, victim), c)
  {
    hide CountPublish, Without, TokenInUse, Chosen;
    var cmd := Command(st.nextUid, client, kind, 0, cb);
    CountAppend(st.commands, cmd, c);
    CountFront(st.commands, cmd, c);
    if victim >= 0 {
      CountWithout(st.commands, victim, c);
      CountFront(Without(st.commands, victim), cmd, c);
    }
  }

  lemma ProcessKeepsBuffer(st: State, i: nat, rc: Rc, c: int)
    requires Buffers(st, c) && i < |st.commands| && st.commands[i].client in st.clients
    ensures Buffers(Process(st, i, rc), c)
  {
    hide CountPublish, Without;
    CountWithout(st.commands, i, c);
  }

  lemma DestroyKeepsBuffer(st: State, client: int, c: int)
    requires Buffers(st, c) && client in st.clients
    ensures Buffers(Destroy(st, client), c)
  {
    hide CountPublish, FailAll, Uids, Mine, Others;
    if c != client {
      CountOthers(st.commands, client, c);
    }
  }

  lemma CreateKeepsBuffer(st: State, client: int, info: ClientInfo, restored: seq<Command>, c: int)
    requires Buffers(st, c) && Owned(st) && Enabled(st, DoCreate(client, info, restored))
    ensures Buffers(Create(st, client, info, restored), c)
  {
    hide CountPublish, Uids;
    CountConcat(st.commands, restored, c);
    if c == client {
      CountNone(st.commands, c);
    } else {
      CountNone(restored, c);
    }
  }

  lemma QuietKeepsBuffer(st: State, t: State, c: int)
    requires Buffers(st, c) && Owned(st) && Quiet(st, t)
    ensures Buffers(t, c) && Owned(t)
  {
    hide CountPublish, Shrinks;
  }

  lemma StepKeepsBuffer(st: State, s: Step, c: int)
    requires Buffers(st, c) && Owned(st) && Enabled(st, s)
    ensures Buffers(Next(st, s), c)
  {
    hide Buffers, Owned, Accept, AcceptControl, Process, Destroy, Create, WriteComplete, Acknowledge, FreeResponses;
    if QuietStep(s) {
      StepQuiet(st, s);
      QuietKeepsBuffer(st, Next(st, s), c);
    } else {
      match s
      case DoEnqueue(k) => EnqueueKeepsBuffer(st, k, c);
      case DoAcceptControl(cl, kind, cb, victim) => AcceptControlKeepsBuffer(st, cl, kind, cb, victim, c);
      case DoProcess(_, i, rc) => ProcessKeepsBuffer(st, i, rc, c);
      case DoDestroy(cl) => DestroyKeepsBuffer(st, cl, c);
      case DoCreate(cl, info, restored) => CreateKeepsBuffer(st, cl, info, restored, c);
    }
  }

  lemma AcceptKeepsOwned(st: State, client: int, kind: Kind, token: int, cb: Callbacks)
    requires Owned(st) && client in st.clients
    ensures Owned(Accept(st, client, kind, token, cb))
  {
    hide Find;
  }

  lemma StepKeepsOwned(st: State, s: Step)
    requires Owned(st) && Enabled(st, s)
    ensures Owned(Next(st, s))
  {
    hide Accept, Process, Destroy, WriteComplete, Acknowledge, FreeResponses, Charged, Uids, CountPublish, TokenInUse;
    if QuietStep(s) {
      StepQuiet(st, s);
    } else {
      LoudStep(st, s);
      match s
      case DoEnqueue(k) =>
        var x := st.sending[k];
        AcceptKeepsOwned(st.(sending := Without(st.sending, k)), x.client, x.kind, x.token, x.cb);
      case DoProcess(_, i, rc) => ProcessClients(st, i, rc);
      case DoDestroy(cl) =>
        DestroyEffect(st, cl);
        OthersOwned(st, cl);
      case _ =>
    }
  }

  lemma OthersOwned(st: State, client: int)
    requires Owned(st)
    ensures forall i :: 0 <= i < |Others(st.commands, client)| ==>
              Others(st.commands, client)[i].client in st.clients - {client}
  {
    OthersFrom(st.commands, client);
    var rest := Others(st.commands, client);
    forall i | 0 <= i < |rest| ensures rest[i].client in st.clients - {client} {
      assert rest[i] in st.commands;
    }
  }

  lemma {:induction false} RunKeepsBuffer(st: State, steps: seq<Step>, c: int)
    requires Buffers(st, c) && Owned(st) && CanRun(st, steps)
    ensures Buffers(Run(st, steps), c) && Owned(Run(st, steps))
    decreases |steps|
  {
    hide Buffers, Owned;
    if steps != [] {
      StepKeepsBuffer(st, steps[0], c);
      StepKeepsOwned(st, steps[0]);
      RunKeepsBuffer(Next(st, steps[0]), steps[1..], c);
    }
  }

  /**
    After any run the counter of a client is the number of its queued PUBLISH commands; with create
    options it is at most the larger of maxBufferedMessages and the number restored at start,
    however sends of different threads interleave.
  */
  lemma OfflineBufferBounded(steps: seq<Step>, c: int)
    requires CanRun(Initial(), steps) && c in Run(Initial(), steps).clients
    ensures var st := Run(Initial(), steps);
            var info := st.clients[c];
            && info.buffered == CountPublish(st.commands, c)
            && (info.limit.Some? ==> info.buffered <= Max(info.limit.value, info.restored))
  {
    RunKeepsBuffer(Initial(), steps, c);
  }
}
