/**
  What the engine does get done: a command that can start is started, one that is answered is finished and
  its application told, and giving up a client tells everyone.
*/
module EngineProgress {
  import opened Sequences
  import opened Engine
  import opened EngineLists
  import opened EngineConservation
  import opened EngineCallbacks
  import opened EngineTokens

  /** The command at position i is out of the list, and the others stay in order. */
  ghost predicate OutOf(before: seq<Command>, after: seq<Command>, i: nat)
    requires i < |before|
  {
    i <= |after| && before == after[..i] + [before[i]] + after[i..]
  }

  /** One command more is finished, and its application has had this one call, when it wants to be told of
      both outcomes in the client's version. */
  ghost predicate Finished(st: State, t: State, c: Command, v5: bool, success: bool) {
    && t.finished == st.finished + multiset{c.uid}
    && (Both(c.cb, v5) ==> t.fired == st.fired + [Fired(c.uid, success)])
  }

  ghost predicate NothingFinished(st: State, t: State) {
    t.finished == st.finished && t.fired == st.fired
  }

  // ---------- answers ----------

  /** An acknowledgement that ends a command: every one but a PUBREC without an error. */
  predicate Final(s: Step) {
    s.DoAcknowledge? && !(s.ack == Pubrec && !s.error)
  }

  /** Success is reported unless there was an error that can be reported: not for UNSUBACK, and before version
      5 only for SUBACK. */
  predicate Success(s: Step, v5: bool)
    requires s.DoAcknowledge?
  {
    !s.error || s.ack == Unsuback || (!v5 && s.ack != Suback)
  }

  predicate Answering(s: Step, c: Command) {
    Final(s) && s.client == c.client && s.token == c.token && c.token != 0
  }

  /** With ids apart, the acknowledgement finishes exactly the command it is for. */
  lemma AcknowledgementFinishes(st: State, s: Step, j: nat)
    requires Distinct(st) && Enabled(st, s) && j < |st.responses| && Answering(s, st.responses[j])
    ensures var t, c, v5 := Next(st, s), st.responses[j], st.clients[s.client].v5;
            && OutOf(st.responses, t.responses, j) && t.commands == st.commands && t.started == st.started
            && Finished(st, t, c, v5, Success(s, v5))
  {
    hide Distinct, Find;
    DistinctResponses(st);
    FindsOnly(st.responses, s.client, j);
    TakenOut(st.responses, j);
  }

  lemma DistinctResponses(st: State)
    requires Distinct(st)
    ensures Pairwise(st.responses, Apart)
  {
  }

  lemma TakenOut(list: seq<Command>, i: nat)
    requires i < |list|
    ensures OutOf(list, Without(list, i), i)
  {
    var after := Without(list, i);
    assert list == after[..i] + [list[i]] + after[i..];
  }

  /** Any other acknowledgement leaves the responses alone. */
  lemma OtherAcknowledgement(st: State, s: Step)
    requires Enabled(st, s) && s.DoAcknowledge?
    requires !Final(s) || forall j :: 0 <= j < |st.responses| && st.responses[j].client == s.client ==>
                            st.responses[j].token != s.token
    ensures Next(st, s).responses == st.responses && NothingFinished(st, Next(st, s))
  {
    hide Find, AckCalls;
  }

  /** The response is the client's QoS 0 message whose write was interrupted. */
  ghost predicate Flagged(st: State, client: int, c: Command) {
    && client in st.clients && st.clients[client].pendingWrite == Some(c.uid)
    && c.client == client && c.kind == Publish(0)
  }

  /** A write that completes, or fails, finishes it. */
  lemma WriteFinishes(st: State, s: Step, j: nat)
    requires Conserved(st) && Enabled(st, s) && s.DoWriteComplete? && (s.written == 1 || s.written == -1)
    requires j < |st.responses| && Flagged(st, s.client, st.responses[j])
    ensures var t, c := Next(st, s), st.responses[j];
            && OutOf(st.responses, t.responses, j) && t.commands == st.commands
            && t.clients[s.client].pendingWrite == None
            && Finished(st, t, c, st.clients[s.client].v5, s.written == 1)
  {
    hide Conserved, Find;
    FoundByUid(st, s.client, j);
    TakenOut(st.responses, j);
  }

  lemma FoundByUid(st: State, client: int, j: nat)
    requires Conserved(st) && j < |st.responses| && st.responses[j].client == client
    ensures Find(st.responses, client, WithUid(st.responses[j].uid)) == j
  {
    hide Uids, Find;
    var u := st.responses[j].uid;
    var i := Find(st.responses, client, WithUid(u));
    assert Fits(st.responses[j], client, WithUid(u));
    HeldOnce(st, u);
    if i < j {
      UidTwice(st.responses, i, j);
      assert false;
    }
  }

  lemma HeldOnce(st: State, u: nat)
    requires Conserved(st)
    ensures Uids(st.responses)[u] <= 1
  {
    assert (Uids(st.commands) + Uids(st.responses) + st.finished + st.dropped)[u] == st.accepted[u];
  }

  lemma UidTwice(s: seq<Command>, i: nat, j: nat)
    requires i < j < |s| && s[i].uid == s[j].uid && App(s[i]) && App(s[j])
    ensures Uids(s)[s[i].uid] >= 2
  {
    hide Uids;
    UidsWithout(s, j);
    UidsWithout(Without(s, j), i);
  }

  // ---------- processing ----------

  /** What becomes of a command that is taken off the queue. */
  lemma ProcessingDoes(st: State, s: Step)
    requires Enabled(st, s) && s.DoProcess?
    ensures var t, c := Next(st, s), st.commands[s.i];
            && OutOf(st.commands, t.commands, s.i)
            && (App(c) ==>
                  && t.started == st.started + [c] && c.client in t.clients
                  && (c.kind.Publish? && c.kind.qos > 0 ==>
                        t.clients[c.client].outbound == st.clients[c.client].outbound + [c.token])
                  && (if s.rc == Failed then
                        t.responses == st.responses && Finished(st, t, c, st.clients[c.client].v5, false)
                      else if c.kind == Publish(0) && s.rc == Complete then
                        t.responses == st.responses && Finished(st, t, c, st.clients[c.client].v5, true)
                      else
                        t.responses == st.responses + [c] && NothingFinished(st, t)
                        && (c.kind == Publish(0) ==> t.clients[c.client].pendingWrite == Some(c.uid))))
  {
    hide Without;
    TakenOut(st.commands, s.i);
  }

  /** Nothing of its client's is in the way of a command: for an application command the client is connected,
      not connecting, without a pending write, with ids left, and below its limit of messages in flight. */
  ghost predicate Clear(st: State, writable: set<int>, c: Command) {
    && c.client in st.clients
    && (App(c) ==>
          && st.clients[c.client].connected && st.clients[c.client].idle && c.client in writable
          && |st.clients[c.client].outbound| < 65534
          && (c.kind != Publish(0) ==> |st.clients[c.client].outbound| < st.clients[c.client].maxInflight))
  }

  ghost predicate Foremost(st: State, j: nat) {
    j < |st.commands| && forall k :: 0 <= k < j ==> st.commands[k].client != st.commands[j].client
  }

  /** Whenever a client's first command has nothing in its way, some command is processed. */
  lemma SomethingStarts(st: State, writable: set<int>, rc: Rc, j: nat) returns (i: nat)
    requires Foremost(st, j) && Clear(st, writable, st.commands[j])
    ensures i <= j && Enabled(st, DoProcess(writable, i, rc))
  {
    assert Earliest(st.commands, j) && Ready(st.clients, writable, st.commands[j]);
    i := FirstReady(st, writable, j);
  }

  lemma {:induction false} FirstReady(st: State, writable: set<int>, j: nat) returns (i: nat)
    requires j < |st.commands| && Earliest(st.commands, j) && Ready(st.clients, writable, st.commands[j])
    ensures i <= j && Chosen(st, writable, i)
    decreases j
  {
    if k: nat :| k < j && Earliest(st.commands, k) && Ready(st.clients, writable, st.commands[k]) {
      i := FirstReady(st, writable, k);
    } else {
      i := j;
    }
  }

  /** And only then: a command is started by a step that finds its client as it should be. */
  ghost predicate StartsClear(st: State, s: Step)
    requires Enabled(st, s)
  {
    Next(st, s).started == st.started
    || (s.DoProcess? && s.i < |st.commands| && Foremost(st, s.i)
        && Next(st, s).started == st.started + [st.commands[s.i]] && App(st.commands[s.i])
        && Clear(st, s.writable, st.commands[s.i]))
  }

  lemma StepStartsClear(st: State, s: Step)
    requires Enabled(st, s)
    ensures StartsClear(st, s)
  {
    hide Find, Without, Uids, Mine, Others, FailAll, AckCalls, UsedIds, TokenInUse, CountPublish, Full;
    hide OnSuccess, OnFailure, Accept, Charged;
    if s.DoEnqueue? {
      AcceptStartsNothing(st.(sending := Without(st.sending, s.k)), st.sending[s.k]);
    }
  }

  lemma AcceptStartsNothing(st: State, x: Send)
    requires x.client in st.clients
    ensures Accept(st, x.client, x.kind, x.token, x.cb).started == st.started
  {
    hide Find, Without;
  }

  ghost predicate AlwaysClear(st: State, steps: seq<Step>)
    requires CanRun(st, steps)
    decreases |steps|
  {
    steps == [] || (StartsClear(st, steps[0]) && AlwaysClear(Next(st, steps[0]), steps[1..]))
  }

  /** Over every run a SUBSCRIBE, UNSUBSCRIBE or PUBLISH starts only as its client's first command, while the
      client is connected and not connecting, has no pending write, and is below its limits. */
  lemma {:induction false} StartsOnlyWhenClear(st: State, steps: seq<Step>)
    requires CanRun(st, steps)
    ensures AlwaysClear(st, steps)
    decreases |steps|
  {
    hide Enabled, Next, StartsClear;
    if steps != [] {
      StepStartsClear(st, steps[0]);
      StartsOnlyWhenClear(Next(st, steps[0]), steps[1..]);
    }
  }

  // ---------- waiting ----------

  /** The steps that can end the waiting of a response. */
  ghost predicate Settles(st: State, s: Step, c: Command) {
    match s
    case DoAcknowledge(client, _, token, _, _) => Final(s) && client == c.client && token == c.token
    case DoWriteComplete(client, _) =>
      client == c.client && client in st.clients && st.clients[client].pendingWrite == Some(c.uid)
    case DoFreeResponses(client) => client == c.client
    case DoDestroy(client) => client == c.client
    case _ => false
  }

  lemma {:induction false} OthersKeep(s: seq<Command>, client: int)
    ensures forall c :: c in s && c.client != client ==> c in Others(s, client)
  {
    if s != [] {
      OthersKeep(s[..|s| - 1], client);
      assert s == s[..|s| - 1] + [s[|s| - 1]];
    }
  }

  lemma WithoutKeeps(s: seq<Command>, i: nat)
    requires i < |s|
    ensures forall c :: c in s && c != s[i] ==> c in Without(s, i)
  {
    forall c | c in s && c != s[i] ensures c in Without(s, i) {
      var j :| 0 <= j < |s| && s[j] == c;
      assert Without(s, i)[if j < i then j else j - 1] == c;
    }
  }

  /** Until one of them comes, a response waits. */
  lemma ResponseWaits(st: State, s: Step, c: Command)
    requires Enabled(st, s) && c in st.responses && !Settles(st, s, c)
    ensures c in Next(st, s).responses
  {
    hide Without, Uids, Mine, Others, FailAll, AckCalls, UsedIds, TokenInUse, CountPublish, Full, Chosen;
    hide OnSuccess, OnFailure, Accept, Charged, Process, WriteComplete, Acknowledge;
    match s {
      case DoEnqueue(k) => AcceptKeepsResponses(st.(sending := Without(st.sending, k)), st.sending[k]);
      case DoProcess(_, _, _) => ProcessKeepsResponses(st, s);
      case DoAcknowledge(_, _, _, _, _) => AcknowledgeKeeps(st, s, c);
      case DoWriteComplete(_, _) => WriteKeeps(st, s, c);
      case DoFreeResponses(client) => OthersKeep(st.responses, client);
      case DoDestroy(client) => OthersKeep(st.responses, client);
      case _ =>
    }
  }

  lemma AcceptKeepsResponses(st: State, x: Send)
    requires x.client in st.clients
    ensures Accept(st, x.client, x.kind, x.token, x.cb).responses == st.responses
  {
    hide Find, Without;
  }

  lemma ProcessKeepsResponses(st: State, s: Step)
    requires Enabled(st, s) && s.DoProcess?
    ensures forall c :: c in st.responses ==> c in Next(st, s).responses
  {
    hide Without, Charged, OnSuccess, OnFailure;
  }

  lemma AcknowledgeKeeps(st: State, s: Step, c: Command)
    requires Enabled(st, s) && s.DoAcknowledge? && c in st.responses && !Settles(st, s, c)
    ensures c in Next(st, s).responses
  {
    hide AckCalls, Without;
    var i := Find(st.responses, s.client, WithToken(s.token));
    if i >= 0 {
      WithoutKeeps(st.responses, i);
    }
  }

  lemma WriteKeeps(st: State, s: Step, c: Command)
    requires Enabled(st, s) && s.DoWriteComplete? && c in st.responses && !Settles(st, s, c)
    ensures c in Next(st, s).responses
  {
    hide OnSuccess, OnFailure, Without;
    var info := st.clients[s.client];
    if info.pendingWrite.Some? {
      var i := Find(st.responses, s.client, WithUid(info.pendingWrite.value));
      if i >= 0 {
        WithoutKeeps(st.responses, i);
      }
    }
  }

  ghost predicate NoneSettles(st: State, steps: seq<Step>, c: Command)
    requires CanRun(st, steps)
    decreases |steps|
  {
    steps == [] || (!Settles(st, steps[0], c) && NoneSettles(Next(st, steps[0]), steps[1..], c))
  }

  lemma {:induction false} WaitsThrough(st: State, steps: seq<Step>, c: Command)
    requires CanRun(st, steps) && c in st.responses && NoneSettles(st, steps, c)
    ensures c in Run(st, steps).responses
    decreases |steps|
  {
    hide Enabled, Next, Settles;
    if steps != [] {
      ResponseWaits(st, steps[0], c);
      WaitsThrough(Next(st, steps[0]), steps[1..], c);
    }
  }

  // ---------- from the queue to the callback ----------

  /** The command at position s.i is sent, and waits for its acknowledgement. */
  ghost predicate Sends(st: State, s: Step, c: Command) {
    && Enabled(st, s) && s.DoProcess? && c == st.commands[s.i] && App(c)
    && s.rc != Failed && (c.kind == Publish(0) ==> s.rc == Interrupted)
  }

  /**
    From any reachable state: a command is sent, whatever else goes on while it waits, and then its
    acknowledgement comes.  With ids apart at that moment the command is finished, once, and its
    application, when it wants to be told of both outcomes, has had exactly one call for it: this one.
  */
  lemma SentThenAnswered(first: seq<Step>, send: Step, between: seq<Step>, ack: Step, c: Command)
    requires CanRun(Initial(), first) && Sends(Run(Initial(), first), send, c)
    requires CanRun(Next(Run(Initial(), first), send), between)
    requires NoneSettles(Next(Run(Initial(), first), send), between, c)
    requires var st := Run(Next(Run(Initial(), first), send), between);
             Distinct(st) && Enabled(st, ack) && Answering(ack, c) && Both(c.cb, st.clients[c.client].v5)
    ensures var st := Run(Next(Run(Initial(), first), send), between);
            ToldOnce(st, Next(st, ack), c, Success(ack, st.clients[c.client].v5))
  {
    hide Enabled, Next, CanRun, Run, Distinct, Conserved, NoneSettles, Answering, Success, Initial, ToldOnce, Both;
    WaitingAfter(first, send, between, c);
    AnsweredNow(Run(Next(Run(Initial(), first), send), between), ack, c);
  }

  lemma InitialConserved()
    ensures Conserved(Initial())
  {
  }

  lemma ProcessingWaits(st: State, s: Step, c: Command)
    requires Sends(st, s, c)
    ensures c in Next(st, s).responses
  {
    hide Chosen;
    ProcessingDoes(st, s);
    hide Process, Without, Charged;
  }

  lemma AnsweredNow(st: State, ack: Step, c: Command)
    requires Conserved(st) && Distinct(st) && c in st.responses && Enabled(st, ack) && Answering(ack, c)
    requires Both(c.cb, st.clients[c.client].v5)
    ensures ToldOnce(st, Next(st, ack), c, Success(ack, st.clients[c.client].v5))
  {
    hide Distinct, Next, Finished, ToldOnce, Success, Both, UsedIds, TokenInUse, Chosen, CountPublish;
    var j :| 0 <= j < |st.responses| && st.responses[j] == c;
    AcknowledgementFinishes(st, ack, j);
    StepConserves(st, ack);
    FinishedIsTold(st, Next(st, ack), c, st.clients[c.client].v5, Success(ack, st.clients[c.client].v5));
  }

  /** The command has been finished once, by this step, and this call is the only one it has had. */
  ghost predicate ToldOnce(st: State, t: State, c: Command, success: bool) {
    && t.fired == st.fired + [Fired(c.uid, success)]
    && t.finished[c.uid] == 1 && CallsFor(t.fired, c.uid) == 1 && Held(t.responses, c.uid) == 0
  }

  lemma FinishedIsTold(st: State, t: State, c: Command, v5: bool, success: bool)
    requires Conserved(t) && Finished(st, t, c, v5, success) && Both(c.cb, v5)
    ensures ToldOnce(st, t, c, success)
  {
    hide Uids, FiredUids, Both;
    assert (Uids(t.commands) + Uids(t.responses) + t.finished + t.dropped)[c.uid] == t.accepted[c.uid];
    FiredConcat(st.fired, [Fired(c.uid, success)]);
    OneFired(Fired(c.uid, success));
  }

  /** The same for a QoS 0 message whose write was interrupted: the write that completes, or fails, ends it. */
  lemma SentThenWritten(first: seq<Step>, send: Step, between: seq<Step>, done: Step, c: Command)
    requires CanRun(Initial(), first) && Sends(Run(Initial(), first), send, c)
    requires CanRun(Next(Run(Initial(), first), send), between)
    requires NoneSettles(Next(Run(Initial(), first), send), between, c)
    requires var st := Run(Next(Run(Initial(), first), send), between);
             Enabled(st, done) && Writing(st, done, c) && Both(c.cb, st.clients[c.client].v5)
    ensures var st := Run(Next(Run(Initial(), first), send), between);
            ToldOnce(st, Next(st, done), c, done.written == 1)
  {
    hide Enabled, Next, CanRun, Run, Conserved, NoneSettles, Writing, Initial, ToldOnce, Both;
    WaitingAfter(first, send, between, c);
    WrittenNow(Run(Next(Run(Initial(), first), send), between), done, c);
  }

  /** The write that the client has left unfinished, of c, comes to its end. */
  ghost predicate Writing(st: State, done: Step, c: Command) {
    done.DoWriteComplete? && (done.written == 1 || done.written == -1) && Flagged(st, done.client, c)
  }

  lemma WrittenNow(st: State, done: Step, c: Command)
    requires Conserved(st) && c in st.responses && Enabled(st, done) && Writing(st, done, c)
    requires Both(c.cb, st.clients[c.client].v5)
    ensures ToldOnce(st, Next(st, done), c, done.written == 1)
  {
    hide Next, Finished, ToldOnce, Both, UsedIds, TokenInUse, Chosen, CountPublish, Conserved;
    var j :| 0 <= j < |st.responses| && st.responses[j] == c;
    WriteFinishes(st, done, j);
    StepConserves(st, done);
    FinishedIsTold(st, Next(st, done), c, st.clients[c.client].v5, done.written == 1);
  }

  lemma WaitingAfter(first: seq<Step>, send: Step, between: seq<Step>, c: Command)
    requires CanRun(Initial(), first) && Sends(Run(Initial(), first), send, c)
    requires CanRun(Next(Run(Initial(), first), send), between)
    requires NoneSettles(Next(Run(Initial(), first), send), between, c)
    ensures var st := Run(Next(Run(Initial(), first), send), between);
            Conserved(st) && c in st.responses
  {
    hide Enabled, Next, CanRun, Run, Conserved, NoneSettles, Initial;
    var st0 := Run(Initial(), first);
    var st1 := Next(st0, send);
    InitialConserved();
    RunConserves(Initial(), first);
    StepConserves(st0, send);
    RunConserves(st1, between);
    ProcessingWaits(st0, send, c);
    WaitsThrough(st1, between, c);
  }

  lemma OneFired(f: Fired)
    ensures FiredUids([f]) == multiset{f.uid}
  {
    assert [f][..0] == [];
    assert FiredUids([]) == multiset{};
  }

  // ---------- giving up ----------

  /** Every application command of the client that is in the list is finished and told of its failure. */
  ghost predicate GivenUp(list: seq<Command>, client: int, finished: multiset<nat>, fired: seq<Fired>) {
    forall c :: c in list && c.client == client && App(c) ==>
      c.uid in finished && (c.cb.onFailure || c.cb.onFailure5 ==> Fired(c.uid, false) in fired)
  }

  lemma {:induction false} FailAllTells(s: seq<Command>, client: int)
    ensures GivenUp(s, client, Uids(Mine(s, client)), FailAll(Mine(s, client)))
  {
    hide GivenUp, Uids, FailAll;
    if s == [] {
      GivenUpNone(client, Uids([]), FailAll([]));
    } else {
      var init, c := s[..|s| - 1], s[|s| - 1];
      assert s == init + [c];
      FailAllTells(init, client);
      var mine := Mine(init, client);
      if c.client == client {
        OneMoreTold(mine, c);
        GivenUpOne(init, c, client, Uids(mine), FailAll(mine));
      } else {
        assert Mine(s, client) == mine;
        GivenUpOther(init, c, client, Uids(mine), FailAll(mine));
      }
    }
  }

  lemma GivenUpNone(client: int, finished: multiset<nat>, fired: seq<Fired>)
    ensures GivenUp([], client, finished, fired)
  {
  }

  lemma GivenUpOne(init: seq<Command>, c: Command, client: int, finished: multiset<nat>, fired: seq<Fired>)
    requires GivenUp(init, client, finished, fired)
    ensures GivenUp(init + [c], client, finished + UidOf(c), fired + if App(c) then OnFailure(c) else [])
  {
  }

  lemma GivenUpOther(init: seq<Command>, c: Command, client: int, finished: multiset<nat>, fired: seq<Fired>)
    requires GivenUp(init, client, finished, fired) && c.client != client
    ensures GivenUp(init + [c], client, finished, fired)
  {
  }

  lemma OneMoreTold(mine: seq<Command>, c: Command)
    ensures Uids(mine + [c]) == Uids(mine) + UidOf(c)
    ensures FailAll(mine + [c]) == FailAll(mine) + if App(c) then OnFailure(c) else []
  {
    UidsAppend(mine, c);
    assert (mine + [c])[..|mine|] == mine;
  }

  lemma {:induction false} OthersAre(s: seq<Command>, client: int)
    ensures forall c :: c in Others(s, client) <==> c in s && c.client != client
  {
    if s != [] {
      OthersAre(s[..|s| - 1], client);
      assert s == s[..|s| - 1] + [s[|s| - 1]];
    }
  }

  ghost predicate OnlyOthers(before: seq<Command>, after: seq<Command>, client: int) {
    forall c :: c in after <==> c in before && c.client != client
  }

  /** Destroying a client finishes every command it has, and leaves those of the others. */
  lemma DestroyGivesUp(st: State, client: int)
    requires Enabled(st, DoDestroy(client))
    ensures var t := Next(st, DoDestroy(client));
            && client !in t.clients
            && GivenUp(st.responses, client, t.finished, t.fired) && GivenUp(st.commands, client, t.finished, t.fired)
            && OnlyOthers(st.responses, t.responses, client) && OnlyOthers(st.commands, t.commands, client)
  {
    hide Mine, Others, FailAll, Uids;
    FailAllTells(st.responses, client);
    FailAllTells(st.commands, client);
    OthersAre(st.responses, client);
    OthersAre(st.commands, client);
  }

  /** Cleaning a session finishes every command that waits for a response, and forgets what is in flight. */
  lemma CleaningGivesUp(st: State, client: int)
    requires Enabled(st, DoFreeResponses(client))
    ensures var t := Next(st, DoFreeResponses(client));
            && client in t.clients && t.clients[client].outbound == [] && t.commands == st.commands
            && GivenUp(st.responses, client, t.finished, t.fired) && OnlyOthers(st.responses, t.responses, client)
  {
    hide Mine, Others, FailAll, Uids;
    FailAllTells(st.responses, client);
    OthersAre(st.responses, client);
  }

  // ---------- CONNECT and DISCONNECT ----------

  /** A CONNECT, or a DISCONNECT of the library's own, is next in the queue afterwards; a DISCONNECT of the
      application is last.  At most one command has gone, and that was the same one. */
  lemma ControlIsQueued(st: State, s: Step)
    requires Enabled(st, s) && s.DoAcceptControl?
    ensures var t, cmd := Next(st, s), Command(st.nextUid, s.client, s.kind, 0, s.cb);
            && t.commands != []
            && (if s.kind == Disconnect(false) then t.commands == st.commands + [cmd]
                else t.commands[0].client == s.client && (if s.kind.Connect? then t.commands[0].kind.Connect?
                                                        else t.commands[0].kind.Disconnect?))
            && forall c :: c in st.commands && !(c.client == s.client && !App(c)) ==> c in t.commands
  {
    hide Without;
    if s.victim >= 0 {
      WithoutKeeps(st.commands, s.victim);
    }
  }
}
