/** Relations that hold along a list, and what taking elements out or adding them does to them. */
module EngineLists {
  import opened Sequences
  import opened Engine

  /** R holds from every element to every later one. */
  ghost predicate Pairwise(s: seq<Command>, R: (Command, Command) -> bool) {
    forall i, j :: 0 <= i < j < |s| ==> R(s[i], s[j])
  }

  /** R holds from every element of a to every element of b. */
  ghost predicate Across(a: seq<Command>, b: seq<Command>, R: (Command, Command) -> bool) {
    forall i, j :: 0 <= i < |a| && 0 <= j < |b| ==> R(a[i], b[j])
  }

  lemma PairwiseConcat(a: seq<Command>, b: seq<Command>, R: (Command, Command) -> bool)
    requires Pairwise(a, R) && Pairwise(b, R) && Across(a, b, R)
    ensures Pairwise(a + b, R)
  {
  }

  lemma PairwiseWithout(s: seq<Command>, i: nat, R: (Command, Command) -> bool)
    requires i < |s| && Pairwise(s, R)
    ensures Pairwise(Without(s, i), R)
  {
  }

  lemma AcrossConcat(a: seq<Command>, b: seq<Command>, c: seq<Command>, R: (Command, Command) -> bool)
    requires Across(a, b, R) && Across(a, c, R)
    ensures Across(a, b + c, R)
  {
  }

  lemma AcrossAppend(a: seq<Command>, x: Command, b: seq<Command>, R: (Command, Command) -> bool)
    requires Across(a, b, R) && Across([x], b, R)
    ensures Across(a + [x], b, R)
  {
    var s := a + [x];
    forall i, j | 0 <= i < |s| && 0 <= j < |b| ensures R(s[i], b[j]) {
      if i == |a| {
        assert [x][0] == x;
      }
    }
  }

  lemma AcrossWithout(a: seq<Command>, b: seq<Command>, i: nat, R: (Command, Command) -> bool)
    requires i < |b| && Across(a, b, R)
    ensures Across(a, Without(b, i), R)
  {
  }

  lemma WithoutAcross(a: seq<Command>, i: nat, b: seq<Command>, R: (Command, Command) -> bool)
    requires i < |a| && Across(a, b, R)
    ensures Across(Without(a, i), b, R)
  {
  }

  /** The commands of other clients are commands of the list, and none of this client's. */
  lemma {:induction false} OthersFrom(s: seq<Command>, client: int)
    ensures forall i :: 0 <= i < |Others(s, client)| ==>
              Others(s, client)[i].client != client && Others(s, client)[i] in s
  {
    if s != [] {
      OthersFrom(s[..|s| - 1], client);
      assert forall x :: x in s[..|s| - 1] ==> x in s;
    }
  }

  lemma {:induction false} OthersPairwise(s: seq<Command>, client: int, R: (Command, Command) -> bool)
    requires Pairwise(s, R)
    ensures Pairwise(Others(s, client), R)
  {
    if s != [] {
      var init, last := s[..|s| - 1], s[|s| - 1];
      OthersPairwise(init, client, R);
      OthersFrom(init, client);
      var rest := Others(init, client);
      assert forall x :: x in init ==> R(x, last);
    }
  }

  lemma AcrossOthers(a: seq<Command>, b: seq<Command>, client: int, R: (Command, Command) -> bool)
    requires Across(a, b, R)
    ensures Across(a, Others(b, client), R)
  {
    OthersFrom(b, client);
    var rest := Others(b, client);
    forall i, j | 0 <= i < |a| && 0 <= j < |rest| ensures R(a[i], rest[j]) {
      assert rest[j] in b;
    }
  }

  lemma OthersAcross(a: seq<Command>, b: seq<Command>, client: int, R: (Command, Command) -> bool)
    requires Across(a, b, R)
    ensures Across(Others(a, client), b, R)
  {
    OthersFrom(a, client);
    var rest := Others(a, client);
    forall i, j | 0 <= i < |rest| && 0 <= j < |b| ensures R(rest[i], b[j]) {
      assert rest[i] in a;
    }
  }
}

/** Each client's commands start in the order in which they were accepted. */
module EngineOrder {
  import opened Sequences
  import opened Engine
  import opened EngineEffects
  import opened EngineLists

  /** Accepted earlier, for application commands. */
  ghost predicate Before(a: Command, b: Command) {
    App(a) && App(b) ==> a.uid < b.uid
  }

  ghost predicate BeforeSame(a: Command, b: Command) {
    a.client == b.client && App(a) && App(b) ==> a.uid < b.uid
  }

  ghost predicate Below(s: seq<Command>, bound: nat) {
    forall i :: 0 <= i < |s| ==> s[i].uid < bound
  }

  ghost predicate InOrder(st: State) {
    && Pairwise(st.commands, Before)
    && Pairwise(st.started, BeforeSame)
    && Across(st.started, st.commands, BeforeSame)
    && Below(st.commands, st.nextUid)
    && Below(st.started, st.nextUid)
  }

  /** Only the two lists and the counter matter, and taking commands away never hurts. */
  lemma AppendKeeps(st: State, t: State, cmds: seq<Command>)
    requires InOrder(st) && t.commands == st.commands + cmds && t.started == st.started
    requires t.nextUid == st.nextUid + |cmds|
    requires forall i :: 0 <= i < |cmds| ==> cmds[i].uid == st.nextUid + i
    ensures InOrder(t)
  {
    PairwiseConcat(st.commands, cmds, Before);
    AcrossConcat(st.started, st.commands, cmds, BeforeSame);
  }

  lemma WithoutKeeps(st: State, t: State, i: nat)
    requires InOrder(st) && i < |st.commands| && t.commands == Without(st.commands, i)
    requires t.started == st.started && t.nextUid == st.nextUid
    ensures InOrder(t)
  {
    PairwiseWithout(st.commands, i, Before);
    AcrossWithout(st.started, st.commands, i, BeforeSame);
  }

  lemma FrontKeeps(st: State, t: State, cmd: Command)
    requires InOrder(st) && !App(cmd) && cmd.uid < t.nextUid && st.nextUid <= t.nextUid
    requires t.commands == [cmd] + st.commands && t.started == st.started
    ensures InOrder(t)
  {
    PairwiseConcat([cmd], st.commands, Before);
    AcrossConcat(st.started, [cmd], st.commands, BeforeSame);
  }

  lemma AcceptKeeps(st: State, client: int, kind: Kind, token: int, cb: Callbacks)
    requires InOrder(st) && client in st.clients
    ensures InOrder(Accept(st, client, kind, token, cb))
  {
    hide InOrder;
    var cmd := Command(st.nextUid, client, kind, token, cb);
    var st1 := st.(commands := st.commands + [cmd], nextUid := st.nextUid + 1,
                   accepted := st.accepted + multiset{st.nextUid});
    AppendKeeps(st, st1, [cmd]);
    var t := Accept(st, client, kind, token, cb);
    if kind.Publish? && Full(st.clients[client]) {
      var i := Find(st1.commands, client, APublish);
      if i >= 0 {
        WithoutKeeps(st1, t, i);
      }
    } else {
      SameListsKeep(st1, t);
    }
  }

  lemma EnqueueKeeps(st: State, k: nat)
    requires InOrder(st) && Enabled(st, DoEnqueue(k))
    ensures InOrder(Enqueue(st, k))
  {
    hide InOrder, Accept, Without;
    var x, st1 := st.sending[k], st.(sending := Without(st.sending, k));
    SameListsKeep(st, st1);
    AcceptKeeps(st1, x.client, x.kind, x.token, x.cb);
  }

  lemma SameListsKeep(st: State, t: State)
    requires InOrder(st) && t.commands == st.commands && t.started == st.started && t.nextUid >= st.nextUid
    ensures InOrder(t)
  {
  }

  lemma AcceptControlKeeps(st: State, client: int, kind: Kind, cb: Callbacks, victim: int)
    requires InOrder(st) && Enabled(st, DoAcceptControl(client, kind, cb, victim))
    ensures InOrder(AcceptControl(st, client, kind, cb, victim))
  {
    hide InOrder;
    var cmd := Command(st.nextUid, client, kind, 0, cb);
    var t := AcceptControl(st, client, kind, cb, victim);
    if kind == Disconnect(false) {
      AppendKeeps(st, t, [cmd]);
    } else if st.commands != [] && SameControl(st.commands[0], cmd) {
      SameListsKeep(st, t);
    } else if victim < 0 {
      FrontKeeps(st, t, cmd);
    } else {
      var st1 := st.(commands := Without(st.commands, victim));
      WithoutKeeps(st, st1, victim);
      FrontKeeps(st1, t, cmd);
    }
  }

  /** The client's earliest command starts: it follows what was started and precedes what is left. */
  lemma StartKeeps(st: State, t: State, i: nat)
    requires InOrder(st) && i < |st.commands|
    requires Earliest(st.commands, i)
    requires t.commands == Without(st.commands, i) && t.started == st.started + [st.commands[i]]
    requires t.nextUid == st.nextUid
    ensures InOrder(t)
  {
    var c := st.commands[i];
    PairwiseWithout(st.commands, i, Before);
    AcrossWithout(st.started, st.commands, i, BeforeSame);
    PairwiseConcat(st.started, [c], BeforeSame);
    var rest := Without(st.commands, i);
    assert Across([c], rest, BeforeSame) by {
      forall k, j | 0 <= k < |[c]| && 0 <= j < |rest| ensures BeforeSame([c][k], rest[j]) {
        if j < i {
          assert rest[j] == st.commands[j];
        } else {
          assert rest[j] == st.commands[j + 1];
        }
      }
    }
    AcrossAppend(st.started, c, rest, BeforeSame);
  }

  lemma ProcessKeeps(st: State, writable: set<int>, i: nat, rc: Rc)
    requires InOrder(st) && Chosen(st, writable, i)
    ensures InOrder(Process(st, i, rc))
  {
    hide InOrder, Without;
    if App(st.commands[i]) {
      StartKeeps(st, Process(st, i, rc), i);
    } else {
      WithoutKeeps(st, Process(st, i, rc), i);
    }
  }

  lemma DestroyKeeps(st: State, client: int)
    requires InOrder(st) && client in st.clients
    ensures InOrder(Destroy(st, client))
  {
    OthersPairwise(st.commands, client, Before);
    AcrossOthers(st.started, st.commands, client, BeforeSame);
    OthersFrom(st.commands, client);
    var t := Destroy(st, client);
    assert t.commands == Others(st.commands, client);
    forall k | 0 <= k < |t.commands| ensures t.commands[k].uid < st.nextUid {
      assert t.commands[k] in st.commands;
    }
  }

  lemma StepKeepsOrder(st: State, s: Step)
    requires InOrder(st) && Enabled(st, s)
    ensures InOrder(Next(st, s))
  {
    hide InOrder, Enqueue, AcceptControl, Process, Destroy, Create, WriteComplete, Acknowledge, FreeResponses, Reserve;
    hide TokenInUse, Chosen, CountPublish;
    if QuietStep(s) {
      StepQuiet(st, s);
      SameListsKeep(st, Next(st, s));
    } else {
      match s
      case DoEnqueue(k) => EnqueueKeeps(st, k);
      case DoAcceptControl(c, kind, cb, victim) => AcceptControlKeeps(st, c, kind, cb, victim);
      case DoProcess(writable, i, rc) => ProcessKeeps(st, writable, i, rc);
      case DoDestroy(c) => DestroyKeeps(st, c);
      case DoCreate(c, info, restored) => CreateKeeps(st, s);
    }
  }

  lemma CreateKeeps(st: State, s: Step)
    requires InOrder(st) && Enabled(st, s) && s.DoCreate?
    ensures InOrder(Next(st, s))
  {
    hide InOrder, Uids, CountPublish;
    AppendKeeps(st, Next(st, s), s.restored);
  }

  lemma {:induction false} RunKeepsOrder(st: State, steps: seq<Step>)
    requires InOrder(st) && CanRun(st, steps)
    ensures InOrder(Run(st, steps))
    decreases |steps|
  {
    hide InOrder;
    if steps != [] {
      StepKeepsOrder(st, steps[0]);
      RunKeepsOrder(Next(st, steps[0]), steps[1..]);
    }
  }

  /**
    First in, first out: after any run, of two commands of one client that have been started the
    one accepted first was started first, and none that is still queued was accepted before a
    started one; so nothing is overtaken, whichever other clients are blocked.
  */
  lemma CommandsStartInOrder(steps: seq<Step>)
    requires CanRun(Initial(), steps)
    ensures var st := Run(Initial(), steps);
            && (forall i, j | 0 <= i < j < |st.started| && st.started[i].client == st.started[j].client
                  && App(st.started[i]) && App(st.started[j]) :: st.started[i].uid < st.started[j].uid)
            && (forall i, j | 0 <= i < |st.started| && 0 <= j < |st.commands|
                 && st.started[i].client == st.commands[j].client
                  && App(st.started[i]) && App(st.commands[j]) :: st.started[i].uid < st.commands[j].uid)
  {
    RunKeepsOrder(Initial(), steps);
    var st := Run(Initial(), steps);
    forall i, j | 0 <= i < j < |st.started| && st.started[i].client == st.started[j].client
                  && App(st.started[i]) && App(st.started[j])
      ensures st.started[i].uid < st.started[j].uid
    {
      assert BeforeSame(st.started[i], st.started[j]);
    }
    forall i, j | 0 <= i < |st.started| && 0 <= j < |st.commands| && st.started[i].client == st.commands[j].client
                  && App(st.started[i]) && App(st.commands[j])
      ensures st.started[i].uid < st.commands[j].uid
    {
      assert BeforeSame(st.started[i], st.commands[j]);
    }
  }
}
