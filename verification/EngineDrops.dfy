/**
  When the offline buffer drops a message.  MQTTAsync_send checks the buffer in one critical section and
  queues in another; MQTTAsync_addCommand drops the oldest message whenever it finds the buffer full.
*/
module EngineDrops {
  import opened Sequences
  import opened Engine
  import opened EngineEffects

  /** A PUBLISH is queued and finds the buffer full. */
  ghost predicate FindsFull(st: State, s: Step)
    requires Enabled(st, s)
  {
    s.DoEnqueue? && st.sending[s.k].kind.Publish? && Full(st.clients[st.sending[s.k].client])
  }

  /** The queue is searched after the new command was appended: there is always one to drop. */
  lemma SomethingToDrop(s: seq<Command>, cmd: Command)
    requires cmd.kind.Publish?
    ensures Find(s + [cmd], cmd.client, APublish) >= 0
  {
    assert Fits((s + [cmd])[|s|], cmd.client, APublish);
  }

  lemma StepDrops(st: State, s: Step)
    requires Enabled(st, s)
    ensures |Next(st, s).dropped| == |st.dropped| + One(FindsFull(st, s))
  {
    hide Find, Without, Uids, Mine, Others, FailAll, AckCalls, Charged, UsedIds, TokenInUse, CountPublish;
    if s.DoEnqueue? {
      var x := st.sending[s.k];
      EnqueueDrops(st.(sending := Without(st.sending, s.k)), x);
    } else if s.DoProcess? {
      ProcessDrops(st, s.i, s.rc);
    } else if s.DoDestroy? {
      DestroyDrops(st, s.client);
    }
  }

  lemma EnqueueDrops(st: State, x: Send)
    requires x.client in st.clients && AppKind(x.kind)
    ensures |Accept(st, x.client, x.kind, x.token, x.cb).dropped|
         == |st.dropped| + One(x.kind.Publish? && Full(st.clients[x.client]))
  {
    hide Find, Without, Full;
    if x.kind.Publish? {
      SomethingToDrop(st.commands, Command(st.nextUid, x.client, x.kind, x.token, x.cb));
    }
  }

  lemma ProcessDrops(st: State, i: nat, rc: Rc)
    requires i < |st.commands| && st.commands[i].client in st.clients
    ensures Process(st, i, rc).dropped == st.dropped
  {
    hide Without, Charged;
  }

  lemma DestroyDrops(st: State, client: int)
    requires client in st.clients
    ensures Destroy(st, client).dropped == st.dropped
  {
    hide Mine, Others, FailAll, Uids;
  }

  /** How often that happens in a run. */
  ghost function FullEnqueues(st: State, steps: seq<Step>): nat
    requires CanRun(st, steps)
    decreases |steps|
  {
    if steps == [] then 0 else One(FindsFull(st, steps[0])) + FullEnqueues(Next(st, steps[0]), steps[1..])
  }

  ghost predicate NeverFull(st: State, steps: seq<Step>)
    requires CanRun(st, steps)
    decreases |steps|
  {
    steps == [] || (!FindsFull(st, steps[0]) && NeverFull(Next(st, steps[0]), steps[1..]))
  }

  lemma {:induction false} RunDrops(st: State, steps: seq<Step>)
    requires CanRun(st, steps)
    ensures |Run(st, steps).dropped| == |st.dropped| + FullEnqueues(st, steps)
    ensures FullEnqueues(st, steps) == 0 <==> NeverFull(st, steps)
    decreases |steps|
  {
    hide FindsFull, Enabled, Next;
    if steps != [] {
      StepDrops(st, steps[0]);
      RunDrops(Next(st, steps[0]), steps[1..]);
    }
  }

  /**
    Over every run one message is dropped for every PUBLISH that is queued and finds the buffer full,
    and none otherwise.  So nothing is dropped if and only if every PUBLISH that is queued, long as
    its check may have been ago, still finds the buffer below the limit.
  */
  lemma NothingDroppedIff(steps: seq<Step>)
    requires CanRun(Initial(), steps)
    ensures |Run(Initial(), steps).dropped| == FullEnqueues(Initial(), steps)
    ensures Run(Initial(), steps).dropped == multiset{} <==> NeverFull(Initial(), steps)
  {
    RunDrops(Initial(), steps);
    var d := Run(Initial(), steps).dropped;
    assert |d| == 0 <==> d == multiset{};
  }

  // ---------- one call at a time ----------

  /** A PUBLISH has passed its check and is not queued yet. */
  predicate Cleared(x: Send, c: int) {
    x.client == c && x.kind.Publish? && x.checked
  }

  /** A call passes its check only when no other call of the client has passed and not queued yet. */
  ghost predicate Serial(st: State, s: Step)
    requires Enabled(st, s)
  {
    s.DoCheck? ==> forall k :: 0 <= k < |st.sending| ==> !Cleared(st.sending[k], st.sending[s.k].client)
  }

  /** No client is to delete its oldest messages. */
  ghost predicate KeepsOldest(s: Step) {
    s.DoCreate? ==> !s.info.deleteOldest
  }

  /** At most one call has passed the check, and then there is room for it. */
  ghost predicate RoomForCleared(st: State, c: int) {
    && (forall i, j :: 0 <= i < j < |st.sending| ==> !(Cleared(st.sending[i], c) && Cleared(st.sending[j], c)))
    && (c in st.clients ==> !st.clients[c].deleteOldest
                            && ((exists i :: 0 <= i < |st.sending| && Cleared(st.sending[i], c)) ==>
                                 !Full(st.clients[c])))
    && (forall i :: 0 <= i < |st.sending| ==> st.sending[i].client in st.clients)
  }

  ghost predicate AllRoom(st: State) {
    forall c :: RoomForCleared(st, c)
  }

  lemma RoomAtEnqueue(st: State, s: Step)
    requires AllRoom(st) && Enabled(st, s)
    ensures !FindsFull(st, s)
  {
    if s.DoEnqueue? {
      var x := st.sending[s.k];
      assert RoomForCleared(st, x.client);
      assert x.kind.Publish? ==> Cleared(st.sending[s.k], x.client);
    }
  }

  lemma CheckKeepsRoom(st: State, s: Step, c: int)
    requires AllRoom(st) && Enabled(st, s) && s.DoCheck? && Serial(st, s)
    ensures RoomForCleared(Next(st, s), c)
  {
    assert RoomForCleared(st, c) && RoomForCleared(st, st.sending[s.k].client);
    var t := Next(st, s);
    forall i, j | 0 <= i < j < |t.sending| ensures !(Cleared(t.sending[i], c) && Cleared(t.sending[j], c)) {
      assert i != s.k ==> t.sending[i] == st.sending[i];
      assert j != s.k ==> t.sending[j] == st.sending[j];
    }
  }

  lemma GiveUpKeepsRoom(st: State, k: nat, t: State, c: int)
    requires RoomForCleared(st, c) && k < |st.sending| && t.sending == Without(st.sending, k) && t.clients == st.clients
    ensures RoomForCleared(t, c)
  {
    forall i | 0 <= i < |t.sending| ensures t.sending[i] == st.sending[if i < k then i else i + 1] {
    }
  }

  lemma ReserveKeepsRoom(st: State, s: Step, c: int)
    requires RoomForCleared(st, c) && Enabled(st, s) && s.DoReserve?
    ensures RoomForCleared(Next(st, s), c)
  {
    hide UsedIds, TokenInUse;
    var t := Next(st, s);
    assert !Cleared(t.sending[|st.sending|], c);
    forall i | 0 <= i < |st.sending| ensures t.sending[i] == st.sending[i] {
    }
  }

  lemma EnqueueKeepsRoom(st: State, k: nat, c: int)
    requires AllRoom(st) && Enabled(st, DoEnqueue(k))
    ensures RoomForCleared(Enqueue(st, k), c)
  {
    hide Accept;
    var x, t, st1 := st.sending[k], Enqueue(st, k), st.(sending := Without(st.sending, k));
    assert RoomForCleared(st, c);
    AcceptEffect(st1, x);
    GiveUpKeepsRoom(st, k, st1, c);
    if x.client == c && x.kind.Publish? {
      OnlyOneCleared(st, k, c);
    }
    AfterAccept(st1, t, x, c);
  }

  lemma OnlyOneCleared(st: State, k: nat, c: int)
    requires RoomForCleared(st, c) && k < |st.sending| && Cleared(st.sending[k], c)
    ensures forall i :: 0 <= i < |Without(st.sending, k)| ==> !Cleared(Without(st.sending, k)[i], c)
  {
    var rest := Without(st.sending, k);
    forall i | 0 <= i < |rest| ensures !Cleared(rest[i], c) {
      assert rest[i] == st.sending[if i < k then i else i + 1];
    }
  }

  /** Queueing moves at most the counter of its own client, and only for a PUBLISH. */
  lemma AcceptEffect(st: State, x: Send)
    requires x.client in st.clients
    ensures var t := Accept(st, x.client, x.kind, x.token, x.cb);
            && t.sending == st.sending && t.clients.Keys == st.clients.Keys
            && (forall d :: d in st.clients && (d != x.client || !x.kind.Publish?) ==> t.clients[d] == st.clients[d])
            && t.clients[x.client].limit == st.clients[x.client].limit
            && t.clients[x.client].deleteOldest == st.clients[x.client].deleteOldest
  {
    hide Find, Without;
  }

  lemma AfterAccept(st: State, t: State, x: Send, c: int)
    requires RoomForCleared(st, c) && t.sending == st.sending && t.clients.Keys == st.clients.Keys
    requires forall d :: d in st.clients && (d != x.client || !x.kind.Publish?) ==> t.clients[d] == st.clients[d]
    requires x.client in t.clients && t.clients[x.client].deleteOldest == st.clients[x.client].deleteOldest
    requires x.client == c && x.kind.Publish? ==> forall i :: 0 <= i < |st.sending| ==> !Cleared(st.sending[i], c)
    ensures RoomForCleared(t, c)
  {
  }

  lemma StepKeepsRoom(st: State, s: Step)
    requires AllRoom(st) && Enabled(st, s) && Serial(st, s) && KeepsOldest(s)
    ensures AllRoom(Next(st, s))
  {
    hide RoomForCleared, Serial, Enqueue, AcceptControl, Process, Destroy, Create, WriteComplete, Acknowledge;
    hide FreeResponses, Reserve, UsedIds, TokenInUse, CountPublish;
    var t := Next(st, s);
    forall c ensures RoomForCleared(t, c) {
      assert RoomForCleared(st, c);
      match s
      case DoReserve(_, _, _, _) => ReserveKeepsRoom(st, s, c);
      case DoCheck(_) => CheckKeepsRoom(st, s, c);
      case DoGiveUp(k) => GiveUpKeepsRoom(st, k, t, c);
      case DoEnqueue(k) => EnqueueKeepsRoom(st, k, c);
      case _ => OtherKeepsRoom(st, s, c);
    }
  }

  lemma OtherKeepsRoom(st: State, s: Step, c: int)
    requires RoomForCleared(st, c) && Enabled(st, s) && KeepsOldest(s) && !Talks(s) && !s.DoEnqueue?
    ensures RoomForCleared(Next(st, s), c)
  {
    hide Cleared, Process, Destroy, Create, AcceptControl, WriteComplete, Acknowledge, FreeResponses;
    hide UsedIds, TokenInUse, CountPublish;
    OtherSending(st, s);
    if QuietStep(s) {
      StepQuiet(st, s);
    } else if s.DoProcess? {
      ProcessClients(st, s.i, s.rc);
    } else if s.DoDestroy? {
      DestroyEffect(st, s.client);
    } else if s.DoAcceptControl? {
      ControlClients(st, s);
    } else {
      CreateKeepsRoom(st, s, c);
    }
  }

  lemma ControlClients(st: State, s: Step)
    requires Enabled(st, s) && s.DoAcceptControl?
    ensures Next(st, s).clients == st.clients
  {
    hide Without;
  }

  /** A new client has no calls under way. */
  lemma CreateKeepsRoom(st: State, s: Step, c: int)
    requires RoomForCleared(st, c) && Enabled(st, s) && s.DoCreate? && KeepsOldest(s)
    ensures RoomForCleared(Next(st, s), c)
  {
    hide Uids, CountPublish;
  }

  ghost predicate AllSerial(st: State, steps: seq<Step>)
    requires CanRun(st, steps)
    decreases |steps|
  {
    steps == [] || (Serial(st, steps[0]) && KeepsOldest(steps[0]) && AllSerial(Next(st, steps[0]), steps[1..]))
  }

  lemma {:induction false} SerialNeverFull(st: State, steps: seq<Step>)
    requires AllRoom(st) && CanRun(st, steps) && AllSerial(st, steps)
    ensures NeverFull(st, steps)
    decreases |steps|
  {
    hide AllRoom, FindsFull, Serial, Enabled, Next;
    if steps != [] {
      RoomAtEnqueue(st, steps[0]);
      StepKeepsRoom(st, steps[0]);
      SerialNeverFull(Next(st, steps[0]), steps[1..]);
    }
  }

  /** With deleteOldestMessages 0 everywhere and at most one call per client between its check and its
      queueing, nothing is ever dropped. */
  lemma OneCallAtATimeDropsNothing(steps: seq<Step>)
    requires CanRun(Initial(), steps) && AllSerial(Initial(), steps)
    ensures Run(Initial(), steps).dropped == multiset{}
  {
    SerialNeverFull(Initial(), steps);
    NothingDroppedIff(steps);
  }

  // ---------- two calls at a time ----------

  /** A client that buffers one message and is not to delete the oldest. */
  function OneMessageClient(buffered: int): ClientInfo {
    ClientInfo(false, true, false, [], 10, 0, Some(1), false, 0, buffered, None)
  }

  function Qos0(checked: bool, cb: Callbacks): Send {
    Send(1, Publish(0), 0, cb, checked)
  }

  function TwoCalls(sending: seq<Send>, buffered: int, commands: seq<Command>, nextUid: nat,
                    accepted: multiset<nat>, dropped: multiset<nat>): State
  {
    State(commands, [], sending, map[1 := OneMessageClient(buffered)], nextUid, accepted, multiset{}, dropped, [], [])
  }

  /** Two threads pass the check before either has queued its message: the message queued first is dropped,
      although the client is not to delete its oldest messages. */
  lemma TwoCallsDropOne(cb: Callbacks)
    ensures var reserve := DoReserve(1, Publish(0), 0, cb);
            var steps := [DoCreate(1, OneMessageClient(0), [])]
                         + ([reserve] + ([reserve] + ([DoCheck(0)] + ([DoCheck(1)] + [DoEnqueue(0), DoEnqueue(0)]))));
            && CanRun(Initial(), steps)
            && Run(Initial(), steps).dropped == multiset{0}
  {
    hide Enabled, Next, CanRun, Run, TwoCalls;
    var no, yes := Qos0(false, cb), Qos0(true, cb);
    var a, b := DoCreate(1, OneMessageClient(0), []), DoReserve(1, Publish(0), 0, cb);
    var two := [DoEnqueue(0), DoEnqueue(0)];
    FirstCreated();
    Reserved([], cb);
    Reserved([no], cb);
    assert [] + [no] == [no] && [no] + [no] == [no, no];
    FirstPasses(cb);
    SecondPasses(cb);
    BothQueued(cb);
    RunCons(TwoCalls([yes, no], 0, [], 0, multiset{}, multiset{}), DoCheck(1), two);
    RunCons(TwoCalls([no, no], 0, [], 0, multiset{}, multiset{}), DoCheck(0), [DoCheck(1)] + two);
    RunCons(TwoCalls([no], 0, [], 0, multiset{}, multiset{}), b, [DoCheck(0)] + ([DoCheck(1)] + two));
    RunCons(TwoCalls([], 0, [], 0, multiset{}, multiset{}), b, [b] + ([DoCheck(0)] + ([DoCheck(1)] + two)));
    RunCons(Initial(), a, [b] + ([b] + ([DoCheck(0)] + ([DoCheck(1)] + two))));
  }

  lemma FirstCreated()
    ensures var s := DoCreate(1, OneMessageClient(0), []);
            Enabled(Initial(), s) && Next(Initial(), s) == TwoCalls([], 0, [], 0, multiset{}, multiset{})
  {
    assert CountPublish([], 1) == 0 && Uids([]) == multiset{};
  }

  lemma Reserved(sending: seq<Send>, cb: Callbacks)
    ensures var st, s := TwoCalls(sending, 0, [], 0, multiset{}, multiset{}), DoReserve(1, Publish(0), 0, cb);
            && Enabled(st, s)
            && Next(st, s) == TwoCalls(sending + [Qos0(false, cb)], 0, [], 0, multiset{}, multiset{})
  {
  }

  lemma FirstPasses(cb: Callbacks)
    ensures var st := TwoCalls([Qos0(false, cb), Qos0(false, cb)], 0, [], 0, multiset{}, multiset{});
            && Enabled(st, DoCheck(0))
            && Next(st, DoCheck(0)) == TwoCalls([Qos0(true, cb), Qos0(false, cb)], 0, [], 0, multiset{}, multiset{})
  {
  }

  lemma SecondPasses(cb: Callbacks)
    ensures var st := TwoCalls([Qos0(true, cb), Qos0(false, cb)], 0, [], 0, multiset{}, multiset{});
            && Enabled(st, DoCheck(1))
            && Next(st, DoCheck(1)) == TwoCalls([Qos0(true, cb), Qos0(true, cb)], 0, [], 0, multiset{}, multiset{})
  {
  }

  lemma BothQueued(cb: Callbacks)
    ensures var st := TwoCalls([Qos0(true, cb), Qos0(true, cb)], 0, [], 0, multiset{}, multiset{});
            && CanRun(st, [DoEnqueue(0), DoEnqueue(0)])
            && Run(st, [DoEnqueue(0), DoEnqueue(0)]).dropped == multiset{0}
  {
    hide CanRun, Run;
    var st := TwoCalls([Qos0(true, cb), Qos0(true, cb)], 0, [], 0, multiset{}, multiset{});
    var cmd := Command(0, 1, Publish(0), 0, cb);
    var s1 := TwoCalls([Qos0(true, cb)], 1, [cmd], 1, multiset{0}, multiset{});
    assert Without(st.sending, 0) == [Qos0(true, cb)];
    assert Enabled(st, DoEnqueue(0)) && Next(st, DoEnqueue(0)) == s1;
    SecondDrops(cb);
    var s2 := Next(s1, DoEnqueue(0));
    RunNothing(s2);
    RunCons(s1, DoEnqueue(0), []);
    RunCons(st, DoEnqueue(0), [DoEnqueue(0)] + []);
    assert [DoEnqueue(0)] + ([DoEnqueue(0)] + []) == [DoEnqueue(0), DoEnqueue(0)];
  }

  lemma SecondDrops(cb: Callbacks)
    ensures var st := TwoCalls([Qos0(true, cb)], 1, [Command(0, 1, Publish(0), 0, cb)], 1, multiset{0}, multiset{});
            Enabled(st, DoEnqueue(0)) && Next(st, DoEnqueue(0)).dropped == multiset{0}
  {
    var a, b := Command(0, 1, Publish(0), 0, cb), Command(1, 1, Publish(0), 0, cb);
    assert [a] + [b] == [a, b] && Find([a, b], 1, APublish) == 0;
  }
}
