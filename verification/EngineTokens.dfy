/** Packet identifiers in the command engine: within a client no two commands carry the same one. */
module EngineTokens {
  import opened Sequences
  import opened MessageIds
  import opened Engine
  import opened EngineEffects
  import opened EngineLists

  ghost predicate Apart(a: Command, b: Command) {
    a.client == b.client && a.token != 0 ==> a.token != b.token
  }

  /** A queued command belongs to a live client, its token is not in flight, and a message that will be
      put in flight has one. */
  ghost predicate Placed(clients: map<int, ClientInfo>, x: Command) {
    && x.client in clients
    && (x.token != 0 ==> x.token !in clients[x.client].outbound)
    && (x.kind.Publish? && x.kind.qos > 0 ==> x.token != 0)
  }

  ghost predicate AllPlaced(clients: map<int, ClientInfo>, s: seq<Command>) {
    forall i :: 0 <= i < |s| ==> Placed(clients, s[i])
  }

  ghost predicate Live(clients: map<int, ClientInfo>, s: seq<Command>) {
    forall i :: 0 <= i < |s| ==> s[i].client in clients
  }

  ghost predicate InFlightDistinct(clients: map<int, ClientInfo>) {
    forall c :: c in clients ==> DistinctIds(clients[c].outbound)
  }

  ghost predicate ListsApart(responses: seq<Command>, commands: seq<Command>) {
    Pairwise(commands, Apart) && Pairwise(responses, Apart) && Across(responses, commands, Apart)
  }

  /** The calls under way, as the commands they will queue. */
  function Pending(sending: seq<Send>): (r: seq<Command>)
    ensures |r| == |sending| && forall i :: 0 <= i < |sending| ==> r[i] == AsCommand(sending[i], 0)
  {
    seq(|sending|, i requires 0 <= i < |sending| => AsCommand(sending[i], 0))
  }

  function AsCommand(x: Send, uid: nat): Command {
    Command(uid, x.client, x.kind, x.token, x.cb)
  }

  /** No call under way has an id of another one, of a command, or of a message in flight. */
  ghost predicate SendsApart(st: State) {
    var p := Pending(st.sending);
    Pairwise(p, Apart) && Across(st.commands, p, Apart) && Across(st.responses, p, Apart) && AllPlaced(st.clients, p)
  }

  ghost predicate ListsDistinct(st: State) {
    && ListsApart(st.responses, st.commands)
    && AllPlaced(st.clients, st.commands)
    && Live(st.clients, st.responses)
    && InFlightDistinct(st.clients)
  }

  ghost predicate Distinct(st: State) {
    ListsDistinct(st) && SendsApart(st)
  }

  // ---------- the lists ----------

  lemma ListsAppend(rs: seq<Command>, cs: seq<Command>, more: seq<Command>)
    requires ListsApart(rs, cs) && Pairwise(more, Apart) && Across(cs, more, Apart) && Across(rs, more, Apart)
    ensures ListsApart(rs, cs + more)
  {
    PairwiseConcat(cs, more, Apart);
    AcrossConcat(rs, cs, more, Apart);
  }

  lemma ListsFront(rs: seq<Command>, cs: seq<Command>, x: Command)
    requires ListsApart(rs, cs) && x.token == 0
    ensures ListsApart(rs, [x] + cs)
  {
    PairwiseConcat([x], cs, Apart);
    AcrossConcat(rs, [x], cs, Apart);
  }

  lemma ListsWithout(rs: seq<Command>, cs: seq<Command>, i: nat)
    requires ListsApart(rs, cs) && i < |cs|
    ensures ListsApart(rs, Without(cs, i))
  {
    PairwiseWithout(cs, i, Apart);
    AcrossWithout(rs, cs, i, Apart);
  }

  lemma ListsAnswer(rs: seq<Command>, cs: seq<Command>, i: nat)
    requires ListsApart(rs, cs) && i < |rs|
    ensures ListsApart(Without(rs, i), cs)
  {
    PairwiseWithout(rs, i, Apart);
    WithoutAcross(rs, i, cs, Apart);
  }

  /** The command at position i moves from the queue to the responses. */
  lemma ListsMove(rs: seq<Command>, cs: seq<Command>, i: nat)
    requires ListsApart(rs, cs) && i < |cs|
    ensures ListsApart(rs + [cs[i]], Without(cs, i))
  {
    ListsWithout(rs, cs, i);
    PairwiseConcat(rs, [cs[i]], Apart);
    var rest := Without(cs, i);
    forall k, j | 0 <= k < |[cs[i]]| && 0 <= j < |rest| ensures Apart([cs[i]][k], rest[j]) {
      if j < i {
        assert rest[j] == cs[j] && Apart(cs[j], cs[i]);
      } else {
        assert rest[j] == cs[j + 1] && Apart(cs[i], cs[j + 1]);
      }
    }
    AcrossAppend(rs, cs[i], rest, Apart);
  }

  lemma ListsOthers(rs: seq<Command>, cs: seq<Command>, client: int)
    requires ListsApart(rs, cs)
    ensures ListsApart(Others(rs, client), Others(cs, client))
    ensures ListsApart(Others(rs, client), cs)
  {
    OthersPairwise(rs, client, Apart);
    OthersPairwise(cs, client, Apart);
    OthersAcross(rs, cs, client, Apart);
    AcrossOthers(Others(rs, client), cs, client, Apart);
  }

  lemma PlacedWithout(clients: map<int, ClientInfo>, s: seq<Command>, i: nat)
    requires AllPlaced(clients, s) && i < |s|
    ensures AllPlaced(clients, Without(s, i))
  {
    hide Placed;
  }

  lemma PlacedAppend(clients: map<int, ClientInfo>, s: seq<Command>, more: seq<Command>)
    requires AllPlaced(clients, s) && AllPlaced(clients, more)
    ensures AllPlaced(clients, s + more)
  {
    hide Placed;
  }

  // ---------- the calls under way ----------

  lemma PendingWithout(sending: seq<Send>, k: nat)
    requires k < |sending|
    ensures Pending(Without(sending, k)) == Without(Pending(sending), k)
  {
  }

  lemma SameInFlight(before: map<int, ClientInfo>, after: map<int, ClientInfo>, s: seq<Command>)
    requires AllPlaced(before, s)
    requires forall i :: 0 <= i < |s| && s[i].client in before ==>
               s[i].client in after && forall x :: x in after[s[i].client].outbound ==>
                   x in before[s[i].client].outbound
    ensures AllPlaced(after, s)
  {
  }

  /** Apart is symmetric. */
  lemma ApartBack(a: Command, b: Command)
    requires Apart(a, b)
    ensures Apart(b, a)
  {
  }

  /** A call that queues its command leaves the others apart from it. */
  lemma SendsAfterEnqueue(st: State, k: nat, uid: nat)
    requires SendsApart(st) && k < |st.sending|
    ensures var p, cmd := Pending(Without(st.sending, k)), AsCommand(st.sending[k], uid);
            && Pairwise(p, Apart) && Across(st.commands + [cmd], p, Apart) && Across(st.responses, p, Apart)
            && AllPlaced(st.clients, p)
            && Across(st.commands, [cmd], Apart) && Across(st.responses, [cmd], Apart)
            && AllPlaced(st.clients, [cmd])
  {
    var all, cmd := Pending(st.sending), AsCommand(st.sending[k], uid);
    PendingWithout(st.sending, k);
    var p := Without(all, k);
    PairwiseWithout(all, k, Apart);
    AcrossWithout(st.commands, all, k, Apart);
    AcrossWithout(st.responses, all, k, Apart);
    PlacedWithout(st.clients, all, k);
    forall i, j | 0 <= i < |[cmd]| && 0 <= j < |p| ensures Apart([cmd][i], p[j]) {
      assert Apart(all[k], p[j]) by {
        if j < k {
          ApartBack(all[j], all[k]);
        } else {
          assert p[j] == all[j + 1];
        }
      }
    }
    AcrossAppend(st.commands, cmd, p, Apart);
    Single(st, k, cmd);
  }

  lemma Single(st: State, k: nat, cmd: Command)
    requires SendsApart(st) && k < |st.sending| && cmd == AsCommand(st.sending[k], cmd.uid)
    ensures Across(st.commands, [cmd], Apart) && Across(st.responses, [cmd], Apart) && AllPlaced(st.clients, [cmd])
  {
    var x := Pending(st.sending)[k];
    forall i | 0 <= i < |st.commands| ensures Apart(st.commands[i], cmd) {
      assert Apart(st.commands[i], x);
    }
    forall i | 0 <= i < |st.responses| ensures Apart(st.responses[i], cmd) {
      assert Apart(st.responses[i], x);
    }
    assert Placed(st.clients, x);
  }

  // ---------- the steps ----------

  /** No other call under way for the client holds the id. */
  ghost predicate Unheld(st: State, client: int, token: int) {
    forall k :: 0 <= k < |st.sending| && st.sending[k].client == client ==> st.sending[k].token != token
  }

  lemma FreeIsUnused(st: State, client: int, token: int)
    requires client in st.clients && 1 <= token <= MAX_MSG_ID
    requires FirstFreeAfter(st.clients[client].lastId, UsedIds(st, client), token)
    ensures !TokenInUse(st, client, token)
  {
    hide TokenInUse;
    assert token !in UsedIds(st, client);
  }

  lemma ReserveKeepsTokens(st: State, s: Step)
    requires Distinct(st) && Enabled(st, s) && s.DoReserve? && (s.token != 0 ==> Unheld(st, s.client, s.token))
    ensures Distinct(Next(st, s))
  {
    hide ListsApart;
    var t := Next(st, s);
    TalkQuiet(st, s);
    var x := AsCommand(Send(s.client, s.kind, s.token, s.cb, false), 0);
    if s.token != 0 {
      FreeIsUnused(st, s.client, s.token);
    }
    NewToken(st, x);
    assert Pending(t.sending) == Pending(st.sending) + [x];
    PairwiseConcat(Pending(st.sending), [x], Apart);
    AcrossConcat(st.commands, Pending(st.sending), [x], Apart);
    AcrossConcat(st.responses, Pending(st.sending), [x], Apart);
    PlacedAppend(st.clients, Pending(st.sending), [x]);
    SameInFlight(st.clients, t.clients, st.commands);
    SameInFlight(st.clients, t.clients, Pending(t.sending));
  }

  lemma NewToken(st: State, cmd: Command)
    requires cmd.client in st.clients && AppKind(cmd.kind)
    requires if cmd.kind.Publish? && cmd.kind.qos == 0 then cmd.token == 0
             else cmd.token >= 1 && !TokenInUse(st, cmd.client, cmd.token) && Unheld(st, cmd.client, cmd.token)
    ensures Pairwise([cmd], Apart) && Across(st.commands, [cmd], Apart) && Across(st.responses, [cmd], Apart)
    ensures Across(Pending(st.sending), [cmd], Apart) && AllPlaced(st.clients, [cmd])
  {
  }

  lemma TalkKeepsTokens(st: State, s: Step)
    requires Distinct(st) && Enabled(st, s) && (s.DoCheck? || s.DoGiveUp?)
    ensures Distinct(Next(st, s))
  {
    hide ListsApart;
    var t, all := Next(st, s), Pending(st.sending);
    if s.DoCheck? {
      assert Pending(t.sending) == all;
    } else {
      PendingWithout(st.sending, s.k);
      PairwiseWithout(all, s.k, Apart);
      AcrossWithout(st.commands, all, s.k, Apart);
      AcrossWithout(st.responses, all, s.k, Apart);
      PlacedWithout(st.clients, all, s.k);
    }
  }

  lemma EnqueueKeepsTokens(st: State, k: nat)
    requires Distinct(st) && Enabled(st, DoEnqueue(k))
    ensures Distinct(Enqueue(st, k))
  {
    hide ListsApart, AllPlaced, Find, Without;
    var x := st.sending[k];
    var cmd := AsCommand(x, st.nextUid);
    var longer := st.commands + [cmd];
    SendsAfterEnqueue(st, k, st.nextUid);
    assert Pairwise([cmd], Apart);
    ListsAppend(st.responses, st.commands, [cmd]);
    PlacedAppend(st.clients, st.commands, [cmd]);
    AcceptedTokens(st.(sending := Without(st.sending, k)), x, cmd);
  }

  /** The command has been appended; the buffer may have made room for it. */
  lemma AcceptedTokens(st: State, x: Send, cmd: Command)
    requires x.client in st.clients && AppKind(x.kind) && cmd == AsCommand(x, st.nextUid)
    requires ListsApart(st.responses, st.commands + [cmd]) && AllPlaced(st.clients, st.commands + [cmd])
    requires Live(st.clients, st.responses) && InFlightDistinct(st.clients)
    requires var p := Pending(st.sending);
             && Pairwise(p, Apart) && Across(st.commands + [cmd], p, Apart) && Across(st.responses, p, Apart)
             && AllPlaced(st.clients, p)
    ensures Distinct(Accept(st, x.client, x.kind, x.token, x.cb))
  {
    hide ListsApart, AllPlaced, Find, Without;
    var longer := st.commands + [cmd];
    var t := Accept(st, x.client, x.kind, x.token, x.cb);
    AcceptClients(st, x.client, x.kind, x.token, x.cb);
    if x.kind.Publish? && Full(st.clients[x.client]) && Find(longer, x.client, APublish) >= 0 {
      var i := Find(longer, x.client, APublish);
      ListsWithout(st.responses, longer, i);
      PlacedWithout(st.clients, longer, i);
      WithoutAcross(longer, i, Pending(st.sending), Apart);
    } else {
      SameInFlight(st.clients, t.clients, longer);
      SameInFlight(st.clients, t.clients, Pending(st.sending));
    }
  }

  lemma AcceptControlKeepsTokens(st: State, client: int, kind: Kind, cb: Callbacks, victim: int)
    requires Distinct(st) && Enabled(st, DoAcceptControl(client, kind, cb, victim))
    ensures Distinct(AcceptControl(st, client, kind, cb, victim))
  {
    hide ListsApart, AllPlaced, Without;
    var cmd := Command(st.nextUid, client, kind, 0, cb);
    var p := Pending(st.sending);
    assert AllPlaced(st.clients, [cmd]) by { ControlPlaced(st.clients, cmd); }
    assert Pairwise([cmd], Apart) && Across(st.commands, [cmd], Apart) && Across(st.responses, [cmd], Apart);
    assert Across([cmd], p, Apart);
    ListsAppend(st.responses, st.commands, [cmd]);
    PlacedAppend(st.clients, st.commands, [cmd]);
    AcrossAppend(st.commands, cmd, p, Apart);
    var rest := if victim < 0 then st.commands else Without(st.commands, victim);
    if victim >= 0 {
      ListsWithout(st.responses, st.commands, victim);
      PlacedWithout(st.clients, st.commands, victim);
      WithoutAcross(st.commands, victim, p, Apart);
    }
    ListsFront(st.responses, rest, cmd);
    PlacedAppend(st.clients, [cmd], rest);
    FrontAcross(cmd, rest, p);
  }

  lemma FrontAcross(cmd: Command, rest: seq<Command>, p: seq<Command>)
    requires cmd.token == 0 && Across(rest, p, Apart)
    ensures Across([cmd] + rest, p, Apart)
  {
    var s := [cmd] + rest;
    forall i, j | 0 <= i < |s| && 0 <= j < |p| ensures Apart(s[i], p[j]) {
      assert i > 0 ==> s[i] == rest[i - 1];
    }
  }

  lemma ControlPlaced(clients: map<int, ClientInfo>, cmd: Command)
    requires cmd.client in clients && cmd.token == 0 && !cmd.kind.Publish?
    ensures AllPlaced(clients, [cmd])
  {
  }

  /** The token that goes in flight was nowhere in flight, and no other queued command has it. */
  lemma ChargedPlaced(st: State, i: nat, rc: Rc)
    requires ListsDistinct(st) && i < |st.commands| && st.commands[i].kind.Publish?
    ensures var c := st.commands[i];
            var after := st.clients[c.client := Charged(st.clients[c.client], c, rc)];
            AllPlaced(after, Without(st.commands, i)) && InFlightDistinct(after)
  {
    var c := st.commands[i];
    var after := st.clients[c.client := Charged(st.clients[c.client], c, rc)];
    var rest := Without(st.commands, i);
    forall j | 0 <= j < |rest| ensures Placed(after, rest[j]) {
      var k := if j < i then j else j + 1;
      assert rest[j] == st.commands[k] && Placed(st.clients, st.commands[k]);
      assert if k < i then Apart(st.commands[k], c) else Apart(c, st.commands[k]);
    }
  }

  /** Nor has a call under way. */
  lemma ChargedPending(st: State, i: nat, rc: Rc)
    requires Distinct(st) && i < |st.commands| && st.commands[i].kind.Publish?
    ensures var c := st.commands[i];
            AllPlaced(st.clients[c.client := Charged(st.clients[c.client], c, rc)], Pending(st.sending))
  {
    var c, p := st.commands[i], Pending(st.sending);
    var after := st.clients[c.client := Charged(st.clients[c.client], c, rc)];
    forall j | 0 <= j < |p| ensures Placed(after, p[j]) {
      assert Placed(st.clients, p[j]) && Apart(c, p[j]);
    }
  }

  lemma ProcessKeepsTokens(st: State, i: nat, rc: Rc)
    requires Distinct(st) && i < |st.commands| && st.commands[i].client in st.clients
    ensures Distinct(Process(st, i, rc))
  {
    hide ListsApart, AllPlaced, InFlightDistinct, Without, Charged;
    var p := Pending(st.sending);
    ListsWithout(st.responses, st.commands, i);
    ListsMove(st.responses, st.commands, i);
    WithoutAcross(st.commands, i, p, Apart);
    assert Across([st.commands[i]], p, Apart);
    AcrossAppend(st.responses, st.commands[i], p, Apart);
    ProcessClients(st, i, rc);
    if st.commands[i].kind.Publish? {
      ChargedPlaced(st, i, rc);
      ChargedPending(st, i, rc);
    } else {
      PlacedWithout(st.clients, st.commands, i);
    }
  }

  lemma QuietKeepsTokens(st: State, t: State)
    requires Distinct(st) && Quiet(st, t) && t.sending == st.sending
    requires ListsApart(t.responses, t.commands) && Live(t.clients, t.responses)
    requires Across(t.responses, Pending(st.sending), Apart)
    ensures Distinct(t)
  {
    hide ListsApart;
    SameInFlight(st.clients, t.clients, st.commands);
    SameInFlight(st.clients, t.clients, Pending(st.sending));
  }

  predicate Answers(s: Step) {
    s.DoWriteComplete? || s.DoAcknowledge? || s.DoFreeResponses? || s.DoLink? || s.DoLimit?
  }

  /** The responses after such a step: as before, one fewer, or those of the other clients. */
  lemma QuietResponses(st: State, s: Step)
    requires Enabled(st, s) && Answers(s)
    ensures Next(st, s).sending == st.sending
    ensures || Next(st, s).responses == st.responses
            || (exists i: nat :: i < |st.responses| && Next(st, s).responses == Without(st.responses, i))
            || Next(st, s).responses == Others(st.responses, s.client)
  {
    hide Without, Others, Mine, Find, Uids, FailAll, AckCalls, TokenInUse, UsedIds, Chosen, CountPublish;
  }

  lemma AnswerKeepsTokens(st: State, s: Step)
    requires Distinct(st) && Enabled(st, s) && Answers(s)
    ensures Distinct(Next(st, s))
  {
    hide Distinct, Next, Quiet;
    var t, p := Next(st, s), Pending(st.sending);
    StepQuiet(st, s);
    QuietResponses(st, s);
    DistinctLists(st, s.client);
    if t.responses != st.responses && t.responses != Others(st.responses, s.client) {
      var i: nat :| i < |st.responses| && t.responses == Without(st.responses, i);
      ListsAnswer(st.responses, st.commands, i);
      WithoutAcross(st.responses, i, p, Apart);
    }
    QuietLists(st, t);
    QuietKeepsTokens(st, t);
  }

  lemma DistinctLists(st: State, client: int)
    requires Distinct(st)
    ensures ListsApart(st.responses, st.commands) && Live(st.clients, st.responses)
    ensures ListsApart(Others(st.responses, client), st.commands) && Live(st.clients, Others(st.responses, client))
    ensures Across(st.responses, Pending(st.sending), Apart)
    ensures Across(Others(st.responses, client), Pending(st.sending), Apart)
  {
    hide ListsApart;
    ListsOthers(st.responses, st.commands, client);
    OthersAcross(st.responses, Pending(st.sending), client, Apart);
    OthersFrom(st.responses, client);
    var rest := Others(st.responses, client);
    forall i | 0 <= i < |rest| ensures rest[i].client in st.clients {
      assert rest[i] in st.responses;
    }
  }

  lemma QuietLists(st: State, t: State)
    requires Quiet(st, t) && Live(st.clients, t.responses)
    ensures t.commands == st.commands && Live(t.clients, t.responses)
  {
  }

  lemma DestroyKeepsTokens(st: State, client: int)
    requires Distinct(st) && Enabled(st, DoDestroy(client))
    ensures Distinct(Destroy(st, client))
  {
    hide ListsApart, Destroy;
    DestroyEffect(st, client);
    var t, p := Destroy(st, client), Pending(st.sending);
    ListsOthers(st.responses, st.commands, client);
    OthersAcross(st.commands, p, client, Apart);
    OthersAcross(st.responses, p, client, Apart);
    OthersFrom(st.commands, client);
    OthersFrom(st.responses, client);
    forall i | 0 <= i < |t.commands| ensures Placed(t.clients, t.commands[i]) {
      assert t.commands[i] in st.commands;
    }
    forall i | 0 <= i < |t.responses| ensures t.responses[i].client in t.clients {
      assert t.responses[i] in st.responses;
    }
    forall i | 0 <= i < |p| ensures Placed(t.clients, p[i]) {
      assert Placed(st.clients, p[i]) && st.sending[i].client != client;
    }
  }

  lemma CreateKeepsTokens(st: State, client: int, info: ClientInfo, restored: seq<Command>)
    requires Distinct(st) && Enabled(st, DoCreate(client, info, restored))
    ensures Distinct(Create(st, client, info, restored))
  {
    hide ListsApart, Uids, CountPublish;
    var p := Pending(st.sending);
    assert Across(st.commands, restored, Apart) && Across(st.responses, restored, Apart);
    ListsAppend(st.responses, st.commands, restored);
    var after := st.clients[client := info];
    SameInFlight(st.clients, after, st.commands);
    SameInFlight(st.clients, after, p);
    PlacedAppend(after, st.commands, restored);
    forall i, j | 0 <= i < |st.commands + restored| && 0 <= j < |p| ensures Apart((st.commands + restored)[i], p[j]) {
      assert Placed(st.clients, p[j]);
    }
  }

  /** A reserved id is not one that another call of the client still holds. */
  ghost predicate Careful(st: State, s: Step) {
    s.DoReserve? && s.token != 0 ==> Unheld(st, s.client, s.token)
  }

  lemma StepKeepsTokens(st: State, s: Step)
    requires Distinct(st) && Enabled(st, s) && Careful(st, s)
    ensures Distinct(Next(st, s))
  {
    hide Distinct, Enqueue, AcceptControl, Process, Destroy, Create, WriteComplete, Acknowledge, FreeResponses, Reserve;
    hide TokenInUse, UsedIds, CountPublish, Unheld;
    if Answers(s) {
      AnswerKeepsTokens(st, s);
    } else {
      match s
      case DoReserve(_, _, _, _) => ReserveKeepsTokens(st, s);
      case DoCheck(_) => TalkKeepsTokens(st, s);
      case DoGiveUp(_) => TalkKeepsTokens(st, s);
      case DoEnqueue(k) => EnqueueKeepsTokens(st, k);
      case DoAcceptControl(c, kind, cb, victim) => AcceptControlKeepsTokens(st, c, kind, cb, victim);
      case DoProcess(_, i, rc) => ProcessKeepsTokens(st, i, rc);
      case DoDestroy(c) => DestroyKeepsTokens(st, c);
      case DoCreate(c, info, restored) => CreateKeepsTokens(st, c, info, restored);
    }
  }

  /**
    What the ids are for: those a client has in flight are pairwise distinct, none of them belongs to a
    queued command, and of the commands waiting for a response at most one has a given id, so an
    acknowledgement can only answer the command it is for.
  */
  ghost predicate Unshared(st: State, client: int)
    requires client in st.clients
  {
    && DistinctIds(st.clients[client].outbound)
    && (forall i | 0 <= i < |st.commands| && st.commands[i].client == client && st.commands[i].token != 0
          :: st.commands[i].token !in st.clients[client].outbound)
    && (forall i, token | 0 <= i < |st.responses| && st.responses[i].client == client
          && st.responses[i].token == token && token != 0
          :: Find(st.responses, client, WithToken(token)) == i)
  }

  lemma DistinctIsUnshared(st: State, client: int)
    requires Distinct(st) && client in st.clients
    ensures Unshared(st, client)
  {
    forall i | 0 <= i < |st.commands| && st.commands[i].client == client && st.commands[i].token != 0
      ensures st.commands[i].token !in st.clients[client].outbound
    {
      assert Placed(st.clients, st.commands[i]);
    }
    forall i, token | 0 <= i < |st.responses| && st.responses[i].client == client
                      && st.responses[i].token == token && token != 0
      ensures Find(st.responses, client, WithToken(token)) == i
    {
      FindsOnly(st.responses, client, i);
    }
  }

  lemma FindsOnly(s: seq<Command>, client: int, i: nat)
    requires Pairwise(s, Apart) && i < |s| && s[i].client == client && s[i].token != 0
    ensures Find(s, client, WithToken(s[i].token)) == i
  {
    var k := Find(s, client, WithToken(s[i].token));
    assert k < i ==> Apart(s[k], s[i]);
  }
}
