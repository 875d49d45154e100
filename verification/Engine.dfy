/**
  The command engine of MQTTAsync.c: one queue shared by all clients, a list of commands waiting for
  a response per client (kept here as one list whose elements name their client), and the steps the
  send and receive threads take under the mutexes.  Commands are told apart by a number given when
  they are accepted, as the C code tells them apart by address.
*/
module Engine {
  import opened Sequences
  import opened MessageIds

  datatype Kind = Connect | Disconnect(internal: bool) | Subscribe | Unsubscribe | Publish(qos: nat)

  datatype Callbacks = Callbacks(onSuccess: bool, onFailure: bool, onSuccess5: bool, onFailure5: bool)

  datatype Command = Command(uid: nat, client: int, kind: Kind, token: int, cb: Callbacks)

  datatype Option<T> = None | Some(value: T)

  /** lastId: msgID; limit: maxBufferedMessages, when create options were given; deleteOldest:
      deleteOldestMessages; restored: PUBLISH commands found in the store at start. */
  datatype ClientInfo = ClientInfo(
    connected: bool, idle: bool, v5: bool,
    outbound: seq<int>, maxInflight: int, lastId: MsgId,
    limit: Option<int>, deleteOldest: bool, restored: int, buffered: int, pendingWrite: Option<nat>)

  /** A call of MQTTAsync_send, MQTTAsync_subscribe or MQTTAsync_unsubscribe that has its id and has not queued
      its command yet; checked: it has passed the check of the offline buffer, or has none to pass. */
  datatype Send = Send(client: int, kind: Kind, token: int, cb: Callbacks, checked: bool)

  datatype Fired = Fired(uid: nat, success: bool)

  /** The two lists, the calls under way in the application's threads, the clients, and what has happened so far. */
  datatype State = State(
    commands: seq<Command>, responses: seq<Command>, sending: seq<Send>, clients: map<int, ClientInfo>, nextUid: nat,
    accepted: multiset<nat>, finished: multiset<nat>, dropped: multiset<nat>,
    fired: seq<Fired>, started: seq<Command>)

  predicate AppKind(k: Kind) {
    k.Subscribe? || k.Unsubscribe? || k.Publish?
  }

  /** SUBSCRIBE, UNSUBSCRIBE and PUBLISH: the commands with a token. */
  predicate App(c: Command) {
    AppKind(c.kind)
  }

  function SetClient(st: State, c: int, info: ClientInfo): State {
    st.(clients := st.clients[c := info])
  }

  // ---------- adding commands: MQTTAsync_addCommand ----------

  /** What the loops over the two lists look for: the oldest PUBLISH, a token, one particular command. */
  datatype Wanted = APublish | WithToken(token: int) | WithUid(uid: nat)

  predicate Fits(c: Command, client: int, w: Wanted) {
    c.client == client &&
    match w
    case APublish => c.kind.Publish?
    case WithToken(token) => c.token == token
    case WithUid(uid) => c.uid == uid
  }

  /** The first command of the client that fits, or -1. */
  function Find(s: seq<Command>, client: int, w: Wanted): (r: int)
    ensures -1 <= r < |s|
    ensures r >= 0 ==> Fits(s[r], client, w) && forall i :: 0 <= i < r ==> !Fits(s[i], client, w)
    ensures r < 0 ==> forall i :: 0 <= i < |s| ==> !Fits(s[i], client, w)
  {
    if s == [] then -1
    else if Fits(s[0], client, w) then 0
    else
      var r := Find(s[1..], client, w);
      assert forall i :: 1 <= i < |s| ==> s[i] == s[1..][i - 1];
      if r < 0 then -1 else r + 1
  }

  predicate Full(info: ClientInfo) {
    info.limit.Some? && info.buffered >= info.limit.value
  }

  /** An application command: appended, and for a PUBLISH either counted or paid for with the oldest one. */
  function Accept(st: State, client: int, kind: Kind, token: int, cb: Callbacks): State
    requires client in st.clients
  {
    var cmd := Command(st.nextUid, client, kind, token, cb);
    var st1 := st.(commands := st.commands + [cmd], nextUid := st.nextUid + 1,
                   accepted := st.accepted + multiset{st.nextUid});
    var info := st.clients[client];
    if !kind.Publish? then st1
    else if Full(info) then
      var i := Find(st1.commands, client, APublish);
      if i < 0 then st1
      else st1.(commands := Without(st1.commands, i), dropped := st1.dropped + multiset{st1.commands[i].uid})
    else SetClient(st1, client, info.(buffered := info.buffered + 1))
  }

  predicate SameControl(a: Command, b: Command) {
    a.client == b.client && ((a.kind.Connect? && b.kind.Connect?) || (a.kind.Disconnect? && b.kind.Disconnect?))
  }

  /** CONNECT and DISCONNECT: to the head, replacing an equal command elsewhere in the queue (at
      position victim, if any), unless the head already is one.  A DISCONNECT by the application is appended. */
  function AcceptControl(st: State, client: int, kind: Kind, cb: Callbacks, victim: int): State
    requires victim < |st.commands|
  {
    var cmd := Command(st.nextUid, client, kind, 0, cb);
    var st1 := st.(nextUid := st.nextUid + 1);
    if kind == Disconnect(false) then st1.(commands := st.commands + [cmd])
    else if st.commands != [] && SameControl(st.commands[0], cmd) then st1
    else st1.(commands := [cmd] + if victim < 0 then st.commands else Without(st.commands, victim))
  }

  // ---------- choosing: the loop in MQTTAsync_processCommand ----------

  /** Whether the command may be processed now; writable: clients without a pending socket write. */
  predicate Ready(clients: map<int, ClientInfo>, writable: set<int>, c: Command) {
    c.client in clients &&
    var info := clients[c.client];
    && (App(c) ==> info.connected && info.idle && c.client in writable)
    && (App(c) ==> |info.outbound| < MAX_MSG_ID - 1)
    && (c.kind.Subscribe? || c.kind.Unsubscribe? || (c.kind.Publish? && c.kind.qos > 0) ==>
         |info.outbound| < info.maxInflight)
  }

  /** The first command in the queue that is ready and is its client's earliest. */
  ghost predicate Chosen(st: State, writable: set<int>, i: nat) {
    && i < |st.commands|
    && Ready(st.clients, writable, st.commands[i])
    && (forall j :: 0 <= j < i ==> st.commands[j].client != st.commands[i].client)
    && (forall j :: 0 <= j < i && Earliest(st.commands, j) ==> !Ready(st.clients, writable, st.commands[j]))
  }

  ghost predicate Earliest(s: seq<Command>, j: nat)
    requires j < |s|
  {
    forall k :: 0 <= k < j ==> s[k].client != s[j].client
  }

  // ---------- callbacks ----------

  function OnSuccess(c: Command): seq<Fired> {
    if c.cb.onSuccess || c.cb.onSuccess5 then [Fired(c.uid, true)] else []
  }

  function OnFailure(c: Command): seq<Fired> {
    if c.cb.onFailure || c.cb.onFailure5 then [Fired(c.uid, false)] else []
  }

  function Finish(st: State, c: Command, calls: seq<Fired>): State {
    st.(finished := st.finished + multiset{c.uid}, fired := st.fired + calls)
  }

  function Wait(st: State, c: Command): State {
    st.(responses := st.responses + [c])
  }

  // ---------- processing one command ----------

  datatype Rc = Complete | Interrupted | Failed

  /** What starting a PUBLISH does to its client: one fewer buffered, its id in flight, and for QoS 0 the
      unfinished write remembered. */
  function Charged(info: ClientInfo, c: Command, rc: Rc): ClientInfo
    requires c.kind.Publish?
  {
    info.(buffered := info.buffered - 1,
          outbound := if c.kind.qos > 0 then info.outbound + [c.token] else info.outbound,
          pendingWrite := if c.kind.qos == 0 && rc != Complete then Some(c.uid) else info.pendingWrite)
  }

  /** Takes the command at position i and carries it out; rc is what the socket write gave. */
  function Process(st: State, i: nat, rc: Rc): State
    requires i < |st.commands| && st.commands[i].client in st.clients
  {
    var c := st.commands[i];
    var info := st.clients[c.client];
    var st1 := st.(commands := Without(st.commands, i));
    match c.kind
    case Connect => st1
    case Disconnect(_) => st1
    case Publish(qos) =>
      var st2 := SetClient(st1, c.client, Charged(info, c, rc)).(started := st.started + [c]);
      if rc == Failed then Finish(st2, c, OnFailure(c))
      else if qos == 0 && rc == Complete then Finish(st2, c, OnSuccess(c))
      else Wait(st2, c)
    case _ =>
      var st2 := st1.(started := st.started + [c]);
      if rc == Failed then Finish(st2, c, OnFailure(c)) else Wait(st2, c)
  }

  // ---------- responses ----------

  function Answer(st: State, i: nat, calls: seq<Fired>): State
    requires i < |st.responses|
  {
    Finish(st.(responses := Without(st.responses, i)), st.responses[i], calls)
  }

  /** MQTTAsync_writeComplete: rc is 1 for a finished write, -1 for a failed one. */
  function WriteComplete(st: State, client: int, rc: int): State
    requires client in st.clients
  {
    var info := st.clients[client];
    if info.pendingWrite.None? then st
    else
      var st1 := SetClient(st, client, info.(pendingWrite := None));
      var i := Find(st.responses, client, WithUid(info.pendingWrite.value));
      if i < 0 then st1
      else
        var c := st.responses[i];
        if !c.kind.Publish? then Answer(st1, i, [])
        else if rc == 1 && c.kind.qos == 0 then Answer(st1, i, OnSuccess(c))
        else if rc == -1 then Answer(st1, i, OnFailure(c))
        else st1
  }

  datatype AckKind = Puback | Pubrec | Pubcomp | Suback | Unsuback

  /** Which callback an acknowledgement leads to. */
  function AckCalls(c: Command, ack: AckKind, v5: bool, error: bool): seq<Fired> {
    match ack
    case Suback =>
      if v5 then (if error then (if c.cb.onFailure5 then [Fired(c.uid, false)] else [])
                  else (if c.cb.onSuccess5 then [Fired(c.uid, true)] else []))
      else (if error then (if c.cb.onFailure then [Fired(c.uid, false)] else [])
            else (if c.cb.onSuccess then [Fired(c.uid, true)] else []))
    case Unsuback => OnSuccess(c)
    case _ =>
      if c.cb.onSuccess then [Fired(c.uid, true)]
      else if c.cb.onSuccess5 && !error then [Fired(c.uid, true)]
      else if c.cb.onFailure5 && error then [Fired(c.uid, false)]
      else []
  }

  /** An acknowledgement: gone is what the handlers of MQTTProtocolClient.c take off the outbound list
      (at most one position), then the response with that token is answered. */
  function Acknowledge(st: State, client: int, ack: AckKind, token: int, error: bool, gone: int): State
    requires client in st.clients && gone < |st.clients[client].outbound|
  {
    var info := st.clients[client];
    var st1 := if gone < 0 then st else SetClient(st, client, info.(outbound := Without(info.outbound, gone)));
    var i := Find(st.responses, client, WithToken(token));
    if i < 0 || (ack == Pubrec && !error) then st1
    else Answer(st1, i, AckCalls(st.responses[i], ack, info.v5, error))
  }

  function Mine(s: seq<Command>, client: int): seq<Command> {
    if s == [] then [] else Mine(s[..|s| - 1], client) + if s[|s| - 1].client == client then [s[|s| - 1]] else []
  }

  function Others(s: seq<Command>, client: int): seq<Command> {
    if s == [] then [] else Others(s[..|s| - 1], client) + if s[|s| - 1].client == client then [] else [s[|s| - 1]]
  }

  /** Failure callbacks for all application commands of a list, in order. */
  function FailAll(s: seq<Command>): seq<Fired> {
    if s == [] then [] else FailAll(s[..|s| - 1]) + if App(s[|s| - 1]) then OnFailure(s[|s| - 1]) else []
  }

  function Uids(s: seq<Command>): multiset<nat> {
    if s == [] then multiset{}
    else Uids(s[..|s| - 1]) + if App(s[|s| - 1]) then multiset{s[|s| - 1].uid} else multiset{}
  }

  /** MQTTAsync_cleanSession, in memory: MQTTAsync_freeResponses, in-flight messages forgotten, ids from 1 again. */
  function FreeResponses(st: State, client: int): State
    requires client in st.clients
  {
    var mine := Mine(st.responses, client);
    SetClient(st, client, st.clients[client].(outbound := [], lastId := 0))
      .(responses := Others(st.responses, client), finished := st.finished + Uids(mine),
        fired := st.fired + FailAll(mine))
  }

  /** MQTTAsync_destroy: responses, then queued commands, then the client itself. */
  function Destroy(st: State, client: int): State
    requires client in st.clients
  {
    var st1 := FreeResponses(st, client);
    var mine := Mine(st1.commands, client);
    st1.(commands := Others(st1.commands, client), finished := st1.finished + Uids(mine),
         fired := st1.fired + FailAll(mine), clients := st1.clients - {client})
  }

  function CountPublish(s: seq<Command>, client: int): nat {
    if s == [] then 0
    else CountPublish(s[..|s| - 1], client) + if s[|s| - 1].client == client && s[|s| - 1].kind.Publish? then 1 else 0
  }

  ghost predicate DistinctIds(ids: seq<int>) {
    forall i, j :: 0 <= i < j < |ids| ==> ids[i] != ids[j]
  }

  /** MQTTAsync_createWithOptions with the commands found in the store. */
  function Create(st: State, client: int, info: ClientInfo, restored: seq<Command>): State {
    SetClient(st, client, info)
      .(commands := st.commands + restored, nextUid := st.nextUid + |restored|,
        accepted := st.accepted + Uids(restored))
  }

  // ---------- steps ----------

  datatype Step =
    | DoReserve(client: int, kind: Kind, token: int, cb: Callbacks)
    | DoCheck(k: nat)
    | DoGiveUp(k: nat)
    | DoEnqueue(k: nat)
    | DoAcceptControl(client: int, kind: Kind, cb: Callbacks, victim: int)
    | DoProcess(writable: set<int>, i: nat, rc: Rc)
    | DoWriteComplete(client: int, written: int)
    | DoAcknowledge(client: int, ack: AckKind, token: int, error: bool, gone: int)
    | DoFreeResponses(client: int)
    | DoDestroy(client: int)
    | DoCreate(client: int, info: ClientInfo, restored: seq<Command>)
    | DoLink(client: int, connected: bool, idle: bool)
    | DoLimit(client: int, maxInflight: int)

  /** The tokens an id search looks at: every queued command, and the client's outbound list and responses. */
  ghost predicate TokenInUse(st: State, client: int, token: int)
    requires client in st.clients
  {
    || (exists i :: 0 <= i < |st.commands| && st.commands[i].token == token)
    || token in st.clients[client].outbound
    || (exists i :: 0 <= i < |st.responses| && st.responses[i].client == client && st.responses[i].token == token)
  }

  ghost function UsedIds(st: State, client: int): set<int>
    requires client in st.clients
  {
    set token | 1 <= token <= MAX_MSG_ID && TokenInUse(st, client, token)
  }

  /** MQTTAsync_assignMsgId; a PUBLISH of QoS 0 has no id.  Only the last id issued remembers the result. */
  function Reserve(st: State, c: int, kind: Kind, token: int, cb: Callbacks): State
    requires c in st.clients
  {
    var st1 := st.(sending := st.sending + [Send(c, kind, token, cb, !kind.Publish?)]);
    if 1 <= token <= MAX_MSG_ID then SetClient(st1, c, st.clients[c].(lastId := token)) else st1
  }

  /** The check in MQTTAsync_send. */
  predicate PassesCheck(info: ClientInfo) {
    info.deleteOldest || !Full(info)
  }

  function Enqueue(st: State, k: nat): State
    requires k < |st.sending| && st.sending[k].client in st.clients
  {
    var x := st.sending[k];
    Accept(st.(sending := Without(st.sending, k)), x.client, x.kind, x.token, x.cb)
  }

  ghost predicate Enabled(st: State, s: Step) {
    match s
    case DoReserve(c, kind, token, _) =>
      && c in st.clients && AppKind(kind)
      && (if kind.Publish? && kind.qos == 0 then token == 0
          else 1 <= token <= MAX_MSG_ID && token != st.clients[c].lastId
               && FirstFreeAfter(st.clients[c].lastId, UsedIds(st, c), token))
    case DoCheck(k) =>
      && k < |st.sending| && st.sending[k].client in st.clients
      && !st.sending[k].checked && PassesCheck(st.clients[st.sending[k].client])
    case DoGiveUp(k) => k < |st.sending|
    case DoEnqueue(k) =>
      && k < |st.sending| && st.sending[k].client in st.clients && AppKind(st.sending[k].kind) && st.sending[k].checked
    case DoAcceptControl(c, kind, _, victim) =>
      && c in st.clients && (kind.Connect? || kind.Disconnect?) && victim < |st.commands|
      && (victim >= 0 ==>
            SameControl(st.commands[victim], Command(0, c, kind, 0, Callbacks(false, false, false, false))))
    case DoProcess(writable, i, _) => Chosen(st, writable, i)
    case DoWriteComplete(c, _) => c in st.clients
    case DoAcknowledge(c, _, token, _, gone) =>
      && c in st.clients && gone < |st.clients[c].outbound|
      && (gone >= 0 ==> st.clients[c].outbound[gone] == token)
    case DoFreeResponses(c) => c in st.clients
    case DoDestroy(c) => c in st.clients && forall k :: 0 <= k < |st.sending| ==> st.sending[k].client != c
    case DoCreate(c, info, restored) =>
      && c !in st.clients && DistinctIds(info.outbound) && info.pendingWrite.None?
      && info.buffered == info.restored == CountPublish(restored, c)
      && (forall i :: 0 <= i < |restored| ==>
            restored[i].uid == st.nextUid + i && restored[i].client == c && App(restored[i])
            && (restored[i].token != 0 ==> restored[i].token !in info.outbound)
            && (restored[i].kind.Publish? && restored[i].kind.qos > 0 ==> restored[i].token != 0))
      && (forall i, j :: 0 <= i < j < |restored| && restored[i].token != 0 ==> restored[i].token != restored[j].token)
    case DoLink(c, _, _) => c in st.clients
    case DoLimit(c, _) => c in st.clients
  }

  ghost function Next(st: State, s: Step): State
    requires Enabled(st, s)
  {
    match s
    case DoReserve(c, kind, token, cb) => Reserve(st, c, kind, token, cb)
    case DoCheck(k) => st.(sending := st.sending[k := st.sending[k].(checked := true)])
    case DoGiveUp(k) => st.(sending := Without(st.sending, k))
    case DoEnqueue(k) => Enqueue(st, k)
    case DoAcceptControl(c, kind, cb, victim) => AcceptControl(st, c, kind, cb, victim)
    case DoProcess(_, i, rc) => Process(st, i, rc)
    case DoWriteComplete(c, rc) => WriteComplete(st, c, rc)
    case DoAcknowledge(c, ack, token, error, gone) => Acknowledge(st, c, ack, token, error, gone)
    case DoFreeResponses(c) => FreeResponses(st, c)
    case DoDestroy(c) => Destroy(st, c)
    case DoCreate(c, info, restored) => Create(st, c, info, restored)
    case DoLink(c, connected, idle) => SetClient(st, c, st.clients[c].(connected := connected, idle := idle))
    case DoLimit(c, n) => SetClient(st, c, st.clients[c].(maxInflight := n))
  }

  function Initial(): State {
    State([], [], [], map[], 0, multiset{}, multiset{}, multiset{}, [], [])
  }

  ghost predicate CanRun(st: State, steps: seq<Step>)
    decreases |steps|
  {
    steps == [] || (Enabled(st, steps[0]) && CanRun(Next(st, steps[0]), steps[1..]))
  }

  ghost function Run(st: State, steps: seq<Step>): State
    requires CanRun(st, steps)
    decreases |steps|
  {
    if steps == [] then st else Run(Next(st, steps[0]), steps[1..])
  }

  lemma RunCons(st: State, s: Step, steps: seq<Step>)
    requires Enabled(st, s) && CanRun(Next(st, s), steps)
    ensures CanRun(st, [s] + steps) && Run(st, [s] + steps) == Run(Next(st, s), steps)
  {
    hide Enabled, Next;
    assert ([s] + steps)[1..] == steps && ([s] + steps)[0] == s;
  }

  lemma RunNothing(st: State)
    ensures CanRun(st, []) && Run(st, []) == st
  {
  }
}
