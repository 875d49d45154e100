/** What the steps that leave the queue alone can change at all. */
module EngineEffects {
  import opened Sequences
  import opened Engine

  /** Nothing is added to the in-flight messages. */
  ghost predicate Shrinks(a: seq<int>, b: seq<int>) {
    && |b| <= |a|
    && (forall x :: x in b ==> x in a)
    && (DistinctIds(a) ==> DistinctIds(b))
  }

  ghost predicate QuietFor(a: ClientInfo, b: ClientInfo) {
    && b.buffered == a.buffered && b.limit == a.limit && b.restored == a.restored && b.deleteOldest == a.deleteOldest
    && Shrinks(a.outbound, b.outbound)
  }

  ghost predicate Quiet(st: State, t: State) {
    && t.commands == st.commands && t.started == st.started && t.nextUid == st.nextUid
    && t.clients.Keys == st.clients.Keys
    && (forall c :: c in st.clients ==> QuietFor(st.clients[c], t.clients[c]))
  }

  predicate QuietStep(s: Step) {
    s.DoWriteComplete? || s.DoAcknowledge? || s.DoFreeResponses? || s.DoLink? || s.DoLimit? || Talks(s)
  }

  /** The steps of a call before it queues its command. */
  predicate Talks(s: Step) {
    s.DoReserve? || s.DoCheck? || s.DoGiveUp?
  }

  /** They change nothing but the calls under way, and the last id issued. */
  lemma TalkQuiet(st: State, s: Step)
    requires Enabled(st, s) && Talks(s)
    ensures Quiet(st, Next(st, s)) && Next(st, s).responses == st.responses
    ensures Next(st, s).(sending := st.sending, clients := st.clients) == st
  {
    hide Quiet, Shrinks, UsedIds, Full;
    if s.DoReserve? {
      var c := s.client;
      SameShrinks(st.clients[c].outbound);
      assert st.clients == st.clients[c := st.clients[c]];
      ClientQuiet(st, Next(st, s), c, Next(st, s).clients[c]);
    } else {
      SameQuiet(st, Next(st, s));
    }
  }

  lemma SameQuiet(st: State, t: State)
    requires t.(sending := st.sending) == st
    ensures Quiet(st, t)
  {
    hide Shrinks;
    forall d | d in st.clients ensures QuietFor(st.clients[d], t.clients[d]) {
      SameShrinks(st.clients[d].outbound);
    }
  }

  lemma ClientQuiet(st: State, t: State, c: int, info: ClientInfo)
    requires c in st.clients && t.clients == st.clients[c := info]
    requires t.commands == st.commands && t.started == st.started && t.nextUid == st.nextUid
    requires QuietFor(st.clients[c], info)
    ensures Quiet(st, t)
  {
    hide Shrinks;
    forall d | d in st.clients ensures QuietFor(st.clients[d], t.clients[d]) {
      SameShrinks(st.clients[d].outbound);
    }
  }

  lemma SameShrinks(a: seq<int>)
    ensures Shrinks(a, a)
  {
  }

  lemma WithoutShrinks(a: seq<int>, i: nat)
    requires i < |a|
    ensures Shrinks(a, Without(a, i))
  {
    var b := Without(a, i);
    forall x | x in b ensures x in a {
      var k :| 0 <= k < |b| && b[k] == x;
      assert x == if k < i then a[k] else a[k + 1];
    }
  }

  lemma WriteCompleteQuiet(st: State, client: int, rc: int)
    requires client in st.clients
    ensures Quiet(st, WriteComplete(st, client, rc))
  {
    hide Quiet, Shrinks, Find, Without;
    var info := st.clients[client];
    SameShrinks(info.outbound);
    assert st.clients == st.clients[client := info];
    ClientQuiet(st, st, client, info);
    var info1 := if info.pendingWrite.None? then info else info.(pendingWrite := None);
    ClientQuiet(st, WriteComplete(st, client, rc), client, info1);
  }

  lemma AcknowledgeQuiet(st: State, client: int, ack: AckKind, token: int, error: bool, gone: int)
    requires client in st.clients && gone < |st.clients[client].outbound|
    ensures Quiet(st, Acknowledge(st, client, ack, token, error, gone))
  {
    hide Quiet, Shrinks, Find, Without, AckCalls;
    var info := st.clients[client];
    assert st.clients == st.clients[client := info];
    var info1 := if gone < 0 then info else info.(outbound := Without(info.outbound, gone));
    SameShrinks(info.outbound);
    if gone >= 0 {
      WithoutShrinks(info.outbound, gone);
    }
    ClientQuiet(st, Acknowledge(st, client, ack, token, error, gone), client, info1);
  }

  lemma FreeResponsesQuiet(st: State, client: int)
    requires client in st.clients
    ensures Quiet(st, FreeResponses(st, client))
  {
    hide Quiet, Mine, Others, Uids, FailAll;
    ClientQuiet(st, FreeResponses(st, client), client, st.clients[client].(outbound := [], lastId := 0));
  }

  lemma InfoQuiet(st: State, client: int, info: ClientInfo)
    requires client in st.clients && info.outbound == st.clients[client].outbound && QuietFor(st.clients[client], info)
    ensures Quiet(st, SetClient(st, client, info))
  {
    hide Quiet, Shrinks;
    ClientQuiet(st, SetClient(st, client, info), client, info);
  }

  lemma StepQuiet(st: State, s: Step)
    requires Enabled(st, s) && QuietStep(s)
    ensures Quiet(st, Next(st, s))
  {
    hide Quiet, Shrinks, WriteComplete, Acknowledge, FreeResponses, Chosen, TokenInUse;
    if Talks(s) {
      TalkQuiet(st, s);
      return;
    }
    SameShrinks(st.clients[s.client].outbound);
    match s
    case DoWriteComplete(c, rc) => WriteCompleteQuiet(st, c, rc);
    case DoAcknowledge(c, ack, token, error, gone) => AcknowledgeQuiet(st, c, ack, token, error, gone);
    case DoFreeResponses(c) => FreeResponsesQuiet(st, c);
    case DoLink(c, connected, idle) => InfoQuiet(st, c, st.clients[c].(connected := connected, idle := idle));
    case DoLimit(c, n) => InfoQuiet(st, c, st.clients[c].(maxInflight := n));
  }

  /** The clients after a command has been accepted: at most one counter has moved. */
  lemma AcceptClients(st: State, client: int, kind: Kind, token: int, cb: Callbacks)
    requires client in st.clients
    ensures var t := Accept(st, client, kind, token, cb);
            || t.clients == st.clients
            || t.clients == st.clients[client := st.clients[client].(buffered := st.clients[client].buffered + 1)]
  {
    hide Find, Without;
  }

  /** The queue and the clients after a command has been processed. */
  lemma ProcessClients(st: State, i: nat, rc: Rc)
    requires i < |st.commands| && st.commands[i].client in st.clients
    ensures var t := Process(st, i, rc);
            var c := st.commands[i];
            && t.commands == Without(st.commands, i)
            && t.clients ==
               if c.kind.Publish? then st.clients[c.client := Charged(st.clients[c.client], c, rc)] else st.clients
  {
    hide Without, Charged;
  }

  lemma DestroyEffect(st: State, client: int)
    requires client in st.clients
    ensures var t := Destroy(st, client);
            && t.commands == Others(st.commands, client) && t.responses == Others(st.responses, client)
            && t.clients == st.clients - {client} && t.sending == st.sending
            && t.started == st.started && t.nextUid == st.nextUid
  {
    hide Mine, Others, Uids, FailAll;
  }

  /** Only the steps of a call change the calls under way. */
  lemma OtherSending(st: State, s: Step)
    requires Enabled(st, s) && !Talks(s) && !s.DoEnqueue?
    ensures Next(st, s).sending == st.sending
  {
    hide Without, Find, Charged, Mine, Others, Uids, FailAll, AckCalls, UsedIds, TokenInUse, CountPublish;
  }
}
