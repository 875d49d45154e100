/** The engine as it runs: the linked list of queued commands, the responses, and the loops of MQTTAsync.c. */
module CommandEngine {
  import opened Sequences
  import opened MessageIds
  import opened LinkedList
  import opened Pointers
  import opened Engine
  import Drops = EngineDrops
  import Tokens = EngineTokens

  /** The queued commands are in memory, each in the list once, and addresses are given out in order. */
  ghost predicate QueueOk(items: seq<Pointer>, memory: Memory<Command>, last: nat) {
    Points(items, memory) && NoRepeats(items) && forall p :: p in memory ==> NULL < p <= last
  }

  lemma QueueWith(items: seq<Pointer>, memory: Memory<Command>, last: nat, k: nat, cmd: Command)
    requires QueueOk(items, memory, last) && k <= |items|
    ensures var more, after := items[..k] + [last + 1] + items[k..], memory[last + 1 := cmd];
            && QueueOk(more, after, last + 1)
            && Contents(more, after) == Contents(items, memory)[..k] + [cmd] + Contents(items, memory)[k..]
  {
    ContentsWith(items, memory, k, last + 1, cmd);
  }

  lemma QueueWithout(items: seq<Pointer>, memory: Memory<Command>, last: nat, k: nat)
    requires QueueOk(items, memory, last) && k < |items|
    ensures var rest := Without(items, k);
            QueueOk(rest, memory, last) && Contents(rest, memory) == Without(Contents(items, memory), k)
  {
    var rest := Without(items, k);
    assert forall i :: 0 <= i < |rest| ==> rest[i] == items[if i < k then i else i + 1];
  }

  /** clientCompareConnectCommand. */
  function MatchesControl(cmd: Command, memory: Memory<Command>): Pointer -> bool {
    (p: Pointer) => p in memory && SameControl(memory[p], cmd)
  }

  class Async {
    const commands: List
    var memory: Memory<Command>
    var responses: seq<Command>
    var sending: seq<Send>
    var clients: map<int, ClientInfo>
    var fired: seq<Fired>
    var nextUid: nat
    ghost var accepted: multiset<nat>
    ghost var finished: multiset<nat>
    ghost var dropped: multiset<nat>
    ghost var started: seq<Command>

    ghost predicate Valid()
      reads this, commands, commands.elems
    {
      commands.Valid() && QueueOk(commands.items, memory, nextUid)
    }

    /** The commands that the list points to. */
    ghost function Queue(): seq<Command>
      requires Valid()
      reads this, commands, commands.elems
    {
      Contents(commands.items, memory)
    }

    ghost function View(): State
      requires Valid()
      reads this, commands, commands.elems
    {
      State(Queue(), responses, sending, clients, nextUid, accepted, finished, dropped, fired, started)
    }

    constructor ()
      ensures Valid() && View() == Initial() && fresh(commands)
    {
      commands := new List();
      memory, responses, sending, clients, fired := map[], [], [], map[], [];
      nextUid, accepted, finished, dropped, started := 0, multiset{}, multiset{}, multiset{}, [];
    }

    // ---------- the queue ----------

    /** ListAppend of a new command; its address is the next one. */
    method AppendCommand(cmd: Command)
      requires Valid()
      modifies this`memory, this`nextUid, commands, commands.elems
      ensures Valid() && Queue() == old(Queue()) + [cmd] && nextUid == old(nextUid) + 1
      ensures forall i :: 0 <= i < |commands.elems| ==>
                commands.elems[i] in old(commands.elems) || fresh(commands.elems[i])
    {
      hide List.Valid;
      ghost var items := commands.items;
      QueueWith(items, memory, nextUid, |items|, cmd);
      AtEnd(items, nextUid + 1);
      AtEnd(Queue(), cmd);
      nextUid := nextUid + 1;
      memory := memory[nextUid := cmd];
      AppendPointer(commands, nextUid);
    }

    /** ListInsert of a new command at the head. */
    method InsertFirst(cmd: Command)
      requires Valid()
      modifies this`memory, this`nextUid, commands, commands.elems
      ensures Valid() && Queue() == [cmd] + old(Queue()) && nextUid == old(nextUid) + 1
    {
      ghost var items := commands.items;
      QueueWith(items, memory, nextUid, 0, cmd);
      assert [] + [cmd] + Queue() == [cmd] + Queue();
      nextUid := nextUid + 1;
      memory := memory[nextUid := cmd];
      commands.Insert(nextUid, commands.first, 0);
    }

    /** ListDetach of a command. */
    method DetachCommand(p: Pointer, ghost k: nat)
      requires Valid() && k < |commands.items| && commands.items[k] == p
      modifies commands, commands.elems
      ensures Valid() && Queue() == Without(old(Queue()), k)
      ensures k < |old(commands.elems)| && commands.elems == Without(old(commands.elems), k)
    {
      hide List.Valid;
      QueueWithout(commands.items, memory, nextUid, k);
      RemovePointer(commands, p, k);
    }

    lemma SameLength()
      requires Valid()
      ensures |commands.elems| == |commands.items|
    {
    }

    /** cur is the element at position k, or null past the end. */
    ghost predicate At(cur: ListElement?, k: nat)
      requires Valid()
      reads this, commands, commands.elems
    {
      && k <= |Queue()| == |commands.elems|
      && cur == if k < |commands.elems| then commands.elems[k] else null
    }

    /** ListNextElement, from the element at position k, or from before the first for k == -1. */
    method NextCommand(pos: ListElement?, ghost k: int) returns (r: ListElement?)
      requires Valid() && -1 <= k < |commands.elems| && pos == (if k < 0 then null else commands.elems[k])
      ensures At(r, k + 1)
    {
      r := commands.NextElement(pos, k);
    }

    method CommandAt(cur: ListElement, ghost k: nat) returns (p: Pointer, c: Command)
      requires Valid() && At(cur, k)
      ensures k < |Queue()| && k < |commands.items| && commands.items[k] == p && p != NULL && c == Queue()[k]
    {
      assert ItemOk(commands.elems, commands.items, k);
      p := cur.content;
      c := memory[p];
    }

    /** The first command of the queue that fits, and its position. */
    method FindCommand(client: int, w: Wanted) returns (p: Pointer, ghost k: int)
      requires Valid()
      ensures k == Find(Queue(), client, w) && (p == NULL <==> Find(Queue(), client, w) < 0)
      ensures p != NULL ==> k < |commands.items| && commands.items[Find(Queue(), client, w)] == p
    {
      hide List.Valid, Valid;
      var cur := NextCommand(null, -1);
      k := 0;
      while cur != null
        invariant k >= 0 && At(cur, k)
        invariant forall i :: 0 <= i < k ==> !Fits(Queue()[i], client, w)
        decreases |commands.elems| - k
      {
        var q, c := CommandAt(cur, k);
        if Fits(c, client, w) {
          return q, k;
        }
        cur := NextCommand(cur, k);
        k := k + 1;
      }
      return NULL, -1;
    }

    // ---------- calls of the application ----------

    /** The search of the responses. */
    method FindIn(list: seq<Command>, client: int, w: Wanted) returns (i: int)
      ensures i == Find(list, client, w)
    {
      i := 0;
      while i < |list|
        invariant 0 <= i <= |list|
        invariant forall k :: 0 <= k < i ==> !Fits(list[k], client, w)
      {
        if Fits(list[i], client, w) {
          return;
        }
        i := i + 1;
      }
      i := -1;
    }

    method QueuedIds() returns (used: set<int>)
      requires Valid()
      ensures forall t :: t in used <==> exists j :: 0 <= j < |Queue()| && Queue()[j].token == t
    {
      hide List.Valid, Valid;
      used := {};
      var cur := NextCommand(null, -1);
      ghost var k := 0;
      while cur != null
        invariant k >= 0 && At(cur, k)
        invariant forall t :: t in used <==> exists j :: 0 <= j < k && Queue()[j].token == t
        decreases |commands.elems| - k
      {
        var _, c := CommandAt(cur, k);
        used := used + {c.token};
        cur := NextCommand(cur, k);
        k := k + 1;
      }
    }

    /** The ids that MQTTAsync_assignMsgId finds in its three lists. */
    method CollectIds(client: int) returns (used: set<int>)
      requires Valid() && client in clients
      ensures forall token :: token in used <==> TokenInUse(View(), client, token)
    {
      hide List.Valid, Valid;
      used := QueuedIds();
      ghost var queued := used;
      var ids := clients[client].outbound;
      var i := 0;
      while i < |ids|
        invariant 0 <= i <= |ids|
        invariant forall t :: t in used <==> t in queued || t in ids[..i]
      {
        used := used + {ids[i]};
        i := i + 1;
      }
      assert ids[..i] == ids;
      ghost var outbound := used;
      i := 0;
      while i < |responses|
        invariant 0 <= i <= |responses|
        invariant forall t :: t in used <==> t in outbound || Waits(responses[..i], client, t)
      {
        if responses[i].client == client {
          used := used + {responses[i].token};
        }
        i := i + 1;
      }
    }

    /** The first part of MQTTAsync_send, MQTTAsync_subscribe and MQTTAsync_unsubscribe: an id, where one is needed.
        0 means that none is free; the call is then refused. */
    method ReserveId(client: int, kind: Kind, cb: Callbacks) returns (ok: bool, token: int)
      requires Valid() && client in clients && AppKind(kind)
      requires clients[client].lastId != 0 || exists t :: 1 <= t <= MAX_MSG_ID && !TokenInUse(View(), client, t)
      modifies this`clients, this`sending
      ensures Valid()
      ensures ok ==> Enabled(old(View()), DoReserve(client, kind, token, cb))
                     && View() == Reserve(old(View()), client, kind, token, cb)
      ensures !ok ==> View() == old(View())
                      && forall t :: 1 <= t <= MAX_MSG_ID && t != clients[client].lastId ==>
                           TokenInUse(View(), client, t)
    {
      hide TokenInUse, FirstFreeAfter, List.Valid, QueueOk;
      ghost var st := View();
      ok, token := true, 0;
      if !(kind.Publish? && kind.qos == 0) {
        var used := CollectIds(client);
        var last: MsgId;
        SearchEnds(st, client, used);
        token, last := AssignMsgId(clients[client].lastId, used);
        ok := token != 0;
        if ok {
          assert forall t :: t in used <==> TokenInUse(st, client, t);
          assert FirstFreeAfter(st.clients[client].lastId, used, token);
          SameIds(st, client, used, token);
          clients := clients[client := clients[client].(lastId := last)];
        }
      }
      if ok {
        sending := sending + [Send(client, kind, token, cb, !kind.Publish?)];
      }
    }

    /** The check of the offline buffer in MQTTAsync_send.  It refuses exactly when queueing the message now
        would drop one and the client is not to delete the oldest.  Passed alone, it keeps the promise that
        there is room for every message that has passed. */
    method CheckBuffer(k: nat) returns (ok: bool)
      requires Valid()
      requires k < |sending| && sending[k].client in clients && !sending[k].checked && sending[k].kind.Publish?
      modifies this`sending
      ensures Valid()
      ensures ok <==> old(clients[sending[k].client].deleteOldest)
                      || Enqueue(old(View()), k).dropped == old(View()).dropped
      ensures Enabled(old(View()), CheckStep(k, ok)) && View() == Next(old(View()), CheckStep(k, ok))
      ensures Drops.AllRoom(old(View())) && Drops.Serial(old(View()), CheckStep(k, ok)) ==> Drops.AllRoom(View())
      ensures Tokens.Distinct(old(View())) ==> Tokens.Distinct(View())
    {
      hide Drops.AllRoom, Tokens.Distinct, Enqueue, Drops.Serial, List.Valid, QueueOk;
      ghost var st := View();
      var info := clients[sending[k].client];
      ok := true;
      if info.limit.Some? {
        if !info.deleteOldest && info.buffered >= info.limit.value {
          ok := false;
        }
      }
      sending := if ok then sending[k := sending[k].(checked := true)] else Without(sending, k);
      DropsIff(st, k);
      CheckKeeps(st, k, ok);
    }

    /** A PUBLISH has been appended: it is counted, or the oldest one goes. */
    method MakeRoom(client: int)
      requires Valid() && client in clients
      modifies this`dropped, this`clients, commands, commands.elems
      ensures Valid() && Room(old(Queue()), old(dropped), old(clients), client, Queue(), dropped, clients)
    {
      hide Find, Without, List.Valid, QueueOk;
      var info := clients[client];
      if info.limit.Some? && info.buffered >= info.limit.value {
        var p, k := FindCommand(client, APublish);
        if p != NULL {
          dropped := dropped + multiset{Queue()[k].uid};
          DetachCommand(p, k);
        }
      } else {
        clients := clients[client := info.(buffered := info.buffered + 1)];
      }
    }

    /** MQTTAsync_addCommand for SUBSCRIBE, UNSUBSCRIBE and PUBLISH; cmd carries a number not used before. */
    method AddCommand(cmd: Command)
      requires Valid() && cmd.client in clients && App(cmd) && cmd.uid == nextUid
      modifies this, commands, commands.elems
      ensures Valid() && View() == Accept(old(View()), cmd.client, cmd.kind, cmd.token, cmd.cb)
    {
      hide Find, Without, Full, Accept, List.Valid, QueueOk;
      ghost var st := View();
      AppendCommand(cmd);
      accepted := accepted + multiset{cmd.uid};
      if cmd.kind.Publish? {
        MakeRoom(cmd.client);
      }
      AcceptShape(st, View(), cmd);
    }

    /** The last part of the three calls: their command is queued.  A message is dropped exactly when a PUBLISH
        finds the buffer full; with room for every message that has passed its check, none is. */
    method QueueCommand(k: nat)
      requires Valid()
      requires k < |sending| && sending[k].client in clients && AppKind(sending[k].kind) && sending[k].checked
      modifies this, commands, commands.elems
      ensures Valid() && View() == Enqueue(old(View()), k)
      ensures |dropped| == |old(dropped)| + One(Drops.FindsFull(old(View()), DoEnqueue(k)))
      ensures Drops.AllRoom(old(View())) ==> Drops.AllRoom(View()) && dropped == old(dropped)
      ensures Tokens.Distinct(old(View())) ==> Tokens.Distinct(View())
    {
      hide Accept, Without, Drops.AllRoom, Tokens.Distinct, Full, List.Valid, QueueOk;
      ghost var st := View();
      var x := sending[k];
      sending := Without(sending, k);
      AddCommand(Command(nextUid, x.client, x.kind, x.token, x.cb));
      QueueKeeps(st, k);
    }

    // ---------- CONNECT and DISCONNECT ----------

    /** The head of the queue is a command of the same kind for the client. */
    method SameAtHead(cmd: Command) returns (same: bool)
      requires Valid()
      ensures same <==> Queue() != [] && SameControl(Queue()[0], cmd)
    {
      hide List.Valid, Valid, SameControl;
      same := false;
      var head := NextCommand(null, -1);
      if head != null {
        var _, c := CommandAt(head, 0);
        same := SameControl(c, cmd);
      }
    }

    /** ListRemoveItem with clientCompareConnectCommand. */
    method RemoveControl(cmd: Command) returns (ghost victim: int)
      requires Valid()
      modifies commands, commands.elems
      ensures Valid() && -1 <= victim < |old(Queue())|
      ensures victim >= 0 ==> SameControl(old(Queue())[victim], cmd) && Queue() == Without(old(Queue()), victim)
      ensures victim < 0 ==> Queue() == old(Queue())
                             && forall k :: 0 <= k < |Queue()| ==> !SameControl(Queue()[k], cmd)
      ensures forall i :: 0 <= i < |commands.elems| ==> commands.elems[i] in old(commands.elems)
    {
      hide SameControl, FirstMatch, List.Valid;
      SameLength();
      ghost var items := commands.items;
      var compare := MatchesControl(cmd, memory);
      var removed, k := commands.Unlink(compare);
      victim := -1;
      if removed {
        QueueWithout(items, memory, nextUid, k);
        victim := k;
      } else {
        assert forall i :: 0 <= i < |items| ==> !compare(items[i]);
      }
    }

    /** To the head, in place of an equal command elsewhere, unless the head already is one. */
    method ToHead(cmd: Command) returns (ghost victim: int)
      requires Valid()
      modifies this`memory, this`nextUid, commands, commands.elems
      ensures Valid() && nextUid == old(nextUid) + 1 && -1 <= victim < |old(Queue())|
      ensures victim >= 0 ==> SameControl(old(Queue())[victim], cmd)
      ensures var q := old(Queue());
              if q != [] && SameControl(q[0], cmd) then Queue() == q
              else Queue() == [cmd] + (if victim < 0 then q else Without(q, victim))
                   && (victim < 0 ==> forall k :: 0 <= k < |q| ==> !SameControl(q[k], cmd))
    {
      hide SameControl, Without, Valid, Queue;
      victim := -1;
      var same := SameAtHead(cmd);
      if same {
        Ignore();
      } else {
        victim := RemoveControl(cmd);
        InsertFirst(cmd);
      }
    }

    /** MQTTAsync_addCommand for CONNECT and DISCONNECT. */
    method AddControl(cmd: Command) returns (ghost victim: int)
      requires Valid() && cmd.client in clients && (cmd.kind.Connect? || cmd.kind.Disconnect?)
      requires cmd.uid == nextUid && cmd.token == 0
      modifies this`memory, this`nextUid, commands, commands.elems
      ensures Valid() && Enabled(old(View()), DoAcceptControl(cmd.client, cmd.kind, cmd.cb, victim))
      ensures View() == AcceptControl(old(View()), cmd.client, cmd.kind, cmd.cb, victim)
      ensures victim < 0 && |Queue()| > |old(Queue())| && cmd.kind != Disconnect(false) ==>
                forall k :: 0 <= k < |old(Queue())| ==> !SameControl(old(Queue())[k], cmd)
    {
      hide SameControl, Without, Valid, Queue, Enabled;
      ghost var st := View();
      victim := -1;
      if cmd.kind.Connect? || cmd.kind.internal {
        victim := ToHead(cmd);
      } else {
        AppendCommand(cmd);
      }
      ControlEnabled(st, cmd, victim);
    }

    /** A command that is freed at once has had its number all the same. */
    method Ignore()
      requires Valid()
      modifies this`nextUid
      ensures Valid() && Queue() == old(Queue()) && nextUid == old(nextUid) + 1
    {
      hide List.Valid;
      nextUid := nextUid + 1;
    }

    // ---------- the send thread ----------

    /** The loop at the head of MQTTAsync_processCommand, with its list of clients to ignore: it finds the
        first ready command that is its client's earliest, if there is one. */
    method Choose(writable: set<int>) returns (p: Pointer, ghost i: int)
      requires Valid() && forall k :: 0 <= k < |Queue()| ==> Queue()[k].client in clients
      ensures p != NULL ==> 0 <= i < |commands.items| && Chosen(View(), writable, i) && commands.items[i] == p
      ensures p == NULL <==> forall k :: 0 <= k < |Queue()| && Earliest(Queue(), k) ==>
                               !Ready(clients, writable, Queue()[k])
      ensures p == NULL <==> i < 0
    {
      hide Ready, Valid, Queue, PassedOver, Chosen;
      ghost var st := View();
      var ignored: seq<int> := [];
      var cur := NextCommand(null, -1);
      i := 0;
      PassNone(st, writable);
      while cur != null
        invariant i >= 0 && At(cur, i) && PassedOver(st, writable, ignored, i)
        decreases |commands.elems| - i
      {
        var q, cmd := CommandAt(cur, i);
        if cmd.client !in ignored {
          var ready := MayProcess(cmd, writable);
          if ready {
            PassedIsChosen(st, writable, ignored, i);
            return q, i;
          }
          ignored := ignored + [cmd.client];
          PassIgnored(st, writable, ignored[..|ignored| - 1], i);
        } else {
          PassKnown(st, writable, ignored, i);
        }
        cur := NextCommand(cur, i);
        i := i + 1;
      }
      PassedAll(st, writable, ignored);
      return NULL, -1;
    }

    /** The tests inside that loop: connection and socket, message ids left, flow control. */
    method MayProcess(cmd: Command, writable: set<int>) returns (ready: bool)
      requires cmd.client in clients
      ensures ready <==> Ready(clients, writable, cmd)
    {
      var info := clients[cmd.client];
      ready := false;
      if cmd.kind.Connect? || cmd.kind.Disconnect? || (info.connected && info.idle && cmd.client in writable) {
        if App(cmd) && |info.outbound| >= MAX_MSG_ID - 1 {
          // no more message ids available
        } else if ((cmd.kind.Publish? && cmd.kind.qos > 0) || cmd.kind.Subscribe? || cmd.kind.Unsubscribe?)
                  && |info.outbound| >= info.maxInflight {
          // flow control
        } else {
          ready := true;
        }
      }
    }

    method Succeed(c: Command)
      modifies this`fired
      ensures fired == old(fired) + OnSuccess(c)
    {
      if c.cb.onSuccess || c.cb.onSuccess5 {
        fired := fired + [Fired(c.uid, true)];
      }
    }

    method Fail(c: Command)
      modifies this`fired
      ensures fired == old(fired) + OnFailure(c)
    {
      if c.cb.onFailure || c.cb.onFailure5 {
        fired := fired + [Fired(c.uid, false)];
      }
    }

    /** MQTTAsync_processCommand; rc is what the socket write will give. */
    method ProcessCommand(writable: set<int>, rc: Rc) returns (ghost i: int)
      requires Valid() && forall k :: 0 <= k < |Queue()| ==> Queue()[k].client in clients
      modifies this, commands, commands.elems
      ensures Valid()
      ensures i < 0 ==> View() == old(View())
                        && forall k :: 0 <= k < |Queue()| && Earliest(Queue(), k) ==>
                             !Ready(clients, writable, Queue()[k])
      ensures i >= 0 ==> Chosen(old(View()), writable, i) && View() == Process(old(View()), i, rc)
    {
      var p;
      p, i := Choose(writable);
      if p != NULL {
        hide Without, Charged, Chosen, Ready, OnSuccess, OnFailure, Valid, Queue;
        ghost var st := View();
        var c := Look(p, i);
        assert c.client in clients;
        DetachCommand(p, i);
        if App(c) {
          Execute(c, rc);
          ProcessShape(st, View(), i, rc);
        }
      }
    }

    method Look(p: Pointer, ghost i: nat) returns (c: Command)
      requires Valid() && i < |commands.items| && commands.items[i] == p
      ensures i < |Queue()| && c == Queue()[i]
    {
      c := memory[p];
    }

    /** The part of MQTTAsync_processCommand that depends on the kind of command. */
    method Execute(c: Command, rc: Rc)
      requires Valid() && App(c) && c.client in clients
      modifies this`responses, this`clients, this`fired, this`finished, this`started
      ensures Valid() && Queue() == old(Queue())
      ensures c.kind.Publish? ==> clients == old(clients)[c.client := Charged(old(clients)[c.client], c, rc)]
      ensures !c.kind.Publish? ==> clients == old(clients)
      ensures started == old(started) + [c]
      ensures Outcome(old(responses), old(finished), old(fired), c, rc, responses, finished, fired)
    {
      hide OnSuccess, OnFailure, Charged, List.Valid, QueueOk;
      started := started + [c];
      if c.kind.Publish? {
        StartPublish(c, rc);
      }
      if c.kind.Publish? && c.kind.qos == 0 && rc != Failed {
        if rc == Interrupted {
          responses := responses + [c];
        } else {
          Succeed(c);
          finished := finished + multiset{c.uid};
        }
      } else if rc == Failed {
        Fail(c);
        finished := finished + multiset{c.uid};
      } else {
        responses := responses + [c];
      }
    }

    /** What a PUBLISH does to its client. */
    method StartPublish(c: Command, rc: Rc)
      requires c.kind.Publish? && c.client in clients
      modifies this`clients
      ensures clients == old(clients)[c.client := Charged(old(clients)[c.client], c, rc)]
    {
      var info := clients[c.client];
      info := info.(buffered := info.buffered - 1);
      if c.kind.qos > 0 {
        info := info.(outbound := info.outbound + [c.token]);
      } else if rc != Complete {
        info := info.(pendingWrite := Some(c.uid));
      }
      clients := clients[c.client := info];
    }

    /** A response is taken off the list and its callback, if any, called: the command is done. */
    method Answered(i: nat, calls: seq<Fired>)
      requires Valid() && i < |responses|
      modifies this`responses, this`fired, this`finished
      ensures Valid() && View() == Answer(old(View()), i, calls)
    {
      hide List.Valid, QueueOk;
      fired := fired + calls;
      finished := finished + multiset{responses[i].uid};
      responses := responses[..i] + responses[i + 1..];
    }

    method SetInfo(client: int, info: ClientInfo)
      requires Valid()
      modifies this`clients
      ensures Valid() && View() == SetClient(old(View()), client, info)
    {
      hide List.Valid, QueueOk;
      clients := clients[client := info];
    }

    /** MQTTAsync_writeComplete. */
    method Written(client: int, rc: int)
      requires Valid() && client in clients
      modifies this`responses, this`clients, this`fired, this`finished
      ensures Valid() && View() == WriteComplete(old(View()), client, rc)
    {
      hide Valid, Queue, Find, Answer, OnSuccess, OnFailure;
      var info := clients[client];
      if info.pendingWrite.Some? {
        var i := FindIn(responses, client, WithUid(info.pendingWrite.value));
        SetInfo(client, info.(pendingWrite := None));
        if i >= 0 {
          var c := responses[i];
          if !c.kind.Publish? {
            Answered(i, []);
          } else if rc == 1 && c.kind.qos == 0 {
            Answered(i, OnSuccess(c));
          } else if rc == -1 {
            Answered(i, OnFailure(c));
          }
        }
      }
    }

    /** The acknowledgement branches of MQTTAsync_cycle and MQTTAsync_receiveThread; gone is the position
        of the message that the protocol code takes off the outbound list, if any. */
    method Acknowledged(client: int, ack: AckKind, token: int, error: bool, gone: int)
      requires Valid() && client in clients && gone < |clients[client].outbound|
      modifies this`responses, this`clients, this`fired, this`finished
      ensures Valid() && View() == Acknowledge(old(View()), client, ack, token, error, gone)
    {
      hide Valid, Queue, Find, Answer, AckCalls;
      var info := clients[client];
      if gone >= 0 {
        SetInfo(client, info.(outbound := info.outbound[..gone] + info.outbound[gone + 1..]));
      }
      if ack != Pubrec || error {
        var i := FindIn(responses, client, WithToken(token));
        if i >= 0 {
          Answered(i, AckCalls(responses[i], ack, info.v5, error));
        }
      }
    }

    /** The failure callback for a command that will not be answered. */
    method GiveUp(c: Command)
      modifies this`fired, this`finished
      ensures fired == old(fired) + if App(c) then OnFailure(c) else []
      ensures finished == old(finished) + if App(c) then multiset{c.uid} else multiset{}
    {
      if App(c) {
        Fail(c);
        finished := finished + multiset{c.uid};
      }
    }

    /** The loop of MQTTAsync_freeResponses: failure callbacks for the client's commands, in order; the others
        stay. */
    method FreeMatching(client: int)
      modifies this`responses, this`fired, this`finished
      ensures responses == Others(old(responses), client)
      ensures fired == old(fired) + FailAll(Mine(old(responses), client))
      ensures finished == old(finished) + Uids(Mine(old(responses), client))
    {
      hide Mine, Others, FailAll, Uids, OnFailure;
      var list, rest := responses, [];
      FreeNone(client);
      var i := 0;
      while i < |list|
        invariant 0 <= i <= |list|
        invariant rest == Others(list[..i], client)
        invariant fired == old(fired) + FailAll(Mine(list[..i], client))
        invariant finished == old(finished) + Uids(Mine(list[..i], client))
      {
        var c := list[i];
        MineOne(list[..i], c, client);
        assert list[..i + 1] == list[..i] + [c];
        if c.client == client {
          GiveUp(c);
        } else {
          rest := rest + [c];
        }
        i := i + 1;
      }
      assert list[..i] == list;
      responses := rest;
    }

    /** MQTTAsync_cleanSession, in memory, with MQTTAsync_freeResponses. */
    method FreeAllResponses(client: int)
      requires Valid() && client in clients
      modifies this`responses, this`clients, this`fired, this`finished
      ensures Valid() && View() == FreeResponses(old(View()), client)
    {
      hide Mine, Others, FailAll, Uids, List.Valid, QueueOk;
      FreeMatching(client);
      clients := clients[client := clients[client].(outbound := [], lastId := 0)];
    }

    /** What MQTTAsync_freeCommands has done to the queue and the callbacks when n commands of it are behind. */
    ghost predicate Freed(list: seq<Command>, client: int, n: nat, calls: seq<Fired>, done: multiset<nat>)
      requires Valid() && n <= |list|
      reads this, commands, commands.elems
    {
      && Queue() == Others(list[..n], client) + list[n..]
      && fired == calls + FailAll(Mine(list[..n], client))
      && finished == done + Uids(Mine(list[..n], client))
    }

    lemma FreedNone(client: int)
      requires Valid()
      ensures Freed(Queue(), client, 0, fired, finished) && |Others(Queue()[..0], client)| == 0
    {
      FreeNone(client);
      assert Queue()[..0] == [] && [] + Queue() == Queue();
    }

    lemma FreedAll(list: seq<Command>, client: int, n: nat, k: nat, calls: seq<Fired>, done: multiset<nat>)
      requires Valid() && n <= |list| && Freed(list, client, n, calls, done)
      requires At(null, k) && k == |Others(list[..n], client)|
      ensures Queue() == Others(list, client)
      ensures fired == calls + FailAll(Mine(list, client)) && finished == done + Uids(Mine(list, client))
    {
      hide Mine, Others, FailAll, Uids, List.Valid, QueueOk;
      assert n == |list| && list[..n] == list;
    }

    lemma MoreToFree(list: seq<Command>, client: int, n: nat, k: nat, calls: seq<Fired>, done: multiset<nat>)
      requires Valid() && n <= |list| && Freed(list, client, n, calls, done)
      requires k < |Queue()| && k == |Others(list[..n], client)|
      ensures n < |list|
    {
      hide Mine, Others, FailAll, Uids, List.Valid, QueueOk;
    }

    lemma Within(cur: ListElement, k: nat)
      requires Valid() && At(cur, k)
      ensures k < |Queue()| == |commands.elems| && cur == commands.elems[k]
    {
    }

    /** One turn of the loop of MQTTAsync_freeCommands: current may be detached, next is already known. */
    method FreeOne(current: ListElement, next: ListElement?, client: int, ghost list: seq<Command>, ghost n: nat,
                   ghost k: nat, ghost calls: seq<Fired>, ghost done: multiset<nat>) returns (ghost k': nat)
      requires Valid() && n < |list| && At(current, k) && At(next, k + 1)
      requires Freed(list, client, n, calls, done) && k == |Others(list[..n], client)|
      modifies this`fired, this`finished, commands, commands.elems
      ensures Valid() && Freed(list, client, n + 1, calls, done) && k' == |Others(list[..n + 1], client)|
      ensures At(next, k') && forall i :: 0 <= i < |commands.elems| ==> commands.elems[i] in old(commands.elems)
    {
      hide Mine, Others, FailAll, Uids, OnFailure, List.Valid, QueueOk, Without;
      ghost var elems := commands.elems;
      var p, c := CommandAt(current, k);
      QueueFreed(list, client, n, Queue());
      Past(elems, k);
      MineOne(list[..n], c, client);
      k' := k;
      if c.client == client {
        DetachCommand(p, k);
        GiveUp(c);
      } else {
        k' := k + 1;
      }
    }

    /** MQTTAsync_freeCommands: the loop keeps one element ahead of the one it may detach. */
    method FreeCommands(client: int)
      requires Valid()
      modifies this`fired, this`finished, commands, commands.elems
      ensures Valid() && Queue() == Others(old(Queue()), client)
      ensures fired == old(fired) + FailAll(Mine(old(Queue()), client))
      ensures finished == old(finished) + Uids(Mine(old(Queue()), client))
    {
      hide Mine, Others, FailAll, Uids, OnFailure, Valid, Freed, At, Queue;
      ghost var list, n, k := Queue(), 0, 0;
      FreedNone(client);
      var current := NextCommand(null, -1);
      if current == null {
        FreedAll(list, client, n, k, fired, finished);
        return;
      }
      Within(current, 0);
      var next := NextCommand(current, 0);
      while current != null
        invariant Valid() && 0 <= n <= |list| && k >= 0 && At(current, k) && (current != null ==> At(next, k + 1))
        invariant Freed(list, client, n, old(fired), old(finished)) && k == |Others(list[..n], client)|
        invariant forall i :: 0 <= i < |commands.elems| ==> commands.elems[i] in old(commands.elems)
        decreases |list| - n
      {
        Within(current, k);
        MoreToFree(list, client, n, k, old(fired), old(finished));
        k := FreeOne(current, next, client, list, n, k, old(fired), old(finished));
        n := n + 1;
        current := next;
        if current != null {
          Within(current, k);
          next := NextCommand(current, k);
        }
      }
      FreedAll(list, client, n, k, old(fired), old(finished));
    }

    /** MQTTAsync_destroy: responses, queued commands, the client. */
    method DestroyClient(client: int)
      requires Valid() && client in clients
      modifies this, commands, commands.elems
      ensures Valid() && View() == Destroy(old(View()), client)
    {
      hide Mine, Others, FailAll, Uids, FreeResponses, List.Valid, QueueOk;
      FreeAllResponses(client);
      FreeCommands(client);
      clients := clients - {client};
    }
  }

  /** No command before position i is to be processed now, and their clients are the ones ignored. */
  ghost predicate PassedOver(st: State, writable: set<int>, ignored: seq<int>, i: nat) {
    && i <= |st.commands|
    && (forall k :: 0 <= k < i ==> st.commands[k].client in ignored)
    && (forall c :: c in ignored ==> exists k :: 0 <= k < i && st.commands[k].client == c)
    && (forall k :: 0 <= k < i && Earliest(st.commands, k) ==> !Ready(st.clients, writable, st.commands[k]))
  }

  lemma PassNone(st: State, writable: set<int>)
    ensures PassedOver(st, writable, [], 0)
  {
  }

  lemma PassIgnored(st: State, writable: set<int>, ignored: seq<int>, i: nat)
    requires PassedOver(st, writable, ignored, i) && i < |st.commands|
    requires !Ready(st.clients, writable, st.commands[i])
    ensures PassedOver(st, writable, ignored + [st.commands[i].client], i + 1)
  {
    hide Ready, Earliest;
  }

  lemma PassKnown(st: State, writable: set<int>, ignored: seq<int>, i: nat)
    requires PassedOver(st, writable, ignored, i) && i < |st.commands| && st.commands[i].client in ignored
    ensures PassedOver(st, writable, ignored, i + 1)
  {
    hide Ready, Earliest;
    var k :| 0 <= k < i && st.commands[k].client == st.commands[i].client;
    NotEarliest(st.commands, k, i);
    forall c | c in ignored ensures exists k :: 0 <= k < i + 1 && st.commands[k].client == c {
      var k :| 0 <= k < i && st.commands[k].client == c;
    }
  }

  lemma NotEarliest(s: seq<Command>, k: nat, i: nat)
    requires k < i < |s| && s[k].client == s[i].client
    ensures !Earliest(s, i)
  {
  }

  lemma PassedIsChosen(st: State, writable: set<int>, ignored: seq<int>, i: nat)
    requires PassedOver(st, writable, ignored, i) && i < |st.commands| && st.commands[i].client !in ignored
    requires Ready(st.clients, writable, st.commands[i])
    ensures Chosen(st, writable, i) && Earliest(st.commands, i)
  {
    hide Ready;
  }

  lemma PassedAll(st: State, writable: set<int>, ignored: seq<int>)
    requires PassedOver(st, writable, ignored, |st.commands|)
    ensures forall k :: 0 <= k < |st.commands| && Earliest(st.commands, k) ==>
              !Ready(st.clients, writable, st.commands[k])
  {
    hide Ready, Earliest;
  }

  /** The step that the check is, by its result. */
  function CheckStep(k: nat, ok: bool): Step {
    if ok then DoCheck(k) else DoGiveUp(k)
  }

  lemma DropsIff(st: State, k: nat)
    requires k < |st.sending| && st.sending[k].client in st.clients && st.sending[k].kind.Publish?
    ensures Enqueue(st, k).dropped == st.dropped <==> !Full(st.clients[st.sending[k].client])
  {
    hide Accept, Full;
    var st1 := st.(sending := Without(st.sending, k));
    Drops.EnqueueDrops(st1, st.sending[k]);
    NotFullDropsNothing(st1, st.sending[k]);
  }

  lemma NotFullDropsNothing(st: State, x: Send)
    requires x.client in st.clients
    ensures !(x.kind.Publish? && Full(st.clients[x.client])) ==>
              Accept(st, x.client, x.kind, x.token, x.cb).dropped == st.dropped
  {
    hide Find, Without;
  }

  lemma CheckKeeps(st: State, k: nat, ok: bool)
    requires Enabled(st, CheckStep(k, ok))
    ensures Drops.AllRoom(st) && Drops.Serial(st, CheckStep(k, ok)) ==> Drops.AllRoom(Next(st, CheckStep(k, ok)))
    ensures Tokens.Distinct(st) ==> Tokens.Distinct(Next(st, CheckStep(k, ok)))
  {
    hide Drops.AllRoom, Tokens.Distinct, Enabled, Next, Drops.Serial;
    var s := CheckStep(k, ok);
    if Drops.AllRoom(st) && Drops.Serial(st, s) {
      Drops.StepKeepsRoom(st, s);
    }
    if Tokens.Distinct(st) {
      Tokens.StepKeepsTokens(st, s);
    }
  }

  lemma QueueKeeps(st: State, k: nat)
    requires Enabled(st, DoEnqueue(k))
    ensures |Enqueue(st, k).dropped| == |st.dropped| + One(Drops.FindsFull(st, DoEnqueue(k)))
    ensures Drops.AllRoom(st) ==> Drops.AllRoom(Enqueue(st, k)) && Enqueue(st, k).dropped == st.dropped
    ensures Tokens.Distinct(st) ==> Tokens.Distinct(Enqueue(st, k))
  {
    hide Drops.AllRoom, Tokens.Distinct, Accept, Full;
    Drops.StepDrops(st, DoEnqueue(k));
    if Drops.AllRoom(st) {
      Drops.StepKeepsRoom(st, DoEnqueue(k));
      Drops.RoomAtEnqueue(st, DoEnqueue(k));
      NotFullDropsNothing(st.(sending := Without(st.sending, k)), st.sending[k]);
    }
    if Tokens.Distinct(st) {
      Tokens.StepKeepsTokens(st, DoEnqueue(k));
    }
  }

  /** Where a processed command ends up, and which callback it gets. */
  ghost predicate Outcome(rs: seq<Command>, done: multiset<nat>, calls: seq<Fired>, c: Command, rc: Rc,
                          rs': seq<Command>, done': multiset<nat>, calls': seq<Fired>)
  {
    if rc == Failed then rs' == rs && done' == done + multiset{c.uid} && calls' == calls + OnFailure(c)
    else if c.kind.Publish? && c.kind.qos == 0 && rc == Complete then
      rs' == rs && done' == done + multiset{c.uid} && calls' == calls + OnSuccess(c)
    else rs' == rs + [c] && done' == done && calls' == calls
  }

  lemma ProcessShape(st: State, t: State, i: nat, rc: Rc)
    requires i < |st.commands| && st.commands[i].client in st.clients && App(st.commands[i])
    requires t.commands == Without(st.commands, i) && t.started == st.started + [st.commands[i]]
    requires t.nextUid == st.nextUid && t.accepted == st.accepted && t.dropped == st.dropped && t.sending == st.sending
    requires var c := st.commands[i];
             && t.clients ==
                (if c.kind.Publish? then st.clients[c.client := Charged(st.clients[c.client], c, rc)] else st.clients)
             && Outcome(st.responses, st.finished, st.fired, c, rc, t.responses, t.finished, t.fired)
    ensures t == Process(st, i, rc)
  {
    hide Without, Charged, OnSuccess, OnFailure;
  }

  /** Either the oldest PUBLISH has gone or the counter has moved. */
  ghost predicate Room(cs: seq<Command>, gone: multiset<nat>, infos: map<int, ClientInfo>, client: int,
                       cs': seq<Command>, gone': multiset<nat>, infos': map<int, ClientInfo>)
    requires client in infos
  {
    if Full(infos[client]) then
      var i := Find(cs, client, APublish);
      && infos' == infos
      && cs' == (if i < 0 then cs else Without(cs, i))
      && gone' == if i < 0 then gone else gone + multiset{cs[i].uid}
    else
      && cs' == cs && gone' == gone
      && infos' == infos[client := infos[client].(buffered := infos[client].buffered + 1)]
  }

  lemma AcceptShape(st: State, t: State, cmd: Command)
    requires cmd.client in st.clients && cmd.uid == st.nextUid
    requires t.nextUid == st.nextUid + 1 && t.accepted == st.accepted + multiset{cmd.uid}
    requires t.responses == st.responses && t.finished == st.finished && t.fired == st.fired && t.started == st.started
    requires t.sending == st.sending
    requires if cmd.kind.Publish? then
               Room(st.commands + [cmd], st.dropped, st.clients, cmd.client, t.commands, t.dropped, t.clients)
             else t.commands == st.commands + [cmd] && t.dropped == st.dropped && t.clients == st.clients
    ensures t == Accept(st, cmd.client, cmd.kind, cmd.token, cmd.cb)
  {
    hide Find, Without;
    assert cmd == Command(st.nextUid, cmd.client, cmd.kind, cmd.token, cmd.cb);
  }

  /** Only client and kind are compared. */
  lemma SameControlBlind(a: Command, b: Command)
    requires SameControl(a, b)
    ensures SameControl(a, Command(0, b.client, b.kind, 0, Callbacks(false, false, false, false)))
  {
  }

  lemma ControlEnabled(st: State, cmd: Command, victim: int)
    requires cmd.client in st.clients && (cmd.kind.Connect? || cmd.kind.Disconnect?) && victim < |st.commands|
    requires victim >= 0 ==> SameControl(st.commands[victim], cmd)
    ensures Enabled(st, DoAcceptControl(cmd.client, cmd.kind, cmd.cb, victim))
  {
    if victim >= 0 {
      SameControlBlind(st.commands[victim], cmd);
    }
  }

  lemma FreeNone(client: int)
    ensures Mine([], client) == [] && Others([], client) == [] && FailAll([]) == [] && Uids([]) == multiset{}
  {
  }

  lemma MineOne(s: seq<Command>, c: Command, client: int)
    ensures FailAll(Mine(s + [c], client))
         == FailAll(Mine(s, client)) + if c.client == client && App(c) then OnFailure(c) else []
    ensures Uids(Mine(s + [c], client))
         == Uids(Mine(s, client)) + if c.client == client && App(c) then multiset{c.uid} else multiset{}
    ensures Others(s + [c], client) == Others(s, client) + if c.client == client then [] else [c]
  {
    assert (s + [c])[..|s|] == s;
    if c.client == client {
      assert Mine(s + [c], client) == Mine(s, client) + [c];
      assert (Mine(s, client) + [c])[..|Mine(s, client)|] == Mine(s, client);
    } else {
      assert Mine(s + [c], client) == Mine(s, client);
    }
  }

  /** The queue when one more command is behind: it has gone, or stays in front of the rest. */
  lemma QueueFreed(list: seq<Command>, client: int, n: nat, q: seq<Command>)
    requires n < |list| && q == Others(list[..n], client) + list[n..]
    ensures var k := |Others(list[..n], client)|;
            && k < |q| && q[k] == list[n] && list[..n + 1] == list[..n] + [list[n]]
            && (if list[n].client == client then Without(q, k) == Others(list[..n + 1], client) + list[n + 1..]
                                                 && |Others(list[..n + 1], client)| == k
                else q == Others(list[..n + 1], client) + list[n + 1..] && |Others(list[..n + 1], client)| == k + 1)
  {
    hide Others, Without;
    assert list[..n + 1] == list[..n] + [list[n]];
    assert list[n..][1..] == list[n + 1..];
    MineOne(list[..n], list[n], client);
    Joint(Others(list[..n], client), list[n..]);
  }

  lemma Joint(a: seq<Command>, b: seq<Command>)
    requires b != []
    ensures (a + b)[|a|] == b[0] && Without(a + b, |a|) == a + b[1..] && a + b == a + [b[0]] + b[1..]
  {
  }

  /** What follows element k when it has gone. */
  lemma Past(elems: seq<ListElement>, k: nat)
    requires k < |elems|
    ensures |Without(elems, k)| == |elems| - 1 && (k + 1 < |elems| ==> Without(elems, k)[k] == elems[k + 1])
    ensures forall i :: 0 <= i < |Without(elems, k)| ==> Without(elems, k)[i] in elems
  {
  }

  /** A response of the client with that token is among the first ones. */
  ghost predicate Waits(s: seq<Command>, client: int, token: int) {
    exists j :: 0 <= j < |s| && s[j].client == client && s[j].token == token
  }

  lemma SearchEnds(st: State, client: int, used: set<int>)
    requires client in st.clients && forall t :: t in used <==> TokenInUse(st, client, t)
    requires st.clients[client].lastId != 0 || exists t :: 1 <= t <= MAX_MSG_ID && !TokenInUse(st, client, t)
    ensures st.clients[client].lastId != 0 || SomeFree(st.clients[client].lastId, used)
  {
    hide TokenInUse;
    if st.clients[client].lastId == 0 {
      var t :| 1 <= t <= MAX_MSG_ID && !TokenInUse(st, client, t);
      assert t !in used;
    }
  }

  /** The search only asks about ids from 1 to the largest. */
  lemma SameIds(st: State, client: int, used: set<int>, token: int)
    requires client in st.clients && forall t :: t in used <==> TokenInUse(st, client, t)
    requires FirstFreeAfter(st.clients[client].lastId, used, token)
    ensures FirstFreeAfter(st.clients[client].lastId, UsedIds(st, client), token)
  {
    hide TokenInUse;
    var last := st.clients[client].lastId;
    var k :| 1 <= k <= MAX_MSG_ID && token == Nth(last, k) && token !in used
             && forall j :: 1 <= j < k ==> Nth(last, j) in used;
    forall j | 1 <= j < k ensures Nth(last, j) in UsedIds(st, client) {
      NthFacts(last, j);
    }
  }
}
