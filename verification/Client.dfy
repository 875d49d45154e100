/**
  The Clients structure and the functions of MQTTProtocolClient.c and MQTTPersistence.c that update
  it: two linked lists of pointers to messages, searched through their cursors, and the store.  log
  records, in order, the store writes, packets and deliveries of each call.  Every method is
  proved to do what the corresponding handler of module Session says, action by action.
*/
module ClientState {
  import opened Sequences
  import opened SortedInsert
  import opened RestoreOrder
  import opened Session
  import opened SessionInvariant
  import opened LinkedList
  import opened ListUsers
  import opened Pointers

  /** Two lists of messages with nothing in common, all of them allocated. */
  ghost predicate MemoryOk(out: seq<Pointer>, inn: seq<Pointer>, memory: Memory<Flight>, brk: Pointer) {
    && Points(out, memory) && Points(inn, memory) && NoRepeats(out) && NoRepeats(inn) && Apart(out, inn)
    && brk > NULL && forall p :: p in memory ==> NULL < p < brk
  }

  ghost predicate Disjoint(a: seq<ListElement>, b: seq<ListElement>) {
    forall i, j :: 0 <= i < |a| && 0 <= j < |b| ==> a[i] != b[j]
  }

  lemma MemorySwap(out: seq<Pointer>, inn: seq<Pointer>, memory: Memory<Flight>, brk: Pointer)
    requires MemoryOk(out, inn, memory, brk)
    ensures MemoryOk(inn, out, memory, brk)
  {
  }

  /** A message leaves one list and is freed. */
  lemma MemoryWithout(a: seq<Pointer>, b: seq<Pointer>, memory: Memory<Flight>, brk: Pointer, k: nat)
    requires MemoryOk(a, b, memory, brk) && k < |a|
    ensures var rest, less := Without(a, k), memory - {a[k]};
            && MemoryOk(rest, b, less, brk)
            && Contents(rest, less) == Without(Contents(a, memory), k) && Contents(b, less) == Contents(b, memory)
  {
    ContentsWithout(a, memory, k);
    ContentsElsewhere(b, memory, memory - {a[k]});
    var rest := Without(a, k);
    forall i, j | 0 <= i < |rest| && 0 <= j < |b| ensures rest[i] != b[j] {
      assert rest[i] == a[if i < k then i else i + 1];
    }
  }

  /** A message is allocated and put into one list. */
  lemma MemoryWith(a: seq<Pointer>, b: seq<Pointer>, memory: Memory<Flight>, brk: Pointer, k: nat, f: Flight)
    requires MemoryOk(a, b, memory, brk) && k <= |a|
    ensures var more, after := a[..k] + [brk] + a[k..], memory[brk := f];
            && MemoryOk(more, b, after, brk + 1)
            && Contents(more, after) == Contents(a, memory)[..k] + [f] + Contents(a, memory)[k..]
            && Contents(b, after) == Contents(b, memory)
  {
    ContentsWith(a, memory, k, brk, f);
    ContentsElsewhere(b, memory, memory[brk := f]);
    var more := a[..k] + [brk] + a[k..];
    forall i, j | 0 <= i < |more| && 0 <= j < |b| ensures more[i] != b[j] {
      assert i != k ==> more[i] == a[if i < k then i else i - 1];
    }
  }

  /** A message is changed in place. */
  lemma MemoryUpdated(a: seq<Pointer>, b: seq<Pointer>, memory: Memory<Flight>, brk: Pointer, k: nat, f: Flight)
    requires MemoryOk(a, b, memory, brk) && k < |a|
    ensures var after := memory[a[k] := f];
            && MemoryOk(a, b, after, brk)
            && Contents(a, after) == Contents(a, memory)[k := f] && Contents(b, after) == Contents(b, memory)
  {
    ContentsUpdated(a, memory, k, f);
    ContentsElsewhere(b, memory, memory[a[k] := f]);
  }

  /** messageIDCompare. */
  function HasId(memory: Memory<Flight>, id: int): Pointer -> bool {
    (p: Pointer) => p in memory && memory[p].msg.id == id
  }

  /** A search of the pointers by id is a search of the messages. */
  lemma {:induction false} FirstIsIndex(items: seq<Pointer>, memory: Memory<Flight>, id: int)
    requires Points(items, memory)
    ensures FirstMatch(HasId(memory, id), items) == IndexOf(Contents(items, memory), id)
  {
    if items != [] {
      assert Points(items[1..], memory);
      assert Contents(items, memory)[1..] == Contents(items[1..], memory);
      FirstIsIndex(items[1..], memory, id);
    }
  }

  /** ListFindItem with messageIDCompare, and what the cursor then points to. */
  method FindMessage(list: List, memory: Memory<Flight>, id: int) returns (p: Pointer, ghost k: int)
    requires list.Valid() && Points(list.items, memory) && DistinctKeys(IdOf, Contents(list.items, memory))
    requires forall q :: q in memory ==> q != NULL
    modifies list`current
    ensures list.Valid() && k == IndexOf(Contents(list.items, memory), id)
    ensures k < 0 ==> p == NULL
    ensures k >= 0 ==> p == list.items[k] && p in memory && p != NULL
    ensures k >= 0 ==> k < |list.elems| && list.current == list.elems[k]
  {
    FirstIsIndex(list.items, memory, id);
    var found := list.FindItem(HasId(memory, id));
    k := IndexOf(Contents(list.items, memory), id);
    if found == null {
      p := NULL;
    } else {
      OnlyOne(list.items, memory, id);
      assert ItemOk(list.elems, list.items, k);
      p := list.current.content;
    }
  }

  lemma OnlyOne(items: seq<Pointer>, memory: Memory<Flight>, id: int)
    requires Points(items, memory) && DistinctKeys(IdOf, Contents(items, memory))
    ensures forall i, j :: 0 <= i < j < |items| ==> !(HasId(memory, id)(items[i]) && HasId(memory, id)(items[j]))
  {
    var flights := Contents(items, memory);
    forall i, j | 0 <= i < j < |items| ensures !(HasId(memory, id)(items[i]) && HasId(memory, id)(items[j])) {
      assert IdOf(flights[i]) != IdOf(flights[j]);
    }
  }

  class Client {
    const v5: bool
    const outboundMsgs: List
    const inboundMsgs: List
    var memory: Memory<Flight>
    var brk: Pointer
    var store: Store
    var log: seq<Action>

    /** The lists share no elements. */
    ghost predicate Lists()
      reads this, outboundMsgs, outboundMsgs.elems, inboundMsgs, inboundMsgs.elems
    {
      && outboundMsgs != inboundMsgs && outboundMsgs.Valid() && inboundMsgs.Valid()
      && Disjoint(outboundMsgs.elems, inboundMsgs.elems)
    }

    ghost predicate Valid()
      reads this, outboundMsgs, outboundMsgs.elems, inboundMsgs, inboundMsgs.elems
    {
      Lists() && MemoryOk(outboundMsgs.items, inboundMsgs.items, memory, brk)
    }

    ghost function State(): Session
      requires Valid()
      reads this, outboundMsgs, outboundMsgs.elems, inboundMsgs, inboundMsgs.elems
    {
      Session(v5, Contents(outboundMsgs.items, memory), Contents(inboundMsgs.items, memory), store)
    }

    /** Exactly the outcome's actions have been performed, in order, and the lists are the outcome's. */
    twostate predicate Did(o: Outcome)
      requires Valid()
      reads this, outboundMsgs, outboundMsgs.elems, inboundMsgs, inboundMsgs.elems
    {
      && log == old(log) + o.actions
      && store == Apply(old(store), o.actions)
      && State().outbound == o.outbound && State().inbound == o.inbound
    }

    constructor (v5: bool)
      ensures Valid() && State() == Session(v5, [], [], map[]) && log == []
    {
      this.v5 := v5;
      outboundMsgs := new List();
      inboundMsgs := new List();
      memory, brk, store, log := map[], 1, map[], [];
    }

    /** One micro-action: a store write changes the store, everything is logged. */
    method Perform(a: Action)
      modifies this`store, this`log
      ensures log == old(log) + [a] && store == ApplyOne(old(store), a)
    {
      match a {
        case Put(k, r) => store := store[k := r];
        case Remove(k) => store := store - {k};
        case Discard(k) => store := store - {k};
        case _ =>
      }
      log := log + [a];
    }

    /** Several micro-actions in order. */
    method PerformAll(actions: seq<Action>)
      modifies this`store, this`log
      ensures log == old(log) + actions && store == Apply(old(store), actions)
    {
      var i := 0;
      while i < |actions|
        invariant 0 <= i <= |actions|
        invariant log == old(log) + actions[..i]
        invariant Apply(store, actions[i..]) == Apply(old(store), actions)
      {
        assert actions[..i + 1] == actions[..i] + [actions[i]];
        assert actions[i..][0] == actions[i] && actions[i..][1..] == actions[i + 1..];
        Perform(actions[i]);
        i := i + 1;
      }
      assert actions[..i] == actions && actions[i..] == [];
    }

    method Act(actions: seq<Action>)
      requires Valid()
      modifies this`store, this`log
      ensures log == old(log) + actions && store == Apply(old(store), actions)
      ensures Valid() && State().outbound == old(State().outbound) && State().inbound == old(State().inbound)
    {
      hide List.Valid, Apply;
      PerformAll(actions);
    }

    method Malloc(f: Flight) returns (p: Pointer)
      requires brk > NULL && forall q :: q in memory ==> NULL < q < brk
      modifies this`memory, this`brk
      ensures p == old(brk) && brk == old(brk) + 1 && memory == old(memory)[p := f]
    {
      p := brk;
      brk := brk + 1;
      memory := memory[p := f];
    }

    /** The search of the outbound list; p is what the cursor then points to. */
    method FindOutbound(id: int) returns (p: Pointer, ghost k: int)
      requires Valid() && DistinctKeys(IdOf, State().outbound)
      modifies outboundMsgs`current
      ensures Valid() && State() == old(State()) && k == IndexOf(State().outbound, id)
      ensures k < 0 ==> p == NULL
      ensures k >= 0 ==> p != NULL && p in memory && memory[p] == State().outbound[k]
      ensures k >= 0 ==> k < |outboundMsgs.items| && outboundMsgs.items[k] == p
    {
      hide List.Valid;
      p, k := FindMessage(outboundMsgs, memory, id);
    }

    method FindInbound(id: int) returns (p: Pointer, ghost k: int)
      requires Valid() && DistinctKeys(IdOf, State().inbound)
      modifies inboundMsgs`current
      ensures Valid() && State() == old(State()) && k == IndexOf(State().inbound, id)
      ensures k < 0 ==> p == NULL
      ensures k >= 0 ==> p != NULL && p in memory && memory[p] == State().inbound[k]
      ensures k >= 0 ==> k < |inboundMsgs.items| && inboundMsgs.items[k] == p
      ensures k >= 0 ==> k < |inboundMsgs.elems| && inboundMsgs.current == inboundMsgs.elems[k]
    {
      hide List.Valid;
      p, k := FindMessage(inboundMsgs, memory, id);
    }

    /** The end of an outbound exchange: the message leaves the list and is freed. */
    method FinishOutbound(p: Pointer, ghost k: nat)
      requires Valid() && k < |outboundMsgs.items| && outboundMsgs.items[k] == p
      modifies this`memory, outboundMsgs, outboundMsgs.elems
      ensures Valid() && State().outbound == Without(old(State().outbound), k)
                && State().inbound == old(State().inbound)
    {
      hide List.Valid;
      MemoryWithout(outboundMsgs.items, inboundMsgs.items, memory, brk, k);
      RemovePointer(outboundMsgs, p, k);
      memory := memory - {p};
      assert Disjoint(outboundMsgs.elems, inboundMsgs.elems);
    }

    /** MQTTProtocol_handlePubacks. */
    method Puback(id: int)
      requires Valid() && DistinctKeys(IdOf, State().outbound)
      modifies this, outboundMsgs, outboundMsgs.elems
      ensures Valid() && Did(HandlePuback(old(State()), id))
    {
      hide List.Valid, Valid, MemoryOk, Contents, IndexOf, Apply, RemoveSent;
      var p, k := FindOutbound(id);
      if p == NULL || memory[p].msg.qos != 1 {
        Act([]);
      } else {
        Act(RemoveSent(id));
        FinishOutbound(p, k);
      }
    }

    method ForgetCursor()
      requires Valid()
      modifies outboundMsgs`current
      ensures Valid() && State() == old(State()) && outboundMsgs.current == null
    {
      outboundMsgs.current := null;
    }

    /** MQTTProtocol_handlePubrecs: the cursor is reset before the search. */
    method Pubrec(id: int, error: bool)
      requires Valid() && DistinctKeys(IdOf, State().outbound)
      modifies this, outboundMsgs, outboundMsgs.elems
      ensures Valid() && Did(HandlePubrec(old(State()), id, error))
    {
      hide List.Valid, Valid, MemoryOk, Contents, IndexOf, Apply, RemoveSent;
      ForgetCursor();
      var p, k := FindOutbound(id);
      if p == NULL || memory[p].msg.qos != 2 || memory[p].next != AwaitPubrec {
        Act([]);
      } else if v5 && error {
        Act(RemoveSent(id));
        FinishOutbound(p, k);
      } else {
        Act([Put(Key(Rel, v5, id), PubrelRecord(id)), SendPubrel(id)]);
        AwaitsPubcomp(p, k);
      }
    }

    /** m->nextMessageType = PUBCOMP. */
    method AwaitsPubcomp(p: Pointer, ghost k: nat)
      requires Valid() && k < |outboundMsgs.items| && outboundMsgs.items[k] == p
      modifies this`memory
      ensures Valid() && State().inbound == old(State().inbound)
      ensures State().outbound == old(State().outbound)[k := old(State().outbound)[k].(next := AwaitPubcomp)]
    {
      hide List.Valid;
      MemoryUpdated(outboundMsgs.items, inboundMsgs.items, memory, brk, k, memory[p].(next := AwaitPubcomp));
      memory := memory[p := memory[p].(next := AwaitPubcomp)];
    }

    /** MQTTProtocol_handlePubcomps. */
    method Pubcomp(id: int)
      requires Valid() && DistinctKeys(IdOf, State().outbound)
      modifies this, outboundMsgs, outboundMsgs.elems
      ensures Valid() && Did(HandlePubcomp(old(State()), id))
    {
      hide List.Valid, Valid, MemoryOk, Contents, IndexOf, Apply, RemoveSent;
      var p, k := FindOutbound(id);
      if p == NULL || memory[p].msg.qos != 2 || memory[p].next != AwaitPubcomp {
        Act([]);
      } else {
        Act(RemoveSent(id));
        FinishOutbound(p, k);
      }
    }

    /** MQTTProtocol_startPublish for QoS 1 and 2: the message is in the list before it is stored and sent. */
    method StartPublishMessage(m: Message)
      requires Valid()
      modifies this, outboundMsgs, outboundMsgs.elems
      ensures Valid() && Did(StartPublish(old(State()), m))
    {
      hide List.Valid, Apply;
      var f := Flight(m, InitialNext(m.qos));
      ghost var items := outboundMsgs.items;
      MemoryWith(items, inboundMsgs.items, memory, brk, |items|, f);
      AtEnd(items, brk);
      AtEnd(Contents(items, memory), f);
      var p := Malloc(f);
      AppendPointer(outboundMsgs, p);
      Act([Put(Key(Sent, v5, m.id), PublishRecord(m, false)), SendPublish(m.id, false)]);
    }

    /** MQTTProtocol_handlePublishes; a duplicate takes the place of the message it repeats. */
    method Publish(m: Message, dup: bool, writable: bool)
      requires Valid() && DistinctKeys(IdOf, State().inbound)
      modifies this, inboundMsgs, inboundMsgs.elems
      ensures Valid() && Did(HandlePublish(old(State()), m, dup, writable))
    {
      hide List.Valid, Apply, Incoming;
      if m.qos == 0 {
        Act([Deliver(m)]);
      } else if m.qos != 2 {
        Act(if m.qos == 1 && writable then [SendAck(Ack.Puback, m.id), Deliver(m)] else []);
      } else if !writable {
        Act([Put(Key(Received, v5, m.id), PublishRecord(m, dup))]);
      } else {
        PublishQos2(m, dup);
      }
    }

    method PublishQos2(m: Message, dup: bool)
      requires Valid() && DistinctKeys(IdOf, State().inbound) && m.qos == 2
      modifies this, inboundMsgs, inboundMsgs.elems
      ensures Valid() && Did(HandlePublish(old(State()), m, dup, true))
    {
      hide List.Valid, Valid, MemoryOk, Contents, IndexOf, Apply, Incoming;
      var record := [Put(Key(Received, v5, m.id), PublishRecord(m, dup))];
      var old_p, k := FindInbound(m.id);
      if old_p != NULL {
        ReplaceInbound(old_p, k, Incoming(v5, m, true));
        Act(record + [SendAck(Ack.Pubrec, m.id)]);
      } else {
        AppendInbound(Incoming(v5, m, false));
        Act(record + [Open(m.id), SendAck(Ack.Pubrec, m.id)] + (if v5 then [Deliver(m)] else []));
      }
    }

    method AppendInbound(f: Flight)
      requires Valid()
      modifies this`memory, this`brk, inboundMsgs, inboundMsgs.elems
      ensures Valid() && State().outbound == old(State().outbound) && State().inbound == old(State().inbound) + [f]
      ensures forall i :: 0 <= i < |inboundMsgs.elems| ==>
                inboundMsgs.elems[i] in old(inboundMsgs.elems) || fresh(inboundMsgs.elems[i])
    {
      hide List.Valid;
      ghost var items := inboundMsgs.items;
      MemorySwap(outboundMsgs.items, items, memory, brk);
      MemoryWith(items, outboundMsgs.items, memory, brk, |items|, f);
      AtEnd(items, brk);
      AtEnd(Contents(items, memory), f);
      var p := Malloc(f);
      AppendPointer(inboundMsgs, p);
      MemorySwap(inboundMsgs.items, outboundMsgs.items, memory, brk);
    }

    /** ListInsert in front of the message found, then ListRemove of that message. */
    method ReplaceInbound(old_p: Pointer, ghost k: nat, f: Flight)
      requires Valid() && k < |inboundMsgs.items| && inboundMsgs.items[k] == old_p
      requires k < |inboundMsgs.elems| && inboundMsgs.current == inboundMsgs.elems[k]
      modifies this`memory, this`brk, inboundMsgs, inboundMsgs.elems
      ensures Valid() && State().outbound == old(State().outbound) && State().inbound == old(State().inbound)[k := f]
    {
      hide List.Valid, MemoryOk, Valid, Contents;
      Replaced(State().inbound, k, f);
      InsertInbound(inboundMsgs.current, k, f);
      FinishInbound(old_p, k + 1);
    }

    method InsertInbound(listElem: ListElement, ghost k: nat, f: Flight)
      requires Valid() && k < |inboundMsgs.items| && k < |inboundMsgs.elems| && listElem == inboundMsgs.elems[k]
      modifies this`memory, this`brk, inboundMsgs, inboundMsgs.elems
      ensures Valid() && State().outbound == old(State().outbound)
      ensures k < |old(State()).inbound|
      ensures State().inbound == old(State().inbound)[..k] + [f] + old(State().inbound)[k..]
      ensures k + 1 < |inboundMsgs.items| && inboundMsgs.items[k + 1] == old(inboundMsgs.items)[k]
      ensures fresh(set i | 0 <= i < |inboundMsgs.elems| && inboundMsgs.elems[i] !in old(inboundMsgs.elems)
                :: inboundMsgs.elems[i])
    {
      hide List.Valid;
      MemorySwap(outboundMsgs.items, inboundMsgs.items, memory, brk);
      MemoryWith(inboundMsgs.items, outboundMsgs.items, memory, brk, k, f);
      var p := Malloc(f);
      InsertPointer(inboundMsgs, p, listElem, k);
      assert Disjoint(outboundMsgs.elems, inboundMsgs.elems);
      MemorySwap(inboundMsgs.items, outboundMsgs.items, memory, brk);
    }

    /** MQTTProtocol_handlePubrels. */
    method Pubrel(id: int, dup: bool, writable: bool)
      requires Valid() && DistinctKeys(IdOf, State().inbound)
      modifies this, inboundMsgs, inboundMsgs.elems
      ensures Valid() && Did(HandlePubrel(old(State()), id, dup, writable))
    {
      hide List.Valid, Valid, MemoryOk, Contents, IndexOf, Apply, RemoveReceived;
      var p, k := FindInbound(id);
      if p == NULL {
        Act(if dup && writable then [SendAck(Ack.Pubcomp, id)] else []);
      } else if memory[p].msg.qos != 2 || memory[p].next != AwaitPubrel || !writable {
        Act([]);
      } else {
        Act([SendAck(Ack.Pubcomp, id)] + (if v5 then [] else [Deliver(memory[p].msg)]) + RemoveReceived(id));
        FinishInbound(p, k);
      }
    }

    method FinishInbound(p: Pointer, ghost k: nat)
      requires Valid() && k < |inboundMsgs.items| && inboundMsgs.items[k] == p
      modifies this`memory, inboundMsgs, inboundMsgs.elems
      ensures Valid() && State().inbound == Without(old(State().inbound), k)
                && State().outbound == old(State().outbound)
    {
      hide List.Valid;
      MemorySwap(outboundMsgs.items, inboundMsgs.items, memory, brk);
      MemoryWithout(inboundMsgs.items, outboundMsgs.items, memory, brk, k);
      RemovePointer(inboundMsgs, p, k);
      memory := memory - {p};
      assert Disjoint(outboundMsgs.elems, inboundMsgs.elems);
      MemorySwap(inboundMsgs.items, outboundMsgs.items, memory, brk);
    }

    /** MQTTProtocol_retries: for each message in turn, as far as the connection lets it get, due tells whether
        the retry interval is over; on reconnect it always is. */
    method Retries(due: seq<bool>) returns (ghost done: seq<bool>)
      requires Valid()
      modifies this`store, this`log
      ensures Valid() && done <= due && |done| <= |old(State().outbound)|
      ensures |done| == |due| || |done| == |old(State().outbound)|
      ensures Did(Outcome(ResendAll(v5, Selected(old(State().outbound), done)), old(State().outbound),
                old(State().inbound)))
    {
      hide Apply, Resend, ResendAll, Selected, MemoryOk, Valid, List.Valid, Contents;
      ghost var list := State().outbound;
      NothingResent(v5, store, list);
      assert due[..0] == [];
      var current := NextOutbound(null, -1);
      var i: nat := 0;
      while current != null && i < |due|
        invariant i <= |due| && i <= |list| == |outboundMsgs.elems|
        invariant current == if i < |list| then outboundMsgs.elems[i] else null
        invariant Valid() && State().outbound == list && State().inbound == old(State().inbound)
        invariant log == old(log) + ResendAll(v5, Selected(list, due[..i]))
        invariant store == Apply(old(store), ResendAll(v5, Selected(list, due[..i])))
      {
        OneMoreResent(v5, old(store), list, due, i);
        if due[i] {
          var f := MessageAt(current, i);
          Act(Resend(v5, f));
        }
        current := NextOutbound(current, i);
        i := i + 1;
      }
      done := due[..i];
    }

    /** ListNextElement on the outbound list. */
    method NextOutbound(pos: ListElement?, ghost k: int) returns (r: ListElement?)
      requires Valid() && -1 <= k < |outboundMsgs.elems| && pos == (if k < 0 then null else outboundMsgs.elems[k])
      ensures |outboundMsgs.elems| == |State().outbound|
      ensures r == if k + 1 < |outboundMsgs.elems| then outboundMsgs.elems[k + 1] else null
    {
      r := outboundMsgs.NextElement(pos, k);
    }

    /** What an element of the outbound list points to. */
    method MessageAt(e: ListElement, ghost k: nat) returns (f: Flight)
      requires Valid() && k < |outboundMsgs.elems| && e == outboundMsgs.elems[k]
      ensures k < |State().outbound| && f == State().outbound[k]
    {
      assert ItemOk(outboundMsgs.elems, outboundMsgs.items, k);
      f := memory[e.content];
    }

    /** MQTTAsync_cleanSession. */
    method EndSession(keys: seq<Key>)
      requires Valid()
      modifies this, outboundMsgs, inboundMsgs
      ensures Valid() && Did(CleanSession(keys))
    {
      hide Apply, DiscardAll, List.Valid;
      Act(DiscardAll(keys));
      inboundMsgs.Empty();
      outboundMsgs.Empty();
      memory := map[];
    }

    // ---------- recovery ----------

    /** MQTTPersistence_insertInOrder of a restored message. */
    method InsertOutbound(f: Flight)
      requires Valid()
      modifies this`memory, this`brk, outboundMsgs, outboundMsgs.elems
      ensures Valid() && State().inbound == old(State().inbound)
      ensures State().outbound == Insert(IdOf, old(State().outbound), f)
      ensures forall i :: 0 <= i < |outboundMsgs.elems| ==>
                outboundMsgs.elems[i] in old(outboundMsgs.elems) || fresh(outboundMsgs.elems[i])
    {
      hide List.Valid;
      ghost var items := outboundMsgs.items;
      MemoryInserted(items, inboundMsgs.items, memory, brk, f);
      var p := Malloc(f);
      ghost var pos := InsertInOrder(outboundMsgs, p, At(IdOf, memory));
      assert Disjoint(outboundMsgs.elems, inboundMsgs.elems);
    }

    /** MQTTPersistence_wrapMsgID. */
    method WrapOutbound()
      requires Valid()
      modifies outboundMsgs, outboundMsgs.elems
      ensures Valid() && State().inbound == old(State().inbound)
      ensures State().outbound == Wrap(IdOf, old(State().outbound))
    {
      hide List.Valid;
      MemoryWrapped(outboundMsgs.items, inboundMsgs.items, memory, brk);
      ghost var k := WrapMsgID(outboundMsgs, At(IdOf, memory));
      assert Disjoint(outboundMsgs.elems, inboundMsgs.elems);
    }

    /** MQTTPersistence_restorePackets in a new process: the lists are rebuilt from the store. */
    method RestorePacketsFrom(keys: seq<Key>)
      requires Valid() && State().outbound == [] && State().inbound == [] && forall k :: k in keys ==> k in store
      modifies this, outboundMsgs, outboundMsgs.elems, inboundMsgs, inboundMsgs.elems
      ensures Valid() && Did(RestorePackets(v5, old(store), keys))
    {
      hide List.Valid, Valid, MemoryOk, Contents, Apply, RestoreKeys, RestoreKey, Wrap, Insert;
      NothingRestored(v5, store);
      NoElements();
      assert keys[..0] == [];
      var i := 0;
      while i < |keys|
        invariant 0 <= i <= |keys| && Valid()
        invariant Did(RestoreKeys(v5, old(store), keys[..i]))
        invariant forall i :: 0 <= i < |outboundMsgs.elems| ==> fresh(outboundMsgs.elems[i])
        invariant forall i :: 0 <= i < |inboundMsgs.elems| ==> fresh(inboundMsgs.elems[i])
      {
        OneMoreRestored(v5, old(store), keys, i);
        RestoreOne(keys[i], RestoreKeys(v5, old(store), keys[..i]), old(store));
        i := i + 1;
      }
      assert keys[..i] == keys;
      WrapOutbound();
    }

    lemma NoElements()
      requires Valid()
      ensures |outboundMsgs.elems| == |State().outbound| && |inboundMsgs.elems| == |State().inbound|
    {
    }

    method RestoreOne(key: Key, ghost o: Outcome, ghost store0: Store)
      requires Valid() && store == Apply(store0, o.actions) && State().outbound == o.outbound
                 && State().inbound == o.inbound
      modifies this, outboundMsgs, outboundMsgs.elems, inboundMsgs, inboundMsgs.elems
      ensures Valid()
      ensures var o' := if key in old(store) then RestoreKey(v5, o, old(store), key) else o;
              && State().outbound == o'.outbound && State().inbound == o'.inbound
              && store == Apply(store0, o'.actions)
              && o.actions <= o'.actions && log == old(log) + o'.actions[|o.actions|..]
      ensures forall i :: 0 <= i < |outboundMsgs.elems| ==>
                outboundMsgs.elems[i] in old(outboundMsgs.elems) || fresh(outboundMsgs.elems[i])
      ensures forall i :: 0 <= i < |inboundMsgs.elems| ==>
                inboundMsgs.elems[i] in old(inboundMsgs.elems) || fresh(inboundMsgs.elems[i])
    {
      hide List.Valid, Valid, MemoryOk, Contents, Apply, Insert;
      if key !in store {
        return;
      }
      ghost var was := store;
      match key.stem {
        case Received =>
          if store[key].PublishRecord? {
            AppendInbound(ReceivedFlight(v5, store[key].msg));
          }
        case Sent =>
          if store[key].PublishRecord? {
            InsertOutbound(SentFlight(v5, store, store[key].msg));
          }
        case Rel =>
          if store[key].PubrelRecord? && Key(Sent, v5, store[key].id) !in store {
            Act([Remove(key)]);
            ApplyConcat(store0, o.actions, [Remove(key)]);
          }
      }
    }
  }

  lemma NothingRestored(v5: bool, store: Store)
    ensures RestoreKeys(v5, store, []) == Outcome([], [], []) && Apply(store, []) == store
  {
  }

  lemma OneMoreRestored(v5: bool, store: Store, keys: seq<Key>, i: nat)
    requires i < |keys| && forall k :: k in keys ==> k in store
    ensures var o := RestoreKeys(v5, store, keys[..i]);
            var now := Apply(store, o.actions);
            RestoreKeys(v5, store, keys[..i + 1]) == if keys[i] in now then RestoreKey(v5, o, now, keys[i]) else o
  {
    hide RestoreKey, Apply;
    assert keys[..i + 1][..i] == keys[..i];
  }

  lemma MemoryInserted(a: seq<Pointer>, b: seq<Pointer>, memory: Memory<Flight>, brk: Pointer, f: Flight)
    requires MemoryOk(a, b, memory, brk)
    ensures var after := memory[brk := f];
            var more := Insert(At(IdOf, after), a, brk);
            && MemoryOk(more, b, after, brk + 1)
            && Contents(more, after) == Insert(IdOf, Contents(a, memory), f)
            && Contents(b, after) == Contents(b, memory)
  {
    hide Insert;
    var after := memory[brk := f];
    ContentsElsewhere(a, memory, after);
    ContentsElsewhere(b, memory, after);
    ContentsInserted(IdOf, a, after, brk);
    InsertContents(At(IdOf, after), a, brk);
    var more := Insert(At(IdOf, after), a, brk);
    assert multiset(more) == multiset(a + [brk]);
    NoRepeatsContents(a + [brk], more);
    forall i, j | 0 <= i < |more| && 0 <= j < |b| ensures more[i] != b[j] {
      assert more[i] in multiset(a + [brk]);
      assert more[i] in a + [brk];
    }
  }

  lemma MemoryWrapped(a: seq<Pointer>, b: seq<Pointer>, memory: Memory<Flight>, brk: Pointer)
    requires MemoryOk(a, b, memory, brk)
    ensures var w := Wrap(At(IdOf, memory), a);
            MemoryOk(w, b, memory, brk) && Contents(w, memory) == Wrap(IdOf, Contents(a, memory))
  {
    ContentsWrapped(IdOf, a, memory);
    var w := Wrap(At(IdOf, memory), a);
    if a != [] {
      RotateBack(a, WrapIndex(Keys(At(IdOf, memory), a), 1, 0));
    }
    NoRepeatsContents(a, w);
    forall i, j | 0 <= i < |w| && 0 <= j < |b| ensures w[i] != b[j] {
      assert w[i] in multiset(a);
      assert w[i] in a;
    }
  }

  lemma NothingResent(v5: bool, store: Store, list: seq<Flight>)
    ensures Selected(list, []) == [] && ResendAll(v5, []) == [] && Apply(store, []) == store
  {
  }

  lemma OneMoreResent(v5: bool, store: Store, list: seq<Flight>, due: seq<bool>, i: nat)
    requires i < |due| && i < |list|
    ensures !due[i] ==> Selected(list, due[..i + 1]) == Selected(list, due[..i])
    ensures due[i] ==>
              var before, all := ResendAll(v5, Selected(list, due[..i])), ResendAll(v5, Selected(list, due[..i + 1]));
              && all == before + Resend(v5, list[i])
              && Apply(store, all) == Apply(Apply(store, before), Resend(v5, list[i]))
  {
    hide Apply, Resend;
    var flights := Selected(list, due[..i]);
    assert due[..i + 1][..i] == due[..i];
    assert Selected(list, due[..i + 1]) == flights + if due[i] then [list[i]] else [];
    if due[i] {
      assert (flights + [list[i]])[..|flights|] == flights;
      ApplyConcat(store, ResendAll(v5, flights), Resend(v5, list[i]));
    }
  }

  lemma Replaced(s: seq<Flight>, k: nat, f: Flight)
    requires k < |s|
    ensures Without(s[..k] + [f] + s[k..], k + 1) == s[k := f]
  {
  }
}
