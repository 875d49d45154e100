/** The message queue of a client as it runs: a linked list of pointers to its entries, over the store. */
module MessageQueue {
  import opened SortedInsert
  import opened LinkedList
  import opened ListUsers
  import opened Pointers
  import opened Handoff
  import opened HandoffRuns

  class Queue {
    const v5: bool
    const messageQueue: List
    var memory: Memory<Entry>
    var brk: Pointer
    var store: Store
    var counter: nat
    var taken: seq<Msg>
    ghost var arrivals: seq<Msg>

    ghost predicate Valid()
      reads this, messageQueue, messageQueue.elems
    {
      && messageQueue.Valid() && Points(messageQueue.items, memory) && NoRepeats(messageQueue.items)
      && brk > NULL && forall p :: p in memory ==> NULL < p < brk
    }

    ghost function View(): State
      requires Valid()
      reads this, messageQueue, messageQueue.elems
    {
      State(v5, Contents(messageQueue.items, memory), store, counter, taken, arrivals)
    }

    /** A new process on what an earlier one left in the store; taken and arrivals are history. */
    constructor (v5: bool, store: Store, taken: seq<Msg>, ghost arrivals: seq<Msg>)
      ensures Valid() && View() == State(v5, [], store, 0, taken, arrivals) && fresh(messageQueue)
      ensures messageQueue.elems == []
    {
      this.v5, this.store, this.taken, this.arrivals := v5, store, taken, arrivals;
      messageQueue := new List();
      memory, brk, counter := map[], 1, 0;
    }

    /** MQTTPersistence_persistQueueEntry: the number comes from the counter, which goes around. */
    method Persist(msg: Msg) returns (seqno: nat)
      modifies this`store, this`counter
      ensures seqno == NextSeqno(old(counter)) == counter
      ensures store == old(store)[QueueKey(v5, seqno) := msg]
    {
      counter := counter + 1;
      if counter == SEQNO_LIMIT {
        counter := 0;
      }
      seqno := counter;
      store := store[QueueKey(v5, seqno) := msg];
    }

    method Malloc(e: Entry) returns (p: Pointer)
      modifies this`memory, this`brk
      ensures p == old(brk) && brk == old(brk) + 1 && memory == old(memory)[p := e]
    {
      p := brk;
      brk := brk + 1;
      memory := memory[p := e];
    }

    /** ListAppend of a new entry. */
    method Enqueue(e: Entry)
      requires Valid()
      modifies this`memory, this`brk, messageQueue, messageQueue.elems
      ensures Valid() && View() == old(View()).(queue := old(View().queue) + [e])
    {
      hide List.Valid;
      ghost var items := messageQueue.items;
      ContentsWith(items, memory, |items|, brk, e);
      AtEnd(items, brk);
      AtEnd(Contents(items, memory), e);
      var p := Malloc(e);
      AppendPointer(messageQueue, p);
    }

    /** ListRemove of the first entry. */
    method Dequeue(p: Pointer)
      requires Valid() && messageQueue.items != [] && messageQueue.items[0] == p
      modifies this`memory, messageQueue, messageQueue.elems
      ensures Valid() && old(View()).queue != [] && View() == old(View()).(queue := old(View().queue)[1..])
    {
      hide List.Valid;
      ContentsWithout(messageQueue.items, memory, 0);
      RemovePointer(messageQueue, p, 0);
      memory := memory - {p};
    }

    /** Protocol_processPublication.  Nothing is lost or reordered, and the store keeps matching the queue,
        as long as fewer than the limit are queued. */
    method ProcessPublication(msg: Msg, connected: bool, callback: bool, agreed: bool)
      requires Valid()
      modifies this, messageQueue, messageQueue.elems
      ensures Valid() && View() == Arrive(old(View()), msg, connected && callback, agreed)
      ensures Accounted(old(View())) ==> Accounted(View())
      ensures Inv(old(View())) && Guarded(old(View()), DoArrive(msg, connected && callback, agreed)) ==> Inv(View())
    {
      hide List.Valid, Valid, Inv, Accounted, Guarded;
      ghost var st := View();
      Count();
      var delivered := false;
      if messageQueue.count == 0 && connected {
        if callback {
          delivered := agreed;
        }
      }
      if delivered {
        Take(msg);
      } else {
        Queued(msg);
      }
      if Accounted(st) {
        ArriveAccounts(st, msg, connected && callback, agreed);
      }
      if Inv(st) && Guarded(st, DoArrive(msg, connected && callback, agreed)) {
        StepKeeps(st, DoArrive(msg, connected && callback, agreed));
      }
    }

    lemma Count()
      requires Valid()
      ensures messageQueue.count == |View().queue| == |messageQueue.items|
      ensures View().queue != [] ==>
                messageQueue.first != null && messageQueue.first.content == messageQueue.items[0]
                && messageQueue.items[0] in memory && memory[messageQueue.items[0]] == View().queue[0]
    {
      if messageQueue.items != [] {
        assert ItemOk(messageQueue.elems, messageQueue.items, 0);
      }
    }

    method Take(msg: Msg)
      requires Valid()
      modifies this`taken, this`arrivals
      ensures Valid()
      ensures View() == old(View()).(taken := old(taken) + [msg], arrivals := old(arrivals) + [msg])
    {
      hide List.Valid;
      arrivals := arrivals + [msg];
      taken := taken + [msg];
    }

    method Queued(msg: Msg)
      requires Valid()
      modifies this, messageQueue, messageQueue.elems
      ensures Valid() && View() == Arrive(old(View()), msg, false, false)
    {
      hide List.Valid;
      arrivals := arrivals + [msg];
      var seqno := Persist(msg);
      Enqueue(Entry(seqno, msg));
    }

    /** The delivery part of MQTTAsync_receiveThread: the entry goes only when the callback has taken it. */
    method DeliverFirst(callback: bool, agreed: bool)
      requires Valid()
      modifies this, messageQueue, messageQueue.elems
      ensures Valid() && View() == Deliver(old(View()), callback && agreed)
      ensures Accounted(old(View())) ==> Accounted(View())
      ensures Inv(old(View())) ==> Inv(View())
    {
      hide List.Valid, Valid, Inv, Accounted;
      ghost var st := View();
      Count();
      if messageQueue.count > 0 && callback {
        var qe := messageQueue.first.content;
        if agreed {
          Unpersist(memory[qe]);
          Count();
          Dequeue(qe);
        }
      }
      if Accounted(st) {
        DeliverAccounts(st, callback && agreed);
      }
      if Inv(st) {
        StepKeeps(st, DoDeliver(callback && agreed));
      }
    }

    /** The message has been taken: MQTTPersistence_unpersistQueueEntry. */
    method Unpersist(e: Entry)
      requires Valid()
      modifies this`taken, this`store
      ensures Valid() && messageQueue.items == old(messageQueue.items)
      ensures View() == old(View()).(taken := old(taken) + [e.msg], store := old(store) - {QueueKey(v5, e.seqno)})
    {
      hide List.Valid;
      taken := taken + [e.msg];
      store := store - {QueueKey(v5, e.seqno)};
    }

    /** MQTTPersistence_insertInSeqOrder of a restored entry. */
    method InsertInSeqOrder(e: Entry)
      requires Valid()
      modifies this`memory, this`brk, messageQueue, messageQueue.elems
      ensures Valid() && View() == old(View()).(queue := Insert(SeqnoOf, old(View().queue), e))
      ensures forall i :: 0 <= i < |messageQueue.elems| ==>
                messageQueue.elems[i] in old(messageQueue.elems) || fresh(messageQueue.elems[i])
    {
      hide List.Valid;
      InsertedQueue(messageQueue.items, memory, brk, e);
      var p := Malloc(e);
      ghost var pos := InsertInOrder(messageQueue, p, At(SeqnoOf, memory));
    }

    /** MQTTPersistence_restoreMessageQueue in a new process. */
    method RestoreMessageQueue(keys: seq<string>)
      requires Valid() && View().queue == [] && counter == 0 && KeysOf(store, keys)
      modifies this, messageQueue, messageQueue.elems
      ensures Valid() && View() == Restart(old(View()), keys)
    {
      hide List.Valid, Valid, IsQueueKey, KeySeqno, Insert, InsertAll, MaxSeqno, Entries;
      Count();
      NoElements();
      NothingRestored(store);
      assert keys[..0] == [];
      var i := 0;
      while i < |keys|
        invariant 0 <= i <= |keys| && Valid() && store == old(store)
        invariant View() == old(View()).(queue := InsertAll(SeqnoOf, Entries(store, keys[..i])), counter := counter)
        invariant counter == MaxSeqno(Entries(store, keys[..i]))
        invariant forall j :: 0 <= j < |messageQueue.elems| ==> fresh(messageQueue.elems[j])
      {
        var k := keys[i];
        EntriesGrow(store, keys[..i], k);
        assert keys[..i + 1] == keys[..i] + [k];
        if IsQueueKey(k) {
          var e := Entry(KeySeqno(k), store[k]);
          InsertInSeqOrder(e);
          Raise(e.seqno);
        }
        i := i + 1;
      }
      assert keys[..i] == keys;
    }

    lemma NoElements()
      requires Valid()
      ensures |messageQueue.elems| == |messageQueue.items|
    {
    }

    /** c->qentry_seqno = max(c->qentry_seqno, qe->seqno). */
    method Raise(seqno: nat)
      requires Valid()
      modifies this`counter
      ensures Valid() && counter == (if old(counter) < seqno then seqno else old(counter))
      ensures View() == old(View()).(counter := counter)
    {
      hide List.Valid;
      counter := if counter < seqno then seqno else counter;
    }
  }

  lemma InsertedQueue(items: seq<Pointer>, memory: Memory<Entry>, brk: Pointer, e: Entry)
    requires Points(items, memory) && NoRepeats(items) && brk !in memory
    ensures var after := memory[brk := e];
            var more := Insert(At(SeqnoOf, after), items, brk);
            && Points(more, after) && NoRepeats(more)
            && Contents(more, after) == Insert(SeqnoOf, Contents(items, memory), e)
  {
    hide Insert;
    var after := memory[brk := e];
    ContentsElsewhere(items, memory, after);
    ContentsInserted(SeqnoOf, items, after, brk);
    InsertContents(At(SeqnoOf, after), items, brk);
    var more := Insert(At(SeqnoOf, after), items, brk);
    assert multiset(more) == multiset(items + [brk]);
    NoRepeatsContents(items + [brk], more);
  }

  lemma NothingRestored(store: Store)
    ensures InsertAll(SeqnoOf, Entries(store, [])) == [] && MaxSeqno(Entries(store, [])) == 0
  {
  }

  lemma EntriesGrow(store: Store, keys: seq<string>, k: string)
    requires (forall i :: 0 <= i < |keys| ==> keys[i] in store) && k in store
    ensures !IsQueueKey(k) ==> Entries(store, keys + [k]) == Entries(store, keys)
    ensures IsQueueKey(k) ==>
              var es, e := Entries(store, keys), Entry(KeySeqno(k), store[k]);
              && Entries(store, keys + [k]) == es + [e]
              && InsertAll(SeqnoOf, es + [e]) == Insert(SeqnoOf, InsertAll(SeqnoOf, es), e)
              && MaxSeqno(es + [e]) == if MaxSeqno(es) < e.seqno then e.seqno else MaxSeqno(es)
  {
    hide IsQueueKey, KeySeqno, Insert;
    assert (keys + [k])[..|keys|] == keys;
    var es, e := Entries(store, keys), Entry(KeySeqno(k), store[k]);
    assert (es + [e])[..|es|] == es;
  }
}
