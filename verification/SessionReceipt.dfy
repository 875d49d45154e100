/** Inbound QoS 2: every exchange is opened once, completed once and delivered once. */
module SessionReceipt {
  import opened Sequences
  import opened SortedInsert
  import opened Session
  import opened SessionInvariant
  import opened SessionRuns

  /** A QoS 2 exchange is opened by its PUBLISH and completed when its PUBREL erases its record.  Delivery is
      that of a QoS 2 message, Handing that of a message of a given QoS, Handed that of one message. */
  datatype What =
    | Opening | Completion(v5: bool) | Delivery
    | Answer(ack: Ack) | Handing(qos: int) | Handed(m: Message)

  predicate InExchange(w: What) {
    w.Opening? || w.Completion? || w.Delivery?
  }

  predicate Hit(a: Action, w: What, id: int) {
    match w
    case Opening => a == Open(id)
    case Completion(v5) => a == Remove(Key(Received, v5, id))
    case Delivery => a.Deliver? && a.msg.id == id && a.msg.qos == 2
    case Answer(ack) => a == SendAck(ack, id)
    case Handing(qos) => a.Deliver? && a.msg.id == id && a.msg.qos == qos
    case Handed(m) => a == Deliver(m)
  }

  /** How often an exchange for id was opened, completed or delivered in a trace. */
  function Count(trace: seq<Action>, w: What, id: int): nat {
    if trace == [] then 0 else (if Hit(trace[0], w, id) then 1 else 0) + Count(trace[1..], w, id)
  }

  lemma {:induction false} CountConcat(a: seq<Action>, b: seq<Action>, w: What, id: int)
    ensures Count(a + b, w, id) == Count(a, w, id) + Count(b, w, id)
  {
    if a == [] {
      assert a + b == b;
    } else {
      assert (a + b)[0] == a[0] && (a + b)[1..] == a[1..] + b;
      CountConcat(a[1..], b, w, id);
    }
  }

  lemma {:induction false} CountNone(a: seq<Action>, w: What, id: int)
    requires forall i :: 0 <= i < |a| ==> !Hit(a[i], w, id)
    ensures Count(a, w, id) == 0
  {
    if a != [] {
      CountNone(a[1..], w, id);
    }
  }

  /** Exactly one of the actions is a hit. */
  lemma CountOnce(a: seq<Action>, k: nat, w: What, id: int)
    requires k < |a| && Hit(a[k], w, id)
    requires forall i :: 0 <= i < |a| && i != k ==> !Hit(a[i], w, id)
    ensures Count(a, w, id) == 1
  {
    assert a == a[..k] + a[k..];
    CountConcat(a[..k], a[k..], w, id);
    CountNone(a[..k], w, id);
    CountNone(a[k..][1..], w, id);
  }

  function Known(s: Session, id: int): int {
    if IndexOf(s.inbound, id) >= 0 then 1 else 0
  }

  lemma {:induction false} ResendAllCount(v5: bool, list: seq<Flight>, w: What, id: int)
    ensures Count(ResendAll(v5, list), w, id) == 0
  {
    if list != [] {
      ResendAllCount(v5, list[..|list| - 1], w, id);
      CountNone(Resend(v5, list[|list| - 1]), w, id);
      CountConcat(ResendAll(v5, list[..|list| - 1]), Resend(v5, list[|list| - 1]), w, id);
    }
  }

  /** A PUBLISH opens an exchange when its id is new and the acknowledgement can be written. */
  ghost predicate Opens(s: Session, m: Message, writable: bool) {
    m.qos == 2 && writable && IndexOf(s.inbound, m.id) < 0
  }

  /** Where there is at most one hit, a prefix has it when it is long enough. */
  lemma CountAt(a: seq<Action>, n: nat, k: nat, w: What, id: int)
    requires n <= |a| && forall i :: 0 <= i < |a| && Hit(a[i], w, id) ==> i == k
    ensures Count(a[..n], w, id) == if k < n && Hit(a[k], w, id) then 1 else 0
  {
    hide Hit, Count;
    if k < n && Hit(a[k], w, id) {
      CountOnce(a[..n], k, w, id);
    } else {
      CountNone(a[..n], w, id);
    }
  }

  /** The first n actions of a PUBLISH. */
  lemma PublishInCount(s: Session, m: Message, dup: bool, writable: bool, n: nat, w: What, id: int)
    requires n <= |HandlePublish(s, m, dup, writable).actions| && InExchange(w)
    ensures Count(HandlePublish(s, m, dup, writable).actions[..n], w, id)
         == if Opens(s, m, writable) && m.id == id && ((w == Opening && n > 1) || (w == Delivery && s.v5 && n > 3))
            then 1 else 0
  {
    hide HandlePublish, Hit, Count, Opens;
    PublishInHits(s, m, dup, writable, w, id);
    CountAt(HandlePublish(s, m, dup, writable).actions, n, if w == Opening then 1 else 3, w, id);
  }

  lemma PublishInHits(s: Session, m: Message, dup: bool, writable: bool, w: What, id: int)
    requires InExchange(w)
    ensures var a, k := HandlePublish(s, m, dup, writable).actions, if w == Opening then 1 else 3;
            && (forall i :: 0 <= i < |a| && Hit(a[i], w, id) ==> i == k)
            && (k < |a| && Hit(a[k], w, id) <==>
                  Opens(s, m, writable) && m.id == id && (w == Opening || (w == Delivery && s.v5)))
  {
    hide IndexOf, Incoming;
  }

  /** What a PUBREL for a known id does: the acknowledgement, the delivery before version 5, the erasure. */
  function Completing(v5: bool, m: Message): seq<Action> {
    [SendAck(Pubcomp, m.id)] + (if v5 then [] else [Deliver(m)]) + RemoveReceived(m.id)
  }

  /** Where in these actions the record of the client's version goes. */
  function ErasedAt(v5: bool): nat {
    if v5 then 1 else 3
  }

  /** The first n of them. */
  lemma CompletingCount(v5: bool, m: Message, n: nat, w: What, id: int)
    requires m.qos == 2 && n <= |Completing(v5, m)| && InExchange(w)
    requires w.Completion? ==> w.v5 == v5
    ensures Count(Completing(v5, m)[..n], w, id)
         == if m.id == id && ((w.Completion? && n > ErasedAt(v5)) || (w == Delivery && !v5 && n > 1)) then 1 else 0
  {
    var a := if v5
      then [SendAck(Pubcomp, m.id), Remove(Key(Received, true, m.id)), Remove(Key(Received, false, m.id))]
      else [SendAck(Pubcomp, m.id), Deliver(m), Remove(Key(Received, true, m.id)), Remove(Key(Received, false, m.id))];
    assert a == Completing(v5, m);
    if m.id == id && w.Completion? && n > ErasedAt(v5) {
      CountOnce(a[..n], ErasedAt(v5), w, id);
    } else if m.id == id && w == Delivery && !v5 && n > 1 {
      CountOnce(a[..n], 1, w, id);
    } else {
      CountNone(a[..n], w, id);
    }
  }

  /** The PUBREL finds its exchange and can be answered. */
  ghost predicate Completes(s: Session, id: int, writable: bool) {
    writable && IndexOf(s.inbound, id) >= 0
  }

  lemma PubrelInCount(s: Session, i: int, dup: bool, writable: bool, n: nat, w: What, id: int)
    requires InboundMatches(s) && n <= |HandlePubrel(s, i, dup, writable).actions| && InExchange(w)
    requires w.Completion? ==> w.v5 == s.v5
    ensures Count(HandlePubrel(s, i, dup, writable).actions[..n], w, id)
         == if Completes(s, i, writable) && i == id
               && ((w.Completion? && n > ErasedAt(s.v5)) || (w == Delivery && !s.v5 && n > 1)) then 1 else 0
  {
    var j := IndexOf(s.inbound, i);
    if Completes(s, i, writable) {
      CompletingCount(s.v5, s.inbound[j].msg, n, w, id);
    } else {
      CountNone(HandlePubrel(s, i, dup, writable).actions[..n], w, id);
    }
  }

  lemma KnownAfterPublish(s: Session, m: Message, dup: bool, writable: bool, id: int)
    ensures var list := HandlePublish(s, m, dup, writable).inbound;
            IndexOf(list, id) >= 0 <==>
              IndexOf(s.inbound, id) >= 0 || (m.qos == 2 && writable && m.id == id)
  {
    var list := HandlePublish(s, m, dup, writable).inbound;
    if IndexOf(s.inbound, id) >= 0 {
      assert list[IndexOf(s.inbound, id)].msg.id == id;
    }
    if IndexOf(list, id) >= 0 && IndexOf(list, id) < |s.inbound| {
      assert s.inbound[IndexOf(list, id)].msg.id == id || m.id == id;
    }
    if m.qos == 2 && writable && m.id == id && IndexOf(s.inbound, id) < 0 {
      assert list[|s.inbound|].msg.id == id;
    }
  }

  lemma KnownAfterRemoval(list: seq<Flight>, i: nat, id: int)
    requires DistinctKeys(IdOf, list) && i < |list|
    ensures IndexOf(Without(list, i), id) >= 0 <==> IndexOf(list, id) >= 0 && list[i].msg.id != id
  {
    var t := Without(list, i);
    if IndexOf(t, id) >= 0 {
      var j := IndexOf(t, id);
      var j' := if j < i then j else j + 1;
      assert t[j] == list[j'];
      assert IdOf(list[j']) != IdOf(list[i]);
    }
    if IndexOf(list, id) >= 0 && list[i].msg.id != id {
      var j := IndexOf(list, id);
      assert t[if j < i then j else j - 1] == list[j];
    }
  }

  // ---------- the other steps ----------

  lemma AckCount(s: Session, e: Event, w: What, id: int)
    requires e.PubackIn? || e.PubrecIn? || e.PubcompIn?
    ensures Count(Handle(s, e).actions, w, id) == 0
  {
    CountNone(RemoveSent(e.id), w, id);
    CountNone([Put(Key(Rel, s.v5, e.id), PubrelRecord(e.id)), SendPubrel(e.id)], w, id);
  }

  lemma {:induction false} SweepCount(v5: bool, store: Store, keys: seq<Key>, w: What, id: int)
    requires forall k :: k in keys ==> k in store
    ensures Count(RestoreKeys(v5, store, keys).actions, w, id) == 0
  {
    hide Apply, Insert;
    if keys != [] {
      var init, key := keys[..|keys| - 1], keys[|keys| - 1];
      SweepCount(v5, store, init, w, id);
      var o := RestoreKeys(v5, store, init);
      if key.stem == Rel {
        CountNone([Remove(key)], w, id);
        CountConcat(o.actions, [Remove(key)], w, id);
      }
    }
  }

  lemma CountPrefix(a: seq<Action>, n: nat, w: What, id: int)
    requires n <= |a|
    ensures Count(a[..n], w, id) <= Count(a, w, id)
  {
    assert a == a[..n] + a[n..];
    CountConcat(a[..n], a[n..], w, id);
  }

  lemma OtherCount(s: Session, e: Event, n: nat, w: What, id: int)
    requires Enabled(s, e) && !e.PublishIn? && !e.PubrelIn? && n <= |Handle(s, e).actions|
    ensures Count(Handle(s, e).actions[..n], w, id) == 0
  {
    hide Count, IndexOf, ResendAll, RestoreKeys;
    CountPrefix(Handle(s, e).actions, n, w, id);
    match e
    case Publish(m) =>
      CountNone([Put(Key(Sent, s.v5, m.id), PublishRecord(m, false)), SendPublish(m.id, false)], w, id);
    case Retry(due) => ResendAllCount(s.v5, Selected(s.outbound, due), w, id);
    case Clean(keys) => CountNone(DiscardAll(keys), w, id);
    case Restart(keys) => SweepCount(s.v5, s.store, keys, w, id);
    case _ => AckCount(s, e, w, id);
  }

  // ---------- whole steps ----------

  /** The session is cleaned while the exchange is open: it is neither completed nor known any more. */
  function GivenUp(s: Session, e: Event, id: int): int {
    if e.Clean? then Known(s, id) else 0
  }

  /** Every step other than a restart keeps the books. */
  ghost predicate Balanced(s: Session, t: Session, a: seq<Action>, id: int, gone: int) {
    && Count(a, Opening, id) - Count(a, Completion(s.v5), id) == Known(t, id) - Known(s, id) + gone
    && Count(a, Delivery, id) == Count(a, if s.v5 then Opening else Completion(false), id)
  }

  lemma PublishInBalanced(s: Session, m: Message, dup: bool, writable: bool, t: Session, id: int)
    requires t.inbound == HandlePublish(s, m, dup, writable).inbound
    ensures Balanced(s, t, HandlePublish(s, m, dup, writable).actions, id, 0)
  {
    hide Count;
    var a := HandlePublish(s, m, dup, writable).actions;
    assert a[..|a|] == a;
    PublishInCount(s, m, dup, writable, |a|, Opening, id);
    PublishInCount(s, m, dup, writable, |a|, Completion(s.v5), id);
    PublishInCount(s, m, dup, writable, |a|, Delivery, id);
    KnownAfterPublish(s, m, dup, writable, id);
  }

  lemma PubrelInBalanced(s: Session, i: int, dup: bool, writable: bool, t: Session, id: int)
    requires InboundMatches(s) && t.inbound == HandlePubrel(s, i, dup, writable).inbound
    ensures Balanced(s, t, HandlePubrel(s, i, dup, writable).actions, id, 0)
  {
    hide *;
    WholePubrelCounts(s, i, dup, writable, id);
    KnownAfterPubrel(s, i, dup, writable, t, id);
    PubrelAdds(s, t, HandlePubrel(s, i, dup, writable).actions, id, Completes(s, i, writable) && i == id);
  }

  lemma PubrelAdds(s: Session, t: Session, a: seq<Action>, id: int, done: bool)
    requires Count(a, Opening, id) == 0 && Count(a, Completion(s.v5), id) == if done then 1 else 0
    requires Count(a, Delivery, id) == if done && !s.v5 then 1 else 0
    requires Known(t, id) == Known(s, id) - if done then 1 else 0
    ensures Balanced(s, t, a, id, 0)
  {
    hide Count, Known;
  }

  lemma WholePubrelCounts(s: Session, i: int, dup: bool, writable: bool, id: int)
    requires InboundMatches(s)
    ensures var a, done := HandlePubrel(s, i, dup, writable).actions, Completes(s, i, writable) && i == id;
            && Count(a, Opening, id) == 0 && Count(a, Completion(s.v5), id) == (if done then 1 else 0)
            && Count(a, Delivery, id) == if done && !s.v5 then 1 else 0
  {
    hide Count, HandlePubrel, InboundMatches, IndexOf, Completes, Without;
    PubrelShape(s, i, dup, writable);
    var a := HandlePubrel(s, i, dup, writable).actions;
    assert a[..|a|] == a;
    PubrelInCount(s, i, dup, writable, |a|, Opening, id);
    PubrelInCount(s, i, dup, writable, |a|, Completion(s.v5), id);
    PubrelInCount(s, i, dup, writable, |a|, Delivery, id);
  }

  lemma KnownAfterPubrel(s: Session, i: int, dup: bool, writable: bool, t: Session, id: int)
    requires InboundMatches(s) && t.inbound == HandlePubrel(s, i, dup, writable).inbound
    ensures Known(t, id) == Known(s, id) - if Completes(s, i, writable) && i == id then 1 else 0
  {
    PubrelShape(s, i, dup, writable);
    hide HandlePubrel, Without;
    if Completes(s, i, writable) {
      KnownAfterRemoval(s.inbound, IndexOf(s.inbound, i), id);
    }
  }

  lemma PubrelShape(s: Session, i: int, dup: bool, writable: bool)
    requires InboundMatches(s)
    ensures var o := HandlePubrel(s, i, dup, writable);
            && (Completes(s, i, writable) ==>
                  |o.actions| == ErasedAt(s.v5) + (if s.v5 then 2 else 1)
                  && o.inbound == Without(s.inbound, IndexOf(s.inbound, i)))
            && (!Completes(s, i, writable) ==> o.inbound == s.inbound)
  {
  }

  lemma StepBalanced(s: Session, e: Event, id: int)
    requires Inv(s) && Enabled(s, e) && !e.Restart?
    ensures Balanced(s, Step(s, e), Handle(s, e).actions, id, GivenUp(s, e, id))
  {
    hide Count, OutboundMatches, NoOrphans, StoreOk, IndexOf;
    if e.PublishIn? {
      PublishInBalanced(s, e.m, e.dup, e.writable, Step(s, e), id);
    } else if e.PubrelIn? {
      PubrelInBalanced(s, e.id, e.dup, e.writable, Step(s, e), id);
    } else {
      var a := Handle(s, e).actions;
      assert a[..|a|] == a;
      OtherCount(s, e, |a|, Opening, id);
      OtherCount(s, e, |a|, Completion(s.v5), id);
      OtherCount(s, e, |a|, Delivery, id);
    }
  }

  /** How often the exchange was given up in a run. */
  ghost function GivenUpIn(s: Session, moves: seq<Move>, id: int): int
    requires CanRun(s, moves)
    decreases |moves|
  {
    if moves == [] then 0
    else GivenUp(s, moves[0].e, id) + GivenUpIn(MoveSession(s, moves[0]), moves[1..], id)
  }

  ghost predicate Books(w: World, id: int, gone: int) {
    && Count(w.trace, Opening, id) - Count(w.trace, Completion(w.s.v5), id) == Known(w.s, id) + gone
    && Count(w.trace, Delivery, id) == Count(w.trace, if w.s.v5 then Opening else Completion(false), id)
  }

  lemma MoveBooks(w: World, e: Event, id: int, gone: int)
    requires Inv(w.s) && Enabled(w.s, e) && !e.Restart? && Books(w, id, gone)
    ensures Books(After(w, Whole(e)), id, gone + GivenUp(w.s, e, id))
  {
    hide Count, OutboundMatches, NoOrphans, StoreOk, InboundMatches;
    var a := Handle(w.s, e).actions;
    StepBalanced(w.s, e, id);
    CountConcat(w.trace, a, Opening, id);
    CountConcat(w.trace, a, Completion(w.s.v5), id);
    CountConcat(w.trace, a, Delivery, id);
  }

  lemma {:induction false} BalancedRun(w: World, moves: seq<Move>, id: int, gone: int)
    requires Inv(w.s) && CanRun(w.s, moves) && Books(w, id, gone)
    requires forall i :: 0 <= i < |moves| ==> moves[i].Whole? && !moves[i].e.Restart?
    ensures Books(Run(w, moves), id, gone + GivenUpIn(w.s, moves, id)) && Run(w, moves).s.v5 == w.s.v5
    decreases |moves|
  {
    hide Inv, Books, GivenUp;
    if moves != [] {
      MoveKeeps(w.s, moves[0]);
      MoveBooks(w, moves[0].e, id, gone);
      BalancedRun(After(w, moves[0]), moves[1..], id, gone + GivenUp(w.s, moves[0].e, id));
    }
  }

  /**
    QoS 2 receipt, section 4.3.3 of MQTT 3.1.1: over any run of packets, with duplicates and refused
    writes, exchanges opened for an id minus those completed, and minus those given up when the
    session was cleaned, is one exactly when the id is in inboundMsgs and none otherwise;
    deliveries equal completions before version 5 and openings in version 5, so no exchange is
    delivered twice.
  */
  lemma ReceiptIsExactlyOnce(v5: bool, moves: seq<Move>, id: int)
    requires CanRun(Fresh(v5).s, moves)
    requires forall i :: 0 <= i < |moves| ==> moves[i].Whole? && !moves[i].e.Restart?
    ensures var w := Run(Fresh(v5), moves);
            && Count(w.trace, Opening, id) - Count(w.trace, Completion(v5), id) - GivenUpIn(Fresh(v5).s, moves, id)
               == (if IndexOf(w.s.inbound, id) >= 0 then 1 else 0)
            && Count(w.trace, Delivery, id) == Count(w.trace, if v5 then Opening else Completion(false), id)
  {
    hide Count, CanRun, Run, GivenUpIn, Inv;
    FreshInv(v5);
    FreshBooks(v5, id);
    BalancedRun(Fresh(v5), moves, id, 0);
  }

  lemma FreshBooks(v5: bool, id: int)
    ensures Books(Fresh(v5), id, 0)
  {
  }
}
