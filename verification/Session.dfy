/**
  The QoS 1 and QoS 2 exchanges of MQTTProtocolClient.c together with the records that
  MQTTPacket.c writes as packets pass and MQTTPersistence.c reads back after a restart.

  One step of the client is a list of micro-actions (store writes, packets handed to the socket,
  deliveries) followed by the update of the in-memory lists.  A crash may come after any
  micro-action: it keeps the store, loses the lists, and is followed by
  MQTTPersistence_restorePackets.
*/
module Session {
  import opened MessageIds
  import opened Sequences
  import opened SortedInsert
  import opened RestoreOrder
  import opened Wire
  import opened Properties

  // ---------- data ----------

  datatype Stem = Sent | Rel | Received

  /** A record's key: "s-", "sc-" and "r-", or "s5-", "sc5-" and "r5-", followed by the message id. */
  datatype Key = Key(stem: Stem, v5: bool, id: int)

  datatype Publication = Publication(topic: seq<byte>, payload: seq<byte>, properties: seq<Property>)

  const DISCARDED := Publication([], [], [])

  datatype Message = Message(id: int, qos: int, retain: bool, body: Publication)

  datatype Record = PublishRecord(msg: Message, dup: bool) | PubrelRecord(id: int)

  datatype Next = Unset | AwaitPubrec | AwaitPubrel | AwaitPubcomp

  /** An element of outboundMsgs or inboundMsgs with its nextMessageType. */
  datatype Flight = Flight(msg: Message, next: Next)

  type Store = map<Key, Record>

  datatype Session = Session(v5: bool, outbound: seq<Flight>, inbound: seq<Flight>, store: Store)

  datatype Ack = Puback | Pubrec | Pubcomp

  datatype Action =
    | Put(key: Key, record: Record)
    | Remove(key: Key)
    | Discard(key: Key)
    | SendPublish(id: int, dup: bool)
    | SendPubrel(id: int)
    | SendAck(ack: Ack, id: int)
    | Deliver(msg: Message)
    | Open(id: int)

  datatype Event =
    | Publish(m: Message)
    | PubackIn(id: int)
    | PubrecIn(id: int, error: bool)
    | PubcompIn(id: int)
    | Retry(due: seq<bool>)
    | PublishIn(m: Message, dup: bool, writable: bool)
    | PubrelIn(id: int, dup: bool, writable: bool)
    | Clean(keys: seq<Key>)
    | Restart(keys: seq<Key>)

  /** What one step does: its micro-actions in order, and the lists in memory when it is over. */
  datatype Outcome = Outcome(actions: seq<Action>, outbound: seq<Flight>, inbound: seq<Flight>)

  // ---------- list helpers ----------

  const IdOf: Flight -> int := (f: Flight) => f.msg.id

  /** ListFindItem with messageIDCompare. */
  function IndexOf(list: seq<Flight>, id: int): (r: int)
    ensures -1 <= r < |list|
    ensures r >= 0 ==> list[r].msg.id == id
    ensures r < 0 ==> forall i :: 0 <= i < |list| ==> list[i].msg.id != id
  {
    if list == [] then -1
    else if list[0].msg.id == id then 0
    else
      var r := IndexOf(list[1..], id);
      assert r < 0 ==> forall i :: 1 <= i < |list| ==> list[i] == list[1..][i - 1];
      if r < 0 then -1 else r + 1
  }

  // ---------- the handlers ----------

  function InitialNext(qos: int): Next {
    if qos == 2 then AwaitPubrec else Unset
  }

  /** MQTTProtocol_startPublish with the put in MQTTPacket_sends, for QoS 1 and 2. */
  function StartPublish(s: Session, m: Message): Outcome {
    Outcome([Put(Key(Sent, s.v5, m.id), PublishRecord(m, false)), SendPublish(m.id, false)],
            s.outbound + [Flight(m, InitialNext(m.qos))], s.inbound)
  }

  /** The four premove calls of MQTTPersistence_remove for a sent message. */
  function RemoveSent(id: int): seq<Action> {
    [Remove(Key(Sent, true, id)), Remove(Key(Rel, true, id)), Remove(Key(Sent, false, id)), Remove(Key(Rel, false, id))]
  }

  function RemoveReceived(id: int): seq<Action> {
    [Remove(Key(Received, true, id)), Remove(Key(Received, false, id))]
  }

  function HandlePuback(s: Session, id: int): Outcome {
    var i := IndexOf(s.outbound, id);
    if i < 0 || s.outbound[i].msg.qos != 1 then Outcome([], s.outbound, s.inbound)
    else Outcome(RemoveSent(id), Without(s.outbound, i), s.inbound)
  }

  /** error: the packet is version 5 and its reason code is at least 0x80. */
  function HandlePubrec(s: Session, id: int, error: bool): Outcome {
    var i := IndexOf(s.outbound, id);
    if i < 0 || s.outbound[i].msg.qos != 2 || s.outbound[i].next != AwaitPubrec then Outcome([], s.outbound, s.inbound)
    else if s.v5 && error then Outcome(RemoveSent(id), Without(s.outbound, i), s.inbound)
    else Outcome([Put(Key(Rel, s.v5, id), PubrelRecord(id)), SendPubrel(id)],
                 s.outbound[i := s.outbound[i].(next := AwaitPubcomp)], s.inbound)
  }

  function HandlePubcomp(s: Session, id: int): Outcome {
    var i := IndexOf(s.outbound, id);
    if i < 0 || s.outbound[i].msg.qos != 2 || s.outbound[i].next != AwaitPubcomp then Outcome([], s.outbound, s.inbound)
    else Outcome(RemoveSent(id), Without(s.outbound, i), s.inbound)
  }

  /** MQTTProtocol_retries on one outbound message. */
  function Resend(v5: bool, f: Flight): seq<Action> {
    if f.msg.qos == 1 || (f.msg.qos == 2 && f.next == AwaitPubrec) then
      [Put(Key(Sent, v5, f.msg.id), PublishRecord(f.msg, true)), SendPublish(f.msg.id, true)]
    else if f.msg.qos != 0 && f.next == AwaitPubcomp then
      [Put(Key(Rel, v5, f.msg.id), PubrelRecord(f.msg.id)), SendPubrel(f.msg.id)]
    else []
  }

  /** The messages a pass over the list re-sends: it gets as far as due, which tells for each element whether
      its retry interval is over (on reconnect every element is due). */
  function Selected(list: seq<Flight>, due: seq<bool>): seq<Flight>
    requires |due| <= |list|
  {
    if due == [] then []
    else
      var n := |due| - 1;
      Selected(list, due[..n]) + if due[n] then [list[n]] else []
  }

  function ResendAll(v5: bool, list: seq<Flight>): seq<Action> {
    if list == [] then [] else ResendAll(v5, list[..|list| - 1]) + Resend(v5, list[|list| - 1])
  }

  /** The list entry made for a QoS 2 PUBLISH; version 5 hands the contents over at once and keeps only the id. */
  function Incoming(v5: bool, m: Message, known: bool): Flight {
    Flight(if v5 && !known then m.(body := DISCARDED) else m, AwaitPubrel)
  }

  /** MQTTPacket_Factory's put for QoS 2, then MQTTProtocol_handlePublishes.
      writable: Socket_noPendingWrites holds. */
  function HandlePublish(s: Session, m: Message, dup: bool, writable: bool): Outcome {
    if m.qos == 0 then Outcome([Deliver(m)], s.outbound, s.inbound)
    else if m.qos == 1 then
      Outcome(if writable then [SendAck(Puback, m.id), Deliver(m)] else [], s.outbound, s.inbound)
    else if m.qos != 2 then Outcome([], s.outbound, s.inbound)
    else
      var record := [Put(Key(Received, s.v5, m.id), PublishRecord(m, dup))];
      var i := IndexOf(s.inbound, m.id);
      if !writable then Outcome(record, s.outbound, s.inbound)
      else if i >= 0 then
        Outcome(record + [SendAck(Pubrec, m.id)], s.outbound, s.inbound[i := Incoming(s.v5, m, true)])
      else
        Outcome(record + [Open(m.id), SendAck(Pubrec, m.id)] + (if s.v5 then [Deliver(m)] else []),
                s.outbound, s.inbound + [Incoming(s.v5, m, false)])
  }

  function HandlePubrel(s: Session, id: int, dup: bool, writable: bool): Outcome {
    var i := IndexOf(s.inbound, id);
    if i < 0 then
      Outcome(if dup && writable then [SendAck(Pubcomp, id)] else [], s.outbound, s.inbound)
    else if s.inbound[i].msg.qos != 2 || s.inbound[i].next != AwaitPubrel || !writable then
      Outcome([], s.outbound, s.inbound)
    else
      Outcome([SendAck(Pubcomp, id)] + (if s.v5 then [] else [Deliver(s.inbound[i].msg)])
              + RemoveReceived(id),
              s.outbound, Without(s.inbound, i))
  }

  // ---------- the end of a session ----------

  function DiscardAll(keys: seq<Key>): (r: seq<Action>)
    ensures |r| == |keys| && forall i :: 0 <= i < |keys| ==> r[i] == Discard(keys[i])
  {
    seq(|keys|, i requires 0 <= i < |keys| => Discard(keys[i]))
  }

  /** MQTTAsync_cleanSession: the records go in the order in which the store lists them, then the lists. */
  function CleanSession(keys: seq<Key>): Outcome {
    Outcome(DiscardAll(keys), [], [])
  }

  // ---------- recovery ----------

  /** nextMessageType of a restored message: decided by the presence of the PUBREL record. */
  function RestoredNext(v5: bool, store: Store, m: Message): Next {
    if Key(Rel, v5, m.id) in store then AwaitPubcomp else InitialNext(m.qos)
  }

  function SentFlight(v5: bool, store: Store, m: Message): Flight {
    Flight(m, RestoredNext(v5, store, m))
  }

  function ReceivedFlight(v5: bool, m: Message): Flight {
    Flight(if v5 then m.(body := DISCARDED) else m, AwaitPubrel)
  }

  /** MQTTPersistence_restorePackets on one key. */
  function RestoreKey(v5: bool, o: Outcome, store: Store, key: Key): Outcome
    requires key in store
  {
    match key.stem
    case Received =>
      if !store[key].PublishRecord? then o
      else
        o.(inbound := o.inbound + [ReceivedFlight(v5, store[key].msg)])
    case Sent =>
      if !store[key].PublishRecord? then o
      else
        o.(outbound := Insert(IdOf, o.outbound, SentFlight(v5, store, store[key].msg)))
    case Rel =>
      if !store[key].PubrelRecord? || Key(Sent, v5, store[key].id) in store then o
      else o.(actions := o.actions + [Remove(key)])
  }

  /** The loop over the keys; the store consulted on the way is the one left by the removals so far. */
  function RestoreKeys(v5: bool, store: Store, keys: seq<Key>): (o: Outcome)
    requires forall k :: k in keys ==> k in store
  {
    if keys == [] then Outcome([], [], [])
    else
      var o := RestoreKeys(v5, store, keys[..|keys| - 1]);
      var key := keys[|keys| - 1];
      var now := Apply(store, o.actions);
      if key in now then RestoreKey(v5, o, now, key) else o
  }

  function RestorePackets(v5: bool, store: Store, keys: seq<Key>): Outcome
    requires forall k :: k in keys ==> k in store
  {
    var o := RestoreKeys(v5, store, keys);
    o.(outbound := Wrap(IdOf, o.outbound))
  }

  // ---------- steps ----------

  function ApplyOne(store: Store, a: Action): Store {
    match a
    case Put(k, r) => store[k := r]
    case Remove(k) => store - {k}
    case Discard(k) => store - {k}
    case _ => store
  }

  function Apply(store: Store, actions: seq<Action>): Store
    decreases |actions|
  {
    if actions == [] then store
    else Apply(ApplyOne(store, actions[0]), actions[1..])
  }

  ghost predicate Lists(keys: seq<Key>, store: Store) {
    && (forall k :: k in keys <==> k in store)
    && (forall i, j :: 0 <= i < j < |keys| ==> keys[i] != keys[j])
  }

  /** What the callers guarantee: message ids come from the id search, which skips ids in flight. */
  ghost predicate Enabled(s: Session, e: Event) {
    match e
    case Publish(m) => 1 <= m.id <= MAX_MSG_ID && 1 <= m.qos <= 2 && IndexOf(s.outbound, m.id) < 0
    case PublishIn(m, _, _) => 0 <= m.qos <= 3 && (m.qos > 0 ==> 0 <= m.id <= MAX_MSG_ID)
    case Retry(due) => |due| <= |s.outbound|
    case Clean(keys) => Lists(keys, s.store)
    case Restart(keys) => Lists(keys, s.store)
    case _ => true
  }

  ghost function Handle(s: Session, e: Event): Outcome
    requires Enabled(s, e)
  {
    match e
    case Publish(m) => StartPublish(s, m)
    case PubackIn(id) => HandlePuback(s, id)
    case PubrecIn(id, error) => HandlePubrec(s, id, error)
    case PubcompIn(id) => HandlePubcomp(s, id)
    case Retry(due) => Outcome(ResendAll(s.v5, Selected(s.outbound, due)), s.outbound, s.inbound)
    case PublishIn(m, dup, writable) => HandlePublish(s, m, dup, writable)
    case PubrelIn(id, dup, writable) => HandlePubrel(s, id, dup, writable)
    case Clean(keys) => CleanSession(keys)
    case Restart(keys) => RestorePackets(s.v5, s.store, keys)
  }

  ghost function Step(s: Session, e: Event): Session
    requires Enabled(s, e)
  {
    var o := Handle(s, e);
    Session(s.v5, o.outbound, o.inbound, Apply(s.store, o.actions))
  }
}
