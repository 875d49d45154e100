/**
  Runs of the client down to the bytes it writes: what a restart makes of the packets and text keys
  in the store after any run.
*/
module StoreRuns {
  import opened MessageIds
  import opened SortedInsert
  import opened RestoreOrder
  import opened Wire
  import opened Properties
  import opened PublishPacket
  import opened Session
  import opened SessionInvariant
  import opened SessionSteps
  import opened SessionRuns
  import opened StoreBytes

  // ---------- what the client writes ----------

  /** The store in bytes after some actions; data holds what was written at each Put. */
  ghost function ApplyBytes(bytes: ByteStore, actions: seq<Action>, data: seq<seq<byte>>): ByteStore
    requires |data| == |actions|
    decreases |actions|
  {
    if actions == [] then bytes
    else
      var n := |actions| - 1;
      var before := ApplyBytes(bytes, actions[..n], data[..n]);
      match actions[n]
      case Put(k, _) => if k.id < 0 then before else before[StoreBytes.Text(k) := data[n]]
      case Remove(k) => if k.id < 0 then before else before - {StoreBytes.Text(k)}
      case Discard(k) => if k.id < 0 then before else before - {StoreBytes.Text(k)}
      case _ => before
  }

  /** Every record was written as bytes that are read back as it. */
  ghost predicate WrittenWell(v5: bool, actions: seq<Action>, data: seq<seq<byte>>) {
    |data| == |actions|
    && forall i :: 0 <= i < |actions| && actions[i].Put? ==>
                     actions[i].key.id >= 0 && Decodes(v5, actions[i].record, data[i])
  }

  lemma {:induction false} BytesInStep(v5: bool, actions: seq<Action>, data: seq<seq<byte>>)
    requires WrittenWell(v5, actions, data)
    ensures Encodes(v5, Apply(map[], actions), ApplyBytes(map[], actions, data))
    decreases |actions|
  {
    hide StoreBytes.Text, Decodes, Encodes, Apply;
    if actions == [] {
      NothingWritten(v5);
    } else {
      var n := |actions| - 1;
      var init, a := actions[..n], actions[n];
      BytesInStep(v5, init, data[..n]);
      assert actions == init + [a];
      ApplyConcat(map[], init, [a]);
      var store, bytes := Apply(map[], init), ApplyBytes(map[], init, data[..n]);
      Single(store, a);
      match a
      case Put(k, r) => PutBoth(v5, store, bytes, k, r, data[n]);
      case Remove(k) => RemoveEither(v5, store, bytes, k);
      case Discard(k) => RemoveEither(v5, store, bytes, k);
      case _ =>
    }
  }

  lemma NothingWritten(v5: bool)
    ensures Apply(map[], []) == map[] && Encodes(v5, map[], map[])
  {
  }

  lemma RemoveEither(v5: bool, store: Store, bytes: ByteStore, k: Key)
    requires Encodes(v5, store, bytes)
    ensures Encodes(v5, store - {k}, if k.id < 0 then bytes else bytes - {StoreBytes.Text(k)})
  {
    hide StoreBytes.Text, Decodes;
    if k.id >= 0 {
      RemoveBoth(v5, store, bytes, k);
    } else {
      assert store - {k} == store;
    }
  }

  /** What MQTTPacket_send_publish can carry, of the messages with an id. */
  ghost predicate CanSend(v5: bool, m: Message) {
    1 <= m.id <= MAX_MSG_ID && 1 <= m.qos <= 2 && Sendable(v5, ToPacket(m, false))
  }

  /** The bytes that go into the store with each record: a message as it is sent, a PUBREL as it is sent, a
      received packet as it came. */
  ghost predicate Writing(v5: bool, r: Record, stem: Stem, data: seq<byte>) {
    match r
    case PubrelRecord(id) => 0 <= id < 65536 && data == PubrelBytes(id)
    case PublishRecord(m, dup) =>
      if stem == Received then
        exists header: byte, body: seq<byte> :: Came(v5, header, body, m) && data == StoredPacket(header, body)
      else CanSend(v5, m) ==> data == PublishBytes(v5, ToPacket(m, dup))
  }

  /** The packet was parsed as the message. */
  ghost predicate Came(v5: bool, header: byte, body: seq<byte>, m: Message) {
    && KindOf(header) == PUBLISH && ParsePublish(v5, header, body).Packet?
    && FromPacket(ParsePublish(v5, header, body).value) == m
  }

  ghost predicate Written(v5: bool, actions: seq<Action>, data: seq<seq<byte>>) {
    && |data| == |actions|
    && forall i :: 0 <= i < |actions| && actions[i].Put? ==>
         Writing(v5, actions[i].record, actions[i].key.stem, data[i])
  }

  // ---------- what is read back ----------

  /** The message as it is read back: four-byte properties may have changed. */
  ghost function RereadMessage(m: Message): (r: Message)
    ensures r.id == m.id && r.qos == m.qos && r.retain == m.retain
  {
    if AllWritable(m.body.properties)
    then m.(body := m.body.(properties := RereadAll(m.body.properties)))
    else m
  }

  ghost function RereadRecord(k: Key, r: Record): Record {
    if k.stem == Sent && r.PublishRecord? then PublishRecord(RereadMessage(r.msg), r.dup) else r
  }

  ghost function RereadStore(store: Store): Store {
    map k | k in store :: RereadRecord(k, store[k])
  }

  ghost function RereadAction(a: Action): Action {
    if a.Put? then Put(a.key, RereadRecord(a.key, a.record)) else a
  }

  ghost function RereadActions(actions: seq<Action>): (r: seq<Action>)
    ensures |r| == |actions| && forall i :: 0 <= i < |r| ==> r[i] == RereadAction(actions[i])
  {
    seq(|actions|, i requires 0 <= i < |actions| => RereadAction(actions[i]))
  }

  ghost function RereadFlights(list: seq<Flight>): (r: seq<Flight>)
    ensures |r| == |list|
    ensures forall i :: 0 <= i < |r| ==> r[i] == Flight(RereadMessage(list[i].msg), list[i].next)
  {
    seq(|list|, i requires 0 <= i < |list| => Flight(RereadMessage(list[i].msg), list[i].next))
  }

  lemma {:induction false} RereadApply(store: Store, actions: seq<Action>)
    ensures RereadStore(Apply(store, actions)) == Apply(RereadStore(store), RereadActions(actions))
    decreases |actions|
  {
    hide RereadRecord;
    if actions != [] {
      var a := actions[0];
      assert RereadStore(ApplyOne(store, a)) == ApplyOne(RereadStore(store), RereadAction(a));
      RereadApply(ApplyOne(store, a), actions[1..]);
      assert RereadActions(actions)[1..] == RereadActions(actions[1..]);
    }
  }

  lemma {:induction false} RereadBytes(bytes: ByteStore, actions: seq<Action>, data: seq<seq<byte>>)
    requires |data| == |actions|
    ensures ApplyBytes(bytes, RereadActions(actions), data) == ApplyBytes(bytes, actions, data)
    decreases |actions|
  {
    hide RereadRecord, StoreBytes.Text;
    if actions != [] {
      var n := |actions| - 1;
      assert RereadActions(actions)[..n] == RereadActions(actions[..n]);
      RereadBytes(bytes, actions[..n], data[..n]);
    }
  }

  // ---------- the messages of a run ----------

  /** Every message that the run starts to send can be sent. */
  ghost predicate AllCanSend(v5: bool, moves: seq<Move>) {
    forall i :: 0 <= i < |moves| && moves[i].e.Publish? ==> CanSend(v5, moves[i].e.m)
  }

  predicate PutsSent(a: Action) {
    a.Put? && a.key.stem == Sent && a.record.PublishRecord?
  }

  ghost predicate SendablePuts(v5: bool, actions: seq<Action>) {
    forall i :: 0 <= i < |actions| && PutsSent(actions[i]) ==> CanSend(v5, actions[i].record.msg)
  }

  ghost predicate SendableStore(v5: bool, store: Store) {
    forall k :: k in store && k.stem == Sent && store[k].PublishRecord? ==> CanSend(v5, store[k].msg)
  }

  lemma {:induction false} StoreFromPuts(v5: bool, store: Store, actions: seq<Action>)
    requires SendableStore(v5, store) && SendablePuts(v5, actions)
    ensures SendableStore(v5, Apply(store, actions))
    decreases |actions|
  {
    hide CanSend;
    if actions != [] {
      StoreFromPuts(v5, ApplyOne(store, actions[0]), actions[1..]);
    }
  }

  lemma {:induction false} ResendPuts(v5: bool, list: seq<Flight>)
    requires forall f :: f in list ==> CanSend(v5, f.msg)
    ensures SendablePuts(v5, ResendAll(v5, list))
  {
    hide CanSend;
    if list != [] {
      ResendPuts(v5, list[..|list| - 1]);
    }
  }

  lemma {:induction false} RestorePuts(v5: bool, store: Store, keys: seq<Key>)
    requires forall k :: k in keys ==> k in store
    ensures forall i :: 0 <= i < |RestoreKeys(v5, store, keys).actions| ==>
              !PutsSent(RestoreKeys(v5, store, keys).actions[i])
  {
    hide Apply, Insert;
    if keys != [] {
      RestorePuts(v5, store, keys[..|keys| - 1]);
    }
  }

  lemma OutboundCanSend(s: Session)
    requires OutboundMatches(s) && SendableStore(s.v5, s.store)
    ensures forall f :: f in s.outbound ==> CanSend(s.v5, f.msg)
  {
    hide CanSend;
    forall f | f in s.outbound ensures CanSend(s.v5, f.msg) {
      var i :| 0 <= i < |s.outbound| && s.outbound[i] == f;
      assert Mirrors(s.v5, s.store, s.outbound[i]);
    }
  }

  lemma StepPuts(s: Session, e: Event)
    requires Inv(s) && Enabled(s, e) && SendableStore(s.v5, s.store) && (e.Publish? ==> CanSend(s.v5, e.m))
    ensures SendablePuts(s.v5, Handle(s, e).actions)
  {
    hide CanSend, Mirrors, StoreOk, InboundMatches, NoOrphans, SendableStore, ResendAll, RestoreKeys;
    hide HandlePuback, HandlePubrec, HandlePubcomp, HandlePublish, HandlePubrel;
    match e
    case Retry(due) =>
      OutboundCanSend(s);
      SelectedFrom(s.outbound, due);
      ResendPuts(s.v5, Selected(s.outbound, due));
    case Restart(keys) => RestorePuts(s.v5, s.store, keys);
    case Publish(_) =>
    case Clean(_) =>
    case _ => PacketPuts(s, e);
  }

  /** No packet that comes in makes the client write a PUBLISH of its own. */
  lemma PacketPuts(s: Session, e: Event)
    requires Enabled(s, e) && (e.PubackIn? || e.PubrecIn? || e.PubcompIn? || e.PublishIn? || e.PubrelIn?)
    ensures forall i :: 0 <= i < |Handle(s, e).actions| ==> !PutsSent(Handle(s, e).actions[i])
  {
    hide IndexOf;
  }

  lemma MovePuts(s: Session, mv: Move)
    requires Inv(s) && CanMove(s, mv) && SendableStore(s.v5, s.store) && (mv.e.Publish? ==> CanSend(s.v5, mv.e.m))
    ensures SendablePuts(s.v5, MoveActions(s, mv))
  {
    hide CanSend, Inv, SendableStore, Handle, RestoreKeys, Apply;
    StepPuts(s, mv.e);
    if mv.Torn? {
      RestorePuts(s.v5, Apply(s.store, Handle(s, mv.e).actions[..mv.n]), mv.keys);
    }
  }

  /** The store is what the writes of the trace make of nothing, and every message in it can be sent. */
  ghost predicate Recorded(w: World) {
    w.s.store == Apply(map[], w.trace) && AllPermitted(w.s.v5, map[], w.trace) && SendablePuts(w.s.v5, w.trace)
  }

  lemma {:induction false} RunRecorded(w: World, moves: seq<Move>)
    requires Inv(w.s) && CanRun(w.s, moves) && Recorded(w) && AllCanSend(w.s.v5, moves)
    ensures Recorded(Run(w, moves))
    decreases |moves|
  {
    hide Inv, Apply, MoveActions, MoveSession, CanMove, AllPermitted, CanSend;
    if moves != [] {
      var a := MoveActions(w.s, moves[0]);
      MoveKeeps(w.s, moves[0]);
      SameVersion(w.s, moves[0]);
      ApplyConcat(map[], w.trace, a);
      PermittedConcat(w.s.v5, map[], w.trace, a);
      StoreFromPuts(w.s.v5, map[], w.trace);
      MovePuts(w.s, moves[0]);
      RunRecorded(After(w, moves[0]), moves[1..]);
    }
  }

  // ---------- the bytes are read back as the reread records ----------

  lemma {:induction false} PermittedPut(v5: bool, store: Store, actions: seq<Action>, i: nat)
    requires AllPermitted(v5, store, actions) && i < |actions| && actions[i].Put?
    ensures var a := actions[i];
            && 0 <= a.key.id <= MAX_MSG_ID
            && (a.key.stem == Rel <==> a.record.PubrelRecord?)
    decreases |actions|
  {
    if i > 0 {
      PermittedPut(v5, ApplyOne(store, actions[0]), actions[1..], i - 1);
    }
  }

  lemma SentDecodes(v5: bool, m: Message, dup: bool)
    requires CanSend(v5, m)
    ensures Decodes(v5, PublishRecord(RereadMessage(m), dup), PublishBytes(v5, ToPacket(m, dup)))
  {
    hide PublishBytes, RestorePublish;
    StoreRoundTripIff(v5, ToPacket(m, dup));
  }

  lemma OneDecodes(v5: bool, k: Key, r: Record, data: seq<byte>)
    requires Writing(v5, r, k.stem, data) && (k.stem == Rel <==> r.PubrelRecord?)
    requires k.stem == Sent ==> CanSend(v5, r.msg)
    ensures Decodes(v5, RereadRecord(k, r), data)
  {
    hide RestorePublish, RestorePubrel, PublishBytes, PubrelBytes, StoredPacket, ParsePublish, Decodes, RereadMessage;
    match k.stem
    case Sent => SentDecodes(v5, r.msg, r.dup);
    case Rel => PubrelDecodes(v5, r.id);
    case Received =>
      var header: byte, body: seq<byte> :| Came(v5, header, body, r.msg) && data == StoredPacket(header, body);
      ReceivedDecodes(v5, header, body);
      DupAside(v5, FromPacket(ParsePublish(v5, header, body).value), ParsePublish(v5, header, body).value.dup, r.dup,
               data);
  }

  /** The flag for a repeated packet is no part of the message. */
  lemma DupAside(v5: bool, m: Message, dup: bool, dup': bool, data: seq<byte>)
    requires Decodes(v5, PublishRecord(m, dup), data)
    ensures Decodes(v5, PublishRecord(m, dup'), data)
  {
  }

  lemma WrittenIsWell(v5: bool, actions: seq<Action>, data: seq<seq<byte>>)
    requires Written(v5, actions, data) && AllPermitted(v5, map[], actions) && SendablePuts(v5, actions)
    ensures WrittenWell(v5, RereadActions(actions), data)
  {
    hide Decodes, Writing, RereadRecord, CanSend, AllPermitted;
    var rs := RereadActions(actions);
    forall i | 0 <= i < |rs| && rs[i].Put? ensures rs[i].key.id >= 0 && Decodes(v5, rs[i].record, data[i]) {
      PermittedPut(v5, map[], actions, i);
      OneDecodes(v5, actions[i].key, actions[i].record, data[i]);
    }
  }

  /** The session as its store would be read. */
  ghost function RereadSession(s: Session): Session {
    s.(outbound := RereadFlights(s.outbound), store := RereadStore(s.store))
  }

  lemma RereadKeeps(s: Session)
    requires StoreOk(s.v5, s.store) && OutboundMatches(s)
    ensures var r := RereadSession(s);
            StoreOk(r.v5, r.store) && OutboundMatches(r)
  {
    hide RereadMessage;
    var r := RereadSession(s);
    forall k | k in r.store ensures RecordOk(r.v5, r.store, k) {
      assert RecordOk(s.v5, s.store, k);
    }
    forall i | 0 <= i < |r.outbound| ensures Mirrors(r.v5, r.store, r.outbound[i]) {
      assert Mirrors(s.v5, s.store, s.outbound[i]);
    }
    forall k | k in r.store && k.stem == Sent ensures IndexOf(r.outbound, k.id) >= 0 {
      var i := IndexOf(s.outbound, k.id);
      assert r.outbound[i].msg.id == k.id;
    }
  }

  // ---------- exactly when it is the same ----------

  ghost predicate ExactMessage(m: Message) {
    AllWritable(m.body.properties) ==> AllExact(m.body.properties)
  }

  ghost predicate AllExactFlights(list: seq<Flight>) {
    forall i :: 0 <= i < |list| ==> ExactMessage(list[i].msg)
  }

  lemma RereadMessageSameIff(m: Message)
    ensures RereadMessage(m) == m <==> ExactMessage(m)
  {
    hide AllExact;
    if AllWritable(m.body.properties) {
      RereadAllSameIff(m.body.properties);
    }
  }

  lemma RereadFlightsSameIff(list: seq<Flight>)
    requires DistinctKeys(IdOf, list)
    ensures multiset(RereadFlights(list)) == multiset(list) <==> AllExactFlights(list)
    ensures AllExactFlights(list) ==> RereadFlights(list) == list
  {
    hide RereadMessage, ExactMessage;
    var r := RereadFlights(list);
    forall i | 0 <= i < |list| ensures RereadMessage(list[i].msg) == list[i].msg <==> ExactMessage(list[i].msg) {
      RereadMessageSameIff(list[i].msg);
    }
    if AllExactFlights(list) {
      assert r == list;
    }
    if multiset(r) == multiset(list) {
      forall i | 0 <= i < |list| ensures ExactMessage(list[i].msg) {
        assert r[i] in multiset(r) && r[i] in multiset(list);
        var j :| 0 <= j < |list| && list[j] == r[i];
        assert IdOf(list[j]) == IdOf(list[i]);
      }
    }
  }

  // ---------- crash recovery down to the bytes ----------

  /**
    After any run, crashes included, whose messages can be sent: a restart on the text keys, listed in
    any order, and the packets under them gives the outbound messages with their four-byte properties
    read back, in their states, in RestoreOrder's order.  They are the messages held in memory, and the
    list is the one that Session's restart builds, if and only if every message still in flight has only
    exact properties.
  */
  lemma ByteRecoveryOverRuns(
    v5: bool, moves: seq<Move>, data: seq<seq<byte>>, keys: seq<Key>, texts: seq<string>)
    requires CanRun(Fresh(v5).s, moves) && AllCanSend(v5, moves)
    requires Written(v5, Run(Fresh(v5), moves).trace, data)
    requires Lists(keys, Run(Fresh(v5), moves).s.store) && TextsOf(keys, texts)
    ensures var w := Run(Fresh(v5), moves);
            var b := RestoreTexts(v5, ApplyBytes(map[], w.trace, data), texts);
            && !b.failed
            && Wrap(IdOf, b.outbound) == Restored(IdOf, RereadFlights(w.s.outbound))
            && multiset(Wrap(IdOf, b.outbound)) == multiset(RereadFlights(w.s.outbound))
            && (multiset(Wrap(IdOf, b.outbound)) == multiset(w.s.outbound) <==> AllExactFlights(w.s.outbound))
            && (Wrap(IdOf, b.outbound) == Step(w.s, Restart(keys)).outbound <==> AllExactFlights(w.s.outbound))
  {
    hide Inv, Apply, Decodes, RestoreTexts, Run, CanRun, Recorded, Written, AllCanSend, Lists, Step, Restored, Wrap;
    hide AllExactFlights, ApplyBytes;
    var w0 := Fresh(v5);
    FreshRecorded(v5);
    RunKeeps(w0, moves);
    RunRecorded(w0, moves);
    var w := Run(w0, moves);
    RecoverBytes(w, data, keys, texts);
    RecoveryRefinesMemory(v5, moves, keys);
    DistinctOutbound(w.s);
    RereadFlightsSameIff(w.s.outbound);
  }

  lemma FreshRecorded(v5: bool)
    ensures Inv(Fresh(v5).s) && Recorded(Fresh(v5))
  {
    FreshInv(v5);
  }

  lemma DistinctOutbound(s: Session)
    requires Inv(s)
    ensures DistinctKeys(IdOf, s.outbound)
  {
  }

  lemma RecoverBytes(w: World, data: seq<seq<byte>>, keys: seq<Key>, texts: seq<string>)
    requires Inv(w.s) && Recorded(w) && Written(w.s.v5, w.trace, data)
    requires Lists(keys, w.s.store) && TextsOf(keys, texts)
    ensures var b := RestoreTexts(w.s.v5, ApplyBytes(map[], w.trace, data), texts);
            && !b.failed
            && Wrap(IdOf, b.outbound) == Restored(IdOf, RereadFlights(w.s.outbound))
            && multiset(Wrap(IdOf, b.outbound)) == multiset(RereadFlights(w.s.outbound))
  {
    hide StoreOk, OutboundMatches, InboundMatches, NoOrphans, Apply, Decodes, RestoreTexts, Written, Restored, Wrap;
    hide AllPermitted, SendablePuts, ApplyBytes, Encodes;
    var r := RereadSession(w.s);
    RereadKeeps(w.s);
    WrittenIsWell(w.s.v5, w.trace, data);
    BytesInStep(w.s.v5, RereadActions(w.trace), data);
    RereadBytes(map[], w.trace, data);
    RereadApply(map[], w.trace);
    assert RereadStore(map[]) == map[];
    assert Lists(keys, r.store);
    ByteRecovery(r, ApplyBytes(map[], w.trace, data), keys, texts);
  }
}
