/**
  The store as it really is - text keys and packet bytes - and MQTTPersistence_restorePackets
  running on it.  It rebuilds what the abstract recovery of module Session rebuilds.
*/
module StoreBytes {
  import opened SortedInsert
  import opened RestoreOrder
  import opened Wire
  import opened Properties
  import opened PublishPacket
  import opened Session
  import opened SessionInvariant
  import SessionRestart
  import K = StoreKeys

  type ByteStore = map<string, seq<byte>>

  function FamilyOf(stem: Stem): K.Family {
    match stem
    case Sent => K.SentPublish
    case Rel => K.SentPubrel
    case Received => K.ReceivedPublish
  }

  function Text(k: Key): string
    requires k.id >= 0
  {
    K.KeyText(FamilyOf(k.stem), k.v5, k.id)
  }

  function ToPacket(m: Message, dup: bool): PublishPacket.Publish
    requires m.id >= 0 && m.qos >= 0
  {
    PublishPacket.Publish(dup, m.qos, m.retain, m.body.topic, m.id, m.body.properties, m.body.payload)
  }

  function FromPacket(p: PublishPacket.Publish): Message {
    Message(p.msgId, p.qos, p.retain, Publication(p.topic, p.payload, p.properties))
  }

  /** The bytes are read back as the record: what a restart makes of them, whether the packet was written by
      this client or received and stored as it came. */
  ghost predicate Decodes(v5: bool, r: Record, data: seq<byte>) {
    match r
    case PublishRecord(m, _) => RestorePublish(v5, data).Packet? && FromPacket(RestorePublish(v5, data).value) == m
    case PubrelRecord(id) => RestorePubrel(data) == Packet(id)
  }

  /** bytes is the store written out: one entry per record, under its text key. */
  ghost predicate Encodes(v5: bool, store: Store, bytes: ByteStore) {
    && (forall k :: k in store ==> k.id >= 0 && Text(k) in bytes && Decodes(v5, store[k], bytes[Text(k)]))
    && (forall k: Key :: k.id >= 0 && Text(k) in bytes ==> k in store)
  }

  // ---------- what the client writes ----------

  /** A message that is sent: its record is read back as the message exactly when its properties are exact. */
  lemma SentDecodesIff(v5: bool, m: Message, dup: bool)
    requires m.id >= 0 && m.qos >= 0 && Sendable(v5, ToPacket(m, dup))
    ensures Decodes(v5, PublishRecord(m, dup), PublishBytes(v5, ToPacket(m, dup))) <==> AllExact(m.body.properties)
  {
    hide PublishBytes, RestorePublish, AllExact;
    var p := ToPacket(m, dup);
    StoreRoundTripIff(v5, p);
    RereadAllSameIff(p.properties);
  }

  /** A message that was received: the packet is stored as it came, and is read back as it was parsed. */
  lemma ReceivedDecodes(v5: bool, header: byte, body: seq<byte>)
    requires KindOf(header) == PUBLISH && ParsePublish(v5, header, body).Packet?
    ensures var p := ParsePublish(v5, header, body).value;
            Decodes(v5, PublishRecord(FromPacket(p), p.dup), StoredPacket(header, body))
  {
    hide ParsePublish, RestorePublish, StoredPacket;
    RestoreIsParse(v5, header, body);
  }

  lemma PubrelDecodes(v5: bool, id: int)
    requires 0 <= id < 65536
    ensures Decodes(v5, PubrelRecord(id), PubrelBytes(id))
  {
    PubrelRoundTrip(id);
  }

  datatype ByteOutcome = ByteOutcome(removed: set<string>, outbound: seq<Flight>, inbound: seq<Flight>, failed: bool)

  /** One turn of the loop in MQTTPersistence_restorePackets. */
  function RestoreText(v5: bool, o: ByteOutcome, bytes: ByteStore, text: string): ByteOutcome
    requires text in bytes
  {
    if o.failed then o
    else if K.HasStem(text, "c-") || K.HasStem(text, "c5-") || K.HasStem(text, "q-") || K.HasStem(text, "q5-") then o
    else
      var data5 := K.HasStem(text, "r5-") || K.HasStem(text, "s5-") || K.HasStem(text, "sc5-");
      if data5 && !v5 then o.(failed := true)
      else if K.HasStem(text, "r5-") || K.HasStem(text, "r-") then
        match RestorePublish(data5, bytes[text])
        case Packet(p) =>
          o.(inbound := o.inbound + [ReceivedFlight(v5, FromPacket(p))])
        case _ => o.(removed := o.removed + {text})
      else if K.HasStem(text, "s5-") || K.HasStem(text, "s-") then
        match RestorePublish(data5, bytes[text])
        case Packet(p) =>
          var next := if K.KeyText(K.SentPubrel, v5, p.msgId) in bytes then AwaitPubcomp else InitialNext(p.qos);
          o.(outbound := Insert(IdOf, o.outbound, Flight(FromPacket(p), next)))
        case _ => o.(removed := o.removed + {text})
      else if K.HasStem(text, "sc5-") || K.HasStem(text, "sc-") then
        match RestorePubrel(bytes[text])
        case Packet(id) =>
          if K.KeyText(K.SentPublish, v5, id) in bytes then o else o.(removed := o.removed + {text})
        case _ => o.(removed := o.removed + {text})
      else o
  }

  function RestoreTexts(v5: bool, bytes: ByteStore, texts: seq<string>): ByteOutcome {
    if texts == [] then ByteOutcome({}, [], [], false)
    else
      var o := RestoreTexts(v5, bytes, texts[..|texts| - 1]);
      var text := texts[|texts| - 1];
      var now := bytes - o.removed;
      if text in now then RestoreText(v5, o, now, text) else o
  }

  // ---------- agreement with the abstract recovery ----------

  lemma TextStem(k: Key, f: K.Family, v5: bool)
    requires k.id >= 0
    ensures K.HasStem(Text(k), K.Stem(f, v5)) <==> FamilyOf(k.stem) == f && k.v5 == v5
  {
    K.StemDecides(FamilyOf(k.stem), k.v5, k.id, f, v5);
  }

  lemma TextStems(k: Key)
    requires k.id >= 0
    ensures !K.HasStem(Text(k), "c-") && !K.HasStem(Text(k), "c5-") && !K.HasStem(Text(k), "q-")
              && !K.HasStem(Text(k), "q5-")
    ensures K.HasStem(Text(k), "r5-") <==> k.stem == Received && k.v5
    ensures K.HasStem(Text(k), "r-") <==> k.stem == Received && !k.v5
    ensures K.HasStem(Text(k), "s5-") <==> k.stem == Sent && k.v5
    ensures K.HasStem(Text(k), "s-") <==> k.stem == Sent && !k.v5
    ensures K.HasStem(Text(k), "sc5-") <==> k.stem == Rel && k.v5
    ensures K.HasStem(Text(k), "sc-") <==> k.stem == Rel && !k.v5
  {
    hide K.HasStem, Text;
    TextStem(k, K.Command, false);
    TextStem(k, K.Command, true);
    TextStem(k, K.Queue, false);
    TextStem(k, K.Queue, true);
    TextStem(k, K.ReceivedPublish, true);
    TextStem(k, K.ReceivedPublish, false);
    TextStem(k, K.SentPublish, true);
    TextStem(k, K.SentPublish, false);
    TextStem(k, K.SentPubrel, true);
    TextStem(k, K.SentPubrel, false);
  }

  lemma TextInjective(k: Key, l: Key)
    requires k.id >= 0 && l.id >= 0
    ensures Text(k) == Text(l) ==> k == l
  {
    K.KeyTextInjective(FamilyOf(k.stem), k.v5, k.id, FamilyOf(l.stem), l.v5, l.id);
  }

  ghost predicate Agree(o: Outcome, b: ByteOutcome) {
    !b.failed && o.outbound == b.outbound && o.inbound == b.inbound
  }

  lemma PublishTextAgrees(v5: bool, store: Store, bytes: ByteStore, o: Outcome, b: ByteOutcome, k: Key)
    requires Encodes(v5, store, bytes) && StoreOk(v5, store)
    requires Agree(o, b) && k in store && Text(k) in bytes && k.stem != Rel
    ensures Agree(RestoreKey(v5, o, store, k), RestoreText(v5, b, bytes, Text(k)))
    ensures RestoreText(v5, b, bytes, Text(k)).removed == b.removed
  {
    hide K.HasStem, Text, RestorePublish, RestorePubrel, Insert;
    assert RecordOk(v5, store, k);
    TextStems(k);
    var rel := Key(Rel, v5, store[k].msg.id);
    TextOfRel(v5, store[k].msg.id);
    assert Text(rel) in bytes <==> rel in store;
  }

  lemma TextOfRel(v5: bool, id: int)
    requires id >= 0
    ensures Text(Key(Rel, v5, id)) == K.KeyText(K.SentPubrel, v5, id)
    ensures Text(Key(Sent, v5, id)) == K.KeyText(K.SentPublish, v5, id)
  {
  }

  lemma PubrelTextAgrees(v5: bool, store: Store, bytes: ByteStore, o: Outcome, b: ByteOutcome, k: Key)
    requires Encodes(v5, store, bytes) && StoreOk(v5, store)
    requires Agree(o, b) && k in store && Text(k) in bytes && k.stem == Rel
    ensures Agree(RestoreKey(v5, o, store, k), RestoreText(v5, b, bytes, Text(k)))
    ensures RestoreText(v5, b, bytes, Text(k)).removed
         == b.removed + if Key(Sent, v5, k.id) in store then {} else {Text(k)}
  {
    hide K.HasStem, Text, RestorePublish, RestorePubrel;
    assert RecordOk(v5, store, k);
    TextStems(k);
    TextOfRel(v5, k.id);
    assert Text(Key(Sent, v5, k.id)) in bytes <==> Key(Sent, v5, k.id) in store;
  }

  // ---------- store and bytes in step ----------

  /** Writing a record on both sides keeps them in step. */
  lemma PutBoth(v5: bool, store: Store, bytes: ByteStore, k: Key, r: Record, data: seq<byte>)
    requires Encodes(v5, store, bytes) && k.id >= 0 && Decodes(v5, r, data)
    ensures Encodes(v5, store[k := r], bytes[Text(k) := data])
  {
    hide Text, Decodes;
    var store', bytes' := store[k := r], bytes[Text(k) := data];
    forall l | l in store' ensures l.id >= 0 && Text(l) in bytes' && Decodes(v5, store'[l], bytes'[Text(l)]) {
      TextInjective(k, l);
    }
    forall l: Key | l.id >= 0 && Text(l) in bytes' ensures l in store' {
      TextInjective(k, l);
    }
  }

  /** Removing a record from both sides keeps them in step. */
  lemma RemoveBoth(v5: bool, store: Store, bytes: ByteStore, k: Key)
    requires Encodes(v5, store, bytes) && k.id >= 0
    ensures Encodes(v5, store - {k}, bytes - {Text(k)})
  {
    hide Text, Decodes;
    forall l | l in store - {k} ensures Text(l) in bytes - {Text(k)} {
      TextInjective(k, l);
    }
  }

  lemma {:induction false} TextsAgree(v5: bool, store: Store, bytes: ByteStore, keys: seq<Key>, texts: seq<string>)
    requires StoreOk(v5, store) && Encodes(v5, store, bytes)
    requires SessionRestart.Distinct(keys) && (forall k :: k in keys ==> k in store && k.id >= 0)
    requires |texts| == |keys| && forall i :: 0 <= i < |keys| ==> texts[i] == Text(keys[i])
    ensures var o, b := RestoreKeys(v5, store, keys), RestoreTexts(v5, bytes, texts);
            Agree(o, b) && Encodes(v5, Apply(store, o.actions), bytes - b.removed)
  {
    hide Text, StoreOk, Encodes, RestoreKey, RestoreText;
    if keys == [] {
      assert bytes - {} == bytes;
    } else {
      var init, key := keys[..|keys| - 1], keys[|keys| - 1];
      TextsAgree(v5, store, bytes, init, texts[..|texts| - 1]);
      SessionRestart.RestoreScan(v5, store, init);
      assert key !in init;
      TextAgreesNext(v5, store, bytes, init, key, RestoreKeys(v5, store, init),
          RestoreTexts(v5, bytes, texts[..|texts| - 1]));
    }
  }

  lemma TextAgreesNext(v5: bool, store: Store, bytes: ByteStore, init: seq<Key>, key: Key, o: Outcome, b: ByteOutcome)
    requires StoreOk(v5, store) && key in store && key !in init && Agree(o, b)
    requires AllPermitted(v5, store, o.actions) && SessionRestart.Swept(v5, store, init, Apply(store, o.actions))
    requires Encodes(v5, Apply(store, o.actions), bytes - b.removed)
    ensures key in Apply(store, o.actions) && key.id >= 0 && Text(key) in bytes - b.removed
    ensures var now, bnow := Apply(store, o.actions), bytes - b.removed;
            var o', b' := RestoreKey(v5, o, now, key), RestoreText(v5, b, bnow, Text(key));
            Agree(o', b') && Encodes(v5, Apply(store, o'.actions), bytes - b'.removed)
  {
    hide Text, RestoreText, Decodes, AllPermitted, StoreOk, Insert, Apply;
    var now, bnow := Apply(store, o.actions), bytes - b.removed;
    PermittedRun(v5, store, o.actions);
    SessionRestart.SweepOne(v5, store, init, now, key, o);
    SessionRestart.RecordAt(v5, now, key);
    if key.stem != Rel {
      PublishTextAgrees(v5, now, bnow, o, b, key);
    } else {
      PubrelTextAgrees(v5, now, bnow, o, b, key);
      if Key(Sent, v5, key.id) !in now {
        RemovedNext(v5, store, o.actions, bytes, b.removed, key);
      }
    }
  }

  lemma RemovedNext(v5: bool, store: Store, actions: seq<Action>, bytes: ByteStore, removed: set<string>, key: Key)
    requires Encodes(v5, Apply(store, actions), bytes - removed) && key.id >= 0
    ensures Encodes(v5, Apply(store, actions + [Remove(key)]), bytes - (removed + {Text(key)}))
  {
    hide Text, Encodes, Apply;
    var now := Apply(store, actions);
    ApplyConcat(store, actions, [Remove(key)]);
    Single(now, Remove(key));
    RemoveBoth(v5, now, bytes - removed, key);
    assert bytes - (removed + {Text(key)}) == bytes - removed - {Text(key)};
  }

  lemma ListedTexts(v5: bool, store: Store, keys: seq<Key>)
    requires StoreOk(v5, store) && Lists(keys, store)
    ensures forall k :: k in keys ==> k in store && k.id >= 0
    ensures SessionRestart.Distinct(keys)
  {
    forall k | k in keys ensures k in store && k.id >= 0 {
      assert RecordOk(v5, store, k);
    }
  }

  /** The texts of the keys, in the same order. */
  ghost predicate TextsOf(keys: seq<Key>, texts: seq<string>) {
    |texts| == |keys| && forall i :: 0 <= i < |keys| ==> keys[i].id >= 0 && texts[i] == Text(keys[i])
  }

  /**
    Recovery from the real store: with the records of a session written out as packets under text
    keys, and the keys listed in any order, the restart rebuilds the outbound messages held in
    memory, contents and states included.
  */
  lemma ByteRecovery(s: Session, bytes: ByteStore, keys: seq<Key>, texts: seq<string>)
    requires StoreOk(s.v5, s.store) && OutboundMatches(s) && Encodes(s.v5, s.store, bytes)
    requires Lists(keys, s.store) && TextsOf(keys, texts)
    ensures var b := RestoreTexts(s.v5, bytes, texts);
            && !b.failed
            && Wrap(IdOf, b.outbound) == Restored(IdOf, s.outbound)
            && multiset(Wrap(IdOf, b.outbound)) == multiset(s.outbound)
  {
    hide Text, Encodes, StoreOk, OutboundMatches, Restored, Wrap;
    ListedTexts(s.v5, s.store, keys);
    TextsAgree(s.v5, s.store, bytes, keys, texts);
    SessionRestart.RestoredOutbound(s, keys);
  }
}
