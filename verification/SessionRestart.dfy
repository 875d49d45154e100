/** What MQTTPersistence_restorePackets rebuilds from a store, whatever order its keys come in. */
module SessionRestart {
  import opened SortedInsert
  import opened RestoreOrder
  import opened Session
  import opened SessionInvariant

  ghost predicate Distinct(keys: seq<Key>) {
    forall i, j :: 0 <= i < j < |keys| ==> keys[i] != keys[j]
  }

  ghost predicate Orphan(v5: bool, store: Store, k: Key) {
    k.stem == Rel && Key(Sent, v5, k.id) !in store
  }

  /** The outbound elements made from the given keys, in key order. */
  function SentFlights(v5: bool, store: Store, keys: seq<Key>): seq<Flight> {
    if keys == [] then []
    else
      var k := keys[|keys| - 1];
      SentFlights(v5, store, keys[..|keys| - 1])
      + if k.stem == Sent && k in store && store[k].PublishRecord?
        then [SentFlight(v5, store, store[k].msg)] else []
  }

  function ReceivedFlights(v5: bool, store: Store, keys: seq<Key>): seq<Flight> {
    if keys == [] then []
    else
      var k := keys[|keys| - 1];
      ReceivedFlights(v5, store, keys[..|keys| - 1])
      + if k.stem == Received && k in store && store[k].PublishRecord?
        then [ReceivedFlight(v5, store[k].msg)] else []
  }

  /** Only orphaned PUBREL records among the given keys have gone. */
  ghost predicate Swept(v5: bool, store: Store, keys: seq<Key>, after: Store) {
    && (forall k :: k in after <==> k in store && !(k in keys && Orphan(v5, store, k)))
    && (forall k :: k in after ==> after[k] == store[k])
  }

  lemma SweepOne(v5: bool, store: Store, keys: seq<Key>, now: Store, key: Key, o: Outcome)
    requires StoreOk(v5, store) && key in store && key !in keys
    requires Swept(v5, store, keys, now)
    requires key in now
    ensures var o' := RestoreKey(v5, o, now, key);
            var extra := if Orphan(v5, store, key) then [Remove(key)] else [];
            && o'.actions == o.actions + extra
            && AllPermitted(v5, now, extra)
            && Swept(v5, store, keys + [key], Apply(now, extra))
            && (key.stem == Sent ==> o'.outbound == Insert(IdOf, o.outbound, SentFlight(v5, store, store[key].msg)))
            && (key.stem != Sent ==> o'.outbound == o.outbound)
            && o'.inbound ==
               (if key.stem == Received then o.inbound + [ReceivedFlight(v5, store[key].msg)] else o.inbound)
  {
    assert RecordOk(v5, store, key);
    if Orphan(v5, store, key) {
      Single(now, Remove(key));
      assert [Remove(key)][1..] == [];
    }
    if key.stem == Sent {
      assert !Orphan(v5, store, Key(Rel, v5, key.id));
    }
  }

  lemma {:induction false} RestoreScan(v5: bool, store: Store, keys: seq<Key>)
    requires StoreOk(v5, store) && Distinct(keys) && forall k :: k in keys ==> k in store
    ensures var o := RestoreKeys(v5, store, keys);
            && AllPermitted(v5, store, o.actions)
            && Swept(v5, store, keys, Apply(store, o.actions))
            && o.outbound == InsertAll(IdOf, SentFlights(v5, store, keys))
            && o.inbound == ReceivedFlights(v5, store, keys)
  {
    hide RestoreKey, Apply, AllPermitted, InsertAll, Insert, SentFlights, ReceivedFlights, StoreOk, Swept, RecordOk;
    ScanNothing(v5, store);
    if keys != [] {
      var init, key := keys[..|keys| - 1], keys[|keys| - 1];
      RestoreScan(v5, store, init);
      var o := RestoreKeys(v5, store, init);
      var now := Apply(store, o.actions);
      assert key !in init;
      StillThere(v5, store, init, now, key);
      SweepOne(v5, store, init, now, key, o);
      var extra := if Orphan(v5, store, key) then [Remove(key)] else [];
      ApplyConcat(store, o.actions, extra);
      PermittedConcat(v5, store, o.actions, extra);
      assert keys == init + [key];
      RecordAt(v5, store, key);
      ScanLists(v5, store, init, key, o);
    }
  }

  lemma ScanNothing(v5: bool, store: Store)
    ensures Apply(store, []) == store && AllPermitted(v5, store, []) && Swept(v5, store, [], store)
    ensures SentFlights(v5, store, []) == [] && ReceivedFlights(v5, store, []) == [] && InsertAll(IdOf, []) == []
  {
  }

  lemma StillThere(v5: bool, store: Store, keys: seq<Key>, after: Store, key: Key)
    requires Swept(v5, store, keys, after) && key in store && key !in keys
    ensures key in after
  {
  }

  lemma ScanLists(v5: bool, store: Store, init: seq<Key>, key: Key, o: Outcome)
    requires key in store && RecordOk(v5, store, key)
    requires o.outbound == InsertAll(IdOf, SentFlights(v5, store, init))
    ensures SentFlights(v5, store, init + [key]) == SentFlights(v5, store, init)
            + (if key.stem == Sent then [SentFlight(v5, store, store[key].msg)] else [])
    ensures InsertAll(IdOf, SentFlights(v5, store, init + [key]))
         == if key.stem == Sent then Insert(IdOf, o.outbound, SentFlight(v5, store, store[key].msg)) else o.outbound
    ensures ReceivedFlights(v5, store, init + [key]) == ReceivedFlights(v5, store, init)
            + (if key.stem == Received then [ReceivedFlight(v5, store[key].msg)] else [])
  {
    assert (init + [key])[..|init + [key]| - 1] == init;
    if key.stem == Sent {
      var xs, x := SentFlights(v5, store, init), SentFlight(v5, store, store[key].msg);
      assert SentFlights(v5, store, init + [key]) == xs + [x];
      assert (xs + [x])[..|xs + [x]| - 1] == xs && (xs + [x])[|xs + [x]| - 1] == x;
    } else {
      assert SentFlights(v5, store, init + [key]) == SentFlights(v5, store, init);
    }
  }

  lemma RecordAt(v5: bool, store: Store, k: Key)
    requires StoreOk(v5, store) && k in store
    ensures RecordOk(v5, store, k)
  {
  }

  /** Exactly one element per stored PUBLISH, each mirroring its record. */
  lemma {:induction false} SentFlightsContents(v5: bool, store: Store, keys: seq<Key>)
    requires StoreOk(v5, store) && Distinct(keys) && forall k :: k in keys ==> k in store
    ensures var xs := SentFlights(v5, store, keys);
            && DistinctKeys(IdOf, xs)
            && (forall f :: f in xs <==> Mirrors(v5, store, f) && Key(Sent, v5, f.msg.id) in keys)
  {
    if keys != [] {
      var init, key := keys[..|keys| - 1], keys[|keys| - 1];
      SentFlightsContents(v5, store, init);
      assert key !in init && keys == init + [key];
      assert RecordOk(v5, store, key);
      var xs := SentFlights(v5, store, init);
      if key.stem == Sent {
        forall i | 0 <= i < |xs| ensures IdOf(xs[i]) != key.id {
          assert xs[i] in xs;
        }
        assert key == Key(Sent, v5, key.id);
      }
    }
  }

  lemma {:induction false} ReceivedFlightsContents(v5: bool, store: Store, keys: seq<Key>)
    requires StoreOk(v5, store) && Distinct(keys) && forall k :: k in keys ==> k in store
    ensures var xs := ReceivedFlights(v5, store, keys);
            && DistinctKeys(IdOf, xs)
            && (forall f :: f in xs ==> f.next == AwaitPubrel && f.msg.qos == 2 && Key(Received, v5, f.msg.id) in keys)
            && (forall k :: k in keys && k.stem == Received ==> IndexOf(xs, k.id) >= 0)
  {
    hide IndexOf, StoreOk, RecordOk;
    if keys != [] {
      var init, key := keys[..|keys| - 1], keys[|keys| - 1];
      ReceivedFlightsContents(v5, store, init);
      assert key !in init && keys == init + [key];
      if key.stem == Received {
        ReceivedRecordAt(v5, store, key);
      }
      var xs, ys := ReceivedFlights(v5, store, init), ReceivedFlights(v5, store, keys);
      if key.stem == Received {
        assert ys == xs + [ReceivedFlight(v5, store[key].msg)];
        NewIdLast(xs, ReceivedFlight(v5, store[key].msg), v5, init);
        ListedLonger(xs, ys);
      } else {
        assert ys == xs;
      }
    }
  }

  lemma ReceivedRecordAt(v5: bool, store: Store, k: Key)
    requires StoreOk(v5, store) && k in store && k.stem == Received
    ensures k.v5 == v5 && store[k].PublishRecord? && store[k].msg.id == k.id && store[k].msg.qos == 2
  {
    assert RecordOk(v5, store, k);
  }

  /** An element whose key is new has a new id. */
  lemma NewIdLast(xs: seq<Flight>, f: Flight, v5: bool, keys: seq<Key>)
    requires DistinctKeys(IdOf, xs) && Key(Received, v5, f.msg.id) !in keys
    requires forall x :: x in xs ==> Key(Received, v5, x.msg.id) in keys
    ensures DistinctKeys(IdOf, xs + [f])
  {
    forall i | 0 <= i < |xs| ensures IdOf(xs[i]) != IdOf(f) {
      assert xs[i] in xs;
    }
  }

  /** What a list has, a longer one has. */
  lemma ListedLonger(xs: seq<Flight>, ys: seq<Flight>)
    requires |ys| == |xs| + 1 && ys[..|xs|] == xs
    ensures forall id :: IndexOf(xs, id) >= 0 ==> IndexOf(ys, id) >= 0
    ensures IndexOf(ys, ys[|xs|].msg.id) >= 0
  {
    forall id | IndexOf(xs, id) >= 0 ensures IndexOf(ys, id) >= 0 {
      assert ys[IndexOf(xs, id)] == xs[IndexOf(xs, id)];
    }
  }

  lemma SameMembers(s: Session, keys: seq<Key>, f: Flight)
    requires StoreOk(s.v5, s.store) && OutboundMatches(s) && Lists(keys, s.store)
    ensures f in SentFlights(s.v5, s.store, keys) <==> f in s.outbound
  {
    SentFlightsContents(s.v5, s.store, keys);
    if f in s.outbound {
      var i :| 0 <= i < |s.outbound| && s.outbound[i] == f;
      assert Mirrors(s.v5, s.store, s.outbound[i]);
    }
    if f in SentFlights(s.v5, s.store, keys) {
      var i := IndexOf(s.outbound, f.msg.id);
      assert Key(Sent, s.v5, f.msg.id) in s.store;
      assert Mirrors(s.v5, s.store, s.outbound[i]);
    }
  }

  /** The outbound list rebuilt from a store that memory agrees with: the same messages in the same
      states, in the order RestoreOrder describes. */
  lemma RestoredOutbound(s: Session, keys: seq<Key>)
    requires StoreOk(s.v5, s.store) && OutboundMatches(s) && Lists(keys, s.store)
    ensures RestorePackets(s.v5, s.store, keys).outbound == Restored(IdOf, s.outbound)
    ensures multiset(Restored(IdOf, s.outbound)) == multiset(s.outbound)
  {
    RestoreScan(s.v5, s.store, keys);
    var xs := SentFlights(s.v5, s.store, keys);
    assert DistinctKeys(IdOf, xs) by { SentFlightsContents(s.v5, s.store, keys); }
    forall f ensures f in xs <==> f in s.outbound {
      SameMembers(s, keys, f);
    }
    SameMembersSameContents(IdOf, xs, s.outbound);
    InsertionOrderIrrelevant(IdOf, xs, s.outbound);
    InsertAllSorts(IdOf, s.outbound);
    WrapContents(InsertAll(IdOf, s.outbound));
  }

  lemma WrapContents(a: seq<Flight>)
    ensures multiset(Wrap(IdOf, a)) == multiset(a)
  {
    if a != [] {
      RotateBack(a, WrapIndex(Keys(IdOf, a), 1, 0));
    }
  }
}
