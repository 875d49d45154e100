/** What a crash in the middle of a step leaves for the restart to find. */
module SessionSafety {
  import opened Session
  import opened SessionInvariant
  import opened SessionSteps
  import opened SessionRestart
  import opened SessionRuns

  // ---------- a crash in the middle of a step ----------

  lemma RecoveryRefl(v5: bool, a: Store)
    requires StoreOk(v5, a)
    ensures SameRecovery(v5, a, a)
  {
    forall id ensures SameFlight(v5, a, a, id) {
      if Key(Sent, v5, id) in a {
        assert RecordOk(v5, a, Key(Sent, v5, id));
      }
    }
  }

  lemma RecoveryTrans(v5: bool, a: Store, b: Store, c: Store)
    requires SameRecovery(v5, a, b) && SameRecovery(v5, b, c)
    ensures SameRecovery(v5, a, c)
  {
    forall id ensures SameFlight(v5, a, c, id) {
      assert SameFlight(v5, a, b, id) && SameFlight(v5, b, c, id);
    }
  }

  /** An action that leaves every message and its state recoverable as before. */
  ghost predicate Neutral(v5: bool, store: Store, a: Action) {
    match a
    case Put(k, r) =>
      || k.stem == Received
      || (&& k.v5 == v5 && k in store
          && (k.stem == Sent ==> store[k].PublishRecord? && r.PublishRecord? && r.msg == store[k].msg))
    case Remove(k) => k.stem == Received || k.v5 != v5 || (k.stem == Rel && Key(Sent, v5, k.id) !in store)
    case Discard(_) => false
    case _ => true
  }

  ghost predicate AllNeutral(v5: bool, store: Store, actions: seq<Action>)
    decreases |actions|
  {
    actions == [] || (Neutral(v5, store, actions[0]) && AllNeutral(v5, ApplyOne(store, actions[0]), actions[1..]))
  }

  lemma NeutralRecovers(v5: bool, store: Store, a: Action)
    requires StoreOk(v5, store) && Permitted(v5, store, a) && Neutral(v5, store, a)
    ensures SameRecovery(v5, store, ApplyOne(store, a))
  {
    var after := ApplyOne(store, a);
    forall id ensures SameFlight(v5, store, after, id) {
      if Key(Sent, v5, id) in store {
        assert RecordOk(v5, store, Key(Sent, v5, id));
      }
    }
  }

  lemma {:induction false} NeutralRun(v5: bool, store: Store, actions: seq<Action>, n: nat)
    requires StoreOk(v5, store) && AllPermitted(v5, store, actions) && AllNeutral(v5, store, actions)
    requires n <= |actions|
    ensures SameRecovery(v5, store, Apply(store, actions[..n]))
    decreases |actions|
  {
    if n == 0 {
      RecoveryRefl(v5, store);
    } else {
      var next := ApplyOne(store, actions[0]);
      assert actions[..n][0] == actions[0] && actions[..n][1..] == actions[1..][..n - 1];
      PermittedKeepsStore(v5, store, actions[0]);
      NeutralRecovers(v5, store, actions[0]);
      NeutralRun(v5, next, actions[1..], n - 1);
      RecoveryTrans(v5, store, next, Apply(store, actions[..n]));
    }
  }

  /** One decisive action between neutral ones: before it a crash undoes the step, after it the step is done. */
  lemma Pivot(v5: bool, store: Store, pre: seq<Action>, a: Action, post: seq<Action>, n: nat)
    requires StoreOk(v5, store) && AllPermitted(v5, store, pre + [a] + post) && n <= |pre + [a] + post|
    requires AllNeutral(v5, store, pre)
    requires AllNeutral(v5, Apply(store, pre + [a]), post)
    ensures var all := pre + [a] + post;
            || SameRecovery(v5, store, Apply(store, all[..n]))
            || SameRecovery(v5, Apply(store, all), Apply(store, all[..n]))
  {
    var all := pre + [a] + post;
    PermittedConcat(v5, store, pre + [a], post);
    PermittedConcat(v5, store, pre, [a]);
    if n <= |pre| {
      assert all[..n] == pre[..n];
      NeutralRun(v5, store, pre, n);
    } else {
      var mid := Apply(store, pre + [a]);
      PermittedRun(v5, store, pre + [a]);
      var m := n - |pre| - 1;
      assert all[..n] == pre + [a] + post[..m];
      ApplyConcat(store, pre + [a], post[..m]);
      ApplyConcat(store, pre + [a], post);
      NeutralRun(v5, mid, post, m);
      assert post[..|post|] == post;
      NeutralRun(v5, mid, post, |post|);
      RecoverySym(v5, mid, Apply(mid, post));
      RecoveryTrans(v5, Apply(mid, post), mid, Apply(mid, post[..m]));
    }
  }

  lemma RecoverySym(v5: bool, a: Store, b: Store)
    requires SameRecovery(v5, a, b)
    ensures SameRecovery(v5, b, a)
  {
    forall id ensures SameFlight(v5, b, a, id) {
      assert SameFlight(v5, a, b, id);
    }
  }

  lemma {:induction false} SilentNeutral(v5: bool, store: Store, actions: seq<Action>)
    requires forall i :: 0 <= i < |actions| ==> Neutral(v5, store, actions[i]) && !Writes(actions[i])
    ensures AllNeutral(v5, store, actions)
    decreases |actions|
  {
    if actions != [] {
      SilentNeutral(v5, store, actions[1..]);
    }
  }

  lemma {:induction false} NeutralConcat(v5: bool, store: Store, a: seq<Action>, b: seq<Action>)
    ensures AllNeutral(v5, store, a + b) <==> AllNeutral(v5, store, a) && AllNeutral(v5, Apply(store, a), b)
    decreases |a|
  {
    if a == [] {
      assert a + b == b;
    } else {
      assert (a + b)[0] == a[0] && (a + b)[1..] == a[1..] + b;
      NeutralConcat(v5, ApplyOne(store, a[0]), a[1..], b);
    }
  }

  /** Received records, acknowledgements and deliveries do not touch the outbound side. */
  /** Of the store it concerns at most a received record. */
  predicate InboundOnly(a: Action) {
    match a
    case Put(k, _) => k.stem == Received
    case Remove(k) => k.stem == Received
    case _ => !a.Discard?
  }

  lemma {:induction false} ReceivedNeutral(v5: bool, store: Store, actions: seq<Action>)
    requires forall i :: 0 <= i < |actions| ==> InboundOnly(actions[i])
    ensures AllNeutral(v5, store, actions)
    decreases |actions|
  {
    if actions != [] {
      ReceivedNeutral(v5, ApplyOne(store, actions[0]), actions[1..]);
    }
  }

  lemma ResendNeutral(v5: bool, store: Store, f: Flight)
    requires StoreOk(v5, store) && Mirrors(v5, store, f)
    ensures AllNeutral(v5, store, Resend(v5, f))
  {
    var a := Resend(v5, f);
    if a != [] {
      assert a[1..] == [a[1]];
      assert a[1..][1..] == [];
      SilentNeutral(v5, ApplyOne(store, a[0]), a[1..]);
    }
  }

  lemma {:induction false} ResendAllNeutral(v5: bool, store: Store, list: seq<Flight>)
    requires StoreOk(v5, store) && AllMirror(v5, store, list)
    ensures AllNeutral(v5, store, ResendAll(v5, list))
  {
    if list != [] {
      var init, f := list[..|list| - 1], list[|list| - 1];
      ResendAllNeutral(v5, store, init);
      ResendAllStep(v5, store, init);
      var mid := Apply(store, ResendAll(v5, init));
      MirrorsStill(v5, store, mid, f);
      ResendNeutral(v5, mid, f);
      NeutralConcat(v5, store, ResendAll(v5, init), Resend(v5, f));
    }
  }

  lemma {:induction false} SweepNeutral(v5: bool, store: Store, keys: seq<Key>)
    requires StoreOk(v5, store) && Distinct(keys) && forall k :: k in keys ==> k in store
    ensures AllNeutral(v5, store, RestoreKeys(v5, store, keys).actions)
  {
    if keys != [] {
      var init, key := keys[..|keys| - 1], keys[|keys| - 1];
      SweepNeutral(v5, store, init);
      RestoreScan(v5, store, init);
      var o := RestoreKeys(v5, store, init);
      var now := Apply(store, o.actions);
      SweepOne(v5, store, init, now, key, o);
      var extra := if Orphan(v5, store, key) then [Remove(key)] else [];
      NeutralConcat(v5, store, o.actions, extra);
      if extra != [] {
        assert extra[1..] == [];
        assert Neutral(v5, now, Remove(key));
      }
    }
  }

  lemma RemoveSentTail(v5: bool, store: Store, id: int)
    ensures AllNeutral(true, ApplyOne(store, RemoveSent(id)[0]), RemoveSent(id)[1..])
    ensures AllNeutral(false, store, RemoveSent(id)[..2])
    ensures AllNeutral(false, Apply(store, RemoveSent(id)[..3]), RemoveSent(id)[3..])
  {
    var a := RemoveSent(id);
    var s1 := ApplyOne(store, a[0]);
    var s2 := ApplyOne(s1, a[1]);
    var s3 := ApplyOne(s2, a[2]);
    assert a[1..] == [a[1], a[2], a[3]] && a[1..][1..] == [a[2], a[3]];
    assert a[1..][1..][1..] == [a[3]] && a[1..][1..][1..][1..] == [];
    assert AllNeutral(true, s3, [a[3]]);
    assert AllNeutral(true, s2, [a[2], a[3]]);
    assert a[..2] == [a[0], a[1]] && a[..2][1..] == [a[1]] && a[..2][1..][1..] == [];
    assert AllNeutral(false, s1, [a[1]]);
    assert a[..3] == [a[0], a[1]] + [a[2]];
    ApplyConcat(store, [a[0], a[1]], [a[2]]);
    Pair(store, a[0], a[1]);
    Single(s2, a[2]);
    assert a[3..] == [a[3]] && a[3..][1..] == [];
  }

  lemma RemoveSentAtomic(v5: bool, store: Store, id: int, n: nat)
    requires StoreOk(v5, store) && n <= 4
    ensures var a := RemoveSent(id);
            || SameRecovery(v5, store, Apply(store, a[..n]))
            || SameRecovery(v5, Apply(store, a), Apply(store, a[..n]))
  {
    var a := RemoveSent(id);
    RemoveSentPermitted(v5, store, id);
    RemoveSentTail(v5, store, id);
    if v5 {
      assert a == [] + [a[0]] + a[1..];
      Single(store, a[0]);
      assert [] + [a[0]] == [a[0]];
      Pivot(v5, store, [], a[0], a[1..], n);
    } else {
      assert a == a[..2] + [a[2]] + a[3..];
      assert a[..3] == a[..2] + [a[2]];
      Pivot(v5, store, a[..2], a[2], a[3..], n);
    }
  }

  lemma PutFirstAtomic(v5: bool, store: Store, a: seq<Action>, n: nat)
    requires StoreOk(v5, store) && |a| == 2 && AllPermitted(v5, store, a) && n <= 2
    requires !Writes(a[1])
    ensures SameRecovery(v5, store, Apply(store, a[..n])) || SameRecovery(v5, Apply(store, a), Apply(store, a[..n]))
  {
    assert a == [] + [a[0]] + [a[1]];
    assert [a[1]][1..] == [];
    Pivot(v5, store, [], a[0], [a[1]], n);
  }

  lemma AckAtomic(s: Session, e: Event, n: nat)
    requires Inv(s) && (e.PubackIn? || e.PubrecIn? || e.PubcompIn?) && n <= |Handle(s, e).actions|
    requires AllPermitted(s.v5, s.store, Handle(s, e).actions)
    ensures var a := Handle(s, e).actions;
            || SameRecovery(s.v5, s.store, Apply(s.store, a[..n]))
            || SameRecovery(s.v5, Apply(s.store, a), Apply(s.store, a[..n]))
  {
    var a := Handle(s, e).actions;
    if a == [] {
      assert a[..n] == [];
      RecoveryRefl(s.v5, s.store);
    } else if a == RemoveSent(e.id) {
      RemoveSentAtomic(s.v5, s.store, e.id, n);
    } else {
      PutFirstAtomic(s.v5, s.store, a, n);
    }
  }

  lemma ReceivesOnly(s: Session, e: Event)
    requires e.PublishIn? || e.PubrelIn?
    requires Enabled(s, e)
    ensures forall i :: 0 <= i < |Handle(s, e).actions| ==> InboundOnly(Handle(s, e).actions[i])
  {
    hide IndexOf, Incoming;
  }

  lemma OtherStepsNeutral(s: Session, e: Event)
    requires Inv(s) && Enabled(s, e) && (e.PublishIn? || e.PubrelIn? || e.Retry? || e.Restart?)
    ensures AllNeutral(s.v5, s.store, Handle(s, e).actions)
  {
    hide AllNeutral, StoreOk, InboundMatches, NoOrphans, HandlePublish, HandlePubrel, InboundOnly;
    var a := Handle(s, e).actions;
    match e
    case PublishIn(_, _, _) =>
      ReceivesOnly(s, e);
      ReceivedNeutral(s.v5, s.store, a);
    case PubrelIn(_, _, _) =>
      ReceivesOnly(s, e);
      ReceivedNeutral(s.v5, s.store, a);
    case Retry(due) =>
      SelectedMirror(s, due);
      ResendAllNeutral(s.v5, s.store, Selected(s.outbound, due));
    case Restart(keys) => SweepNeutral(s.v5, s.store, keys);
  }

  lemma PrefixStoreOk(s: Session, e: Event, n: nat)
    requires Inv(s) && Enabled(s, e) && n <= |Handle(s, e).actions|
    ensures AllPermitted(s.v5, s.store, Handle(s, e).actions)
    ensures StoreOk(s.v5, Apply(s.store, Handle(s, e).actions[..n]))
  {
    hide Handle, StoreOk, OutboundMatches, InboundMatches, NoOrphans, AllPermitted, Apply;
    var a := Handle(s, e).actions;
    StepKeeps(s, e);
    assert a == a[..n] + a[n..];
    PermittedConcat(s.v5, s.store, a[..n], a[n..]);
    PermittedRun(s.v5, s.store, a[..n]);
  }

  /**
    Every step but the cleaning of a session is atomic under a crash: cut it after any number of its
    store writes, and the restart finds the outbound messages either all as they were before the
    step or all as the completed step would have left them.  In particular a message whose records
    are being erased is found either still in flight or finished.
  */
  lemma CrashIsAtomic(s: Session, e: Event, n: nat)
    requires Inv(s) && Enabled(s, e) && !e.Clean? && n <= |Handle(s, e).actions|
    ensures var cut := Apply(s.store, Handle(s, e).actions[..n]);
            && StoreOk(s.v5, cut)
            && (SameRecovery(s.v5, s.store, cut) || SameRecovery(s.v5, Step(s, e).store, cut))
  {
    PrefixStoreOk(s, e, n);
    if e.PubackIn? || e.PubrecIn? || e.PubcompIn? {
      AckAtomic(s, e, n);
    } else if e.Publish? {
      PutFirstAtomic(s.v5, s.store, StartPublish(s, e.m).actions, n);
    } else {
      OtherStepsNeutral(s, e);
      NeutralRun(s.v5, s.store, Handle(s, e).actions, n);
    }
  }

  // ---------- a crash while a session is being cleaned ----------

  /** The cut erases the PUBREL record of a message and leaves its PUBLISH record. */
  ghost predicate Splits(v5: bool, keys: seq<Key>, n: nat, id: int)
    requires n <= |keys|
  {
    Key(Rel, v5, id) in keys[..n] && Key(Sent, v5, id) in keys[n..]
  }

  /** Only cleaning a session is not atomic: it goes record by record.  Each message is found as it was, or
      gone, if and only if the cut does not split its two records. */
  lemma CleanCutPerMessageIff(s: Session, keys: seq<Key>, n: nat, id: int)
    requires Inv(s) && Lists(keys, s.store) && n <= |keys|
    ensures var cut := Apply(s.store, DiscardAll(keys)[..n]);
            SameFlight(s.v5, s.store, cut, id) || Key(Sent, s.v5, id) !in cut <==> !Splits(s.v5, keys, n, id)
  {
    hide OutboundMatches, InboundMatches, NoOrphans;
    CutEffect(s.store, keys, n);
    var sent, rel := Key(Sent, s.v5, id), Key(Rel, s.v5, id);
    if sent in s.store {
      assert RecordOk(s.v5, s.store, sent);
    }
    if rel in s.store {
      assert RecordOk(s.v5, s.store, rel);
    }
  }

  /** A cut erases the first n keys. */
  lemma CutEffect(store: Store, keys: seq<Key>, n: nat)
    requires n <= |keys| && Lists(keys, store)
    ensures var cut := Apply(store, DiscardAll(keys)[..n]);
            && (forall k :: k in cut <==> k in keys[n..])
            && (forall k :: k in cut ==> k in store && cut[k] == store[k])
    ensures forall k :: k in store <==> k in keys[..n] || k in keys[n..]
    ensures forall k :: k in keys[..n] ==> k !in keys[n..]
  {
    assert DiscardAll(keys)[..n] == DiscardAll(keys[..n]);
    DiscardEffect(store, keys[..n]);
    assert keys == keys[..n] + keys[n..];
  }
}
