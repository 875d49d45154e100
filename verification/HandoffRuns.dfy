/** Nothing is lost, repeated or reordered on the way to the application, over whole runs. */
module HandoffRuns {
  import opened SortedInsert
  import opened Handoff

  /** The sequence numbers end with the counter and go back one by one from there, around the limit. */
  ghost predicate Consecutive(q: seq<Entry>, counter: nat) {
    && counter < SEQNO_LIMIT && |q| <= SEQNO_LIMIT
    && forall i :: 0 <= i < |q| ==> q[i].seqno == Back(counter, |q| - 1 - i)
  }

  /** The number issued n before the counter, n below the limit. */
  function Back(counter: nat, n: nat): int {
    if n <= counter then counter - n else counter - n + SEQNO_LIMIT
  }

  lemma ConsecutiveDistinct(q: seq<Entry>, counter: nat)
    requires Consecutive(q, counter)
    ensures DistinctKeys(SeqnoOf, q)
  {
  }

  /** The numbers rise exactly when they do not go around. */
  lemma AscendingIffNotAround(q: seq<Entry>, counter: nat)
    requires Consecutive(q, counter)
    ensures Ascending(SeqnoOf, q) <==> |q| <= counter + 1
  {
    if |q| > counter + 1 {
      var j := |q| - 1 - counter;
      assert q[j].seqno == 0 && SeqnoOf(q[0]) >= SeqnoOf(q[j]);
    }
  }

  ghost predicate Accounted(st: State) {
    st.taken + Messages(st.queue) == st.arrivals
  }

  ghost predicate Inv(st: State) {
    Consecutive(st.queue, st.counter) && Matches(st.v5, st.queue, st.store) && Accounted(st)
  }

  // ---------- the steps ----------

  lemma MessagesAppend(q: seq<Entry>, e: Entry)
    ensures Messages(q + [e]) == Messages(q) + [e.msg]
  {
    assert (q + [e])[..|q|] == q;
  }

  /** Refusals and restarts apart, the hand-off is in order whatever the numbers do. */
  lemma ArriveAccounts(st: State, msg: Msg, offered: bool, agreed: bool)
    requires Accounted(st)
    ensures Accounted(Arrive(st, msg, offered, agreed))
  {
    MessagesAppend(st.queue, Entry(NextSeqno(st.counter), msg));
  }

  lemma DeliverAccounts(st: State, agreed: bool)
    requires Accounted(st)
    ensures Accounted(Deliver(st, agreed))
  {
    if st.queue != [] {
      assert Messages(st.queue) == [st.queue[0].msg] + Messages(st.queue[1..]);
    }
  }

  lemma EnqueueMatches(v5: bool, q: seq<Entry>, store: Store, counter: nat, msg: Msg)
    requires Matches(v5, q, store) && Consecutive(q, counter) && |q| < SEQNO_LIMIT
    ensures var n := NextSeqno(counter);
            Matches(v5, q + [Entry(n, msg)], store[QueueKey(v5, n) := msg]) && Consecutive(q + [Entry(n, msg)], n)
  {
    hide QueueKey, OtherKey;
    var n := NextSeqno(counter);
    var q' := q + [Entry(n, msg)];
    var store' := store[QueueKey(v5, n) := msg];
    assert Consecutive(q', n);
    ConsecutiveDistinct(q', n);
    forall e | e in q' ensures QueueKey(v5, e.seqno) in store' && store'[QueueKey(v5, e.seqno)] == e.msg {
      if e in q {
        SameSeqnoSameKey(v5, e.seqno, n);
        var i :| 0 <= i < |q| && q[i] == e;
        assert SeqnoOf(q'[i]) != SeqnoOf(q'[|q|]);
      }
    }
    forall k | k in store' ensures OtherKey(k) || exists e :: e in q' && k == QueueKey(v5, e.seqno) {
      if k == QueueKey(v5, n) {
        assert Entry(n, msg) in q';
      } else if !OtherKey(k) {
        var e :| e in q && k == QueueKey(v5, e.seqno);
        assert e in q';
      }
    }
  }

  lemma DequeueMatches(v5: bool, q: seq<Entry>, store: Store, counter: nat)
    requires Matches(v5, q, store) && Consecutive(q, counter) && q != []
    ensures Matches(v5, q[1..], store - {QueueKey(v5, q[0].seqno)}) && Consecutive(q[1..], counter)
  {
    hide QueueKey, OtherKey;
    var store' := store - {QueueKey(v5, q[0].seqno)};
    forall e | e in q[1..] ensures QueueKey(v5, e.seqno) in store' && store'[QueueKey(v5, e.seqno)] == e.msg {
      SameSeqnoSameKey(v5, e.seqno, q[0].seqno);
      assert e in q;
      assert SeqnoOf(q[0]) != SeqnoOf(e);
    }
    forall k | k in store' ensures OtherKey(k) || exists e :: e in q[1..] && k == QueueKey(v5, e.seqno) {
      if !OtherKey(k) {
        var e :| e in q && k == QueueKey(v5, e.seqno);
        assert e in q[1..];
      }
    }
  }

  lemma {:induction false} MaxBounds(es: seq<Entry>, e: Entry)
    requires e in es
    ensures e.seqno <= MaxSeqno(es)
  {
    var init, last := es[..|es| - 1], es[|es| - 1];
    assert es == init + [last];
    if e in init {
      MaxBounds(init, e);
    }
  }

  lemma {:induction false} MaxAttained(es: seq<Entry>) returns (e: Entry)
    requires es != []
    ensures e in es && e.seqno == MaxSeqno(es)
  {
    var init, last := es[..|es| - 1], es[|es| - 1];
    e := last;
    if init != [] && MaxSeqno(init) >= last.seqno {
      e := MaxAttained(init);
    }
  }

  lemma HasMember(es: seq<Entry>)
    requires es != []
    ensures exists e :: e in es
  {
    assert es[0] in es;
  }

  /** The restored counter: where the old one stood, or 0 when nothing was queued. */
  lemma RestoredCounter(st: State, keys: seq<string>)
    requires Inv(st) && KeysOf(st.store, keys) && |st.queue| <= st.counter + 1
    ensures Restart(st, keys).counter == if st.queue == [] then 0 else st.counter
  {
    hide Matches;
    var es := Entries(st.store, keys);
    EntriesOfQueue(st.v5, st.queue, st.store, keys);
    if st.queue == [] {
      if es != [] { HasMember(es); }
    } else {
      AscendingIffNotAround(st.queue, st.counter);
      var last := st.queue[|st.queue| - 1];
      assert last in es && last.seqno == st.counter;
      assert forall e :: e in st.queue ==> e.seqno <= st.counter;
      MaxBounds(es, last);
      var m := MaxAttained(es);
      assert m in st.queue;
    }
  }

  /** At any point of a run, a restart brings back the queue if and only if it is no longer than counter + 1:
      the numbers of the queued messages do not go around the limit. */
  lemma RestartExactIff(st: State, keys: seq<string>)
    requires Inv(st) && KeysOf(st.store, keys)
    ensures Restart(st, keys).queue == st.queue <==> |st.queue| <= st.counter + 1
    ensures multiset(Restart(st, keys).queue) == multiset(st.queue)
  {
    RestoreExactIff(st.v5, st.queue, st.store, keys);
    AscendingIffNotAround(st.queue, st.counter);
  }

  lemma TwoSwapped(st: State, keys: seq<string>)
    requires Inv(st) && KeysOf(st.store, keys) && |st.queue| == 2 && st.counter == 0
    ensures Restart(st, keys).queue == [st.queue[1], st.queue[0]]
  {
    var x, y := st.queue[0], st.queue[1];
    assert x.seqno == SEQNO_LIMIT - 1 && y.seqno == 0;
    hide *;
    RestartExactIff(st, keys);
    Sorted(st, keys);
    assert st.queue == [x, y];
    TwoInOrder(Restart(st, keys).queue, x, y);
  }

  lemma StraddledCounter(st: State, keys: seq<string>, x: Entry)
    requires Inv(st) && KeysOf(st.store, keys) && x in st.queue && x.seqno == SEQNO_LIMIT - 1
    ensures Restart(st, keys).counter == SEQNO_LIMIT - 1
  {
    hide Matches;
    var es := Entries(st.store, keys);
    EntriesOfQueue(st.v5, st.queue, st.store, keys);
    MaxBounds(es, x);
    var m := MaxAttained(es);
    assert m in st.queue;
  }

  /** The new record takes the place of the old one under the same key. */
  lemma Overwritten(st: State, a: Msg, b: Msg, c: Msg)
    requires !st.v5 && st.queue == [Entry(SEQNO_LIMIT - 1, a), Entry(0, b)] && Matches(false, st.queue, st.store)
    ensures Matches(false, [Entry(0, c), Entry(SEQNO_LIMIT - 1, a)], st.store[QueueKey(false, 0) := c])
  {
    hide QueueKey, OtherKey;
    var x, y, z := Entry(SEQNO_LIMIT - 1, a), Entry(0, b), Entry(0, c);
    SameSeqnoSameKey(false, SEQNO_LIMIT - 1, 0);
    var store := st.store[QueueKey(false, 0) := c];
    forall k | k in store ensures OtherKey(k) || exists e :: e in [z, x] && k == QueueKey(false, e.seqno) {
      if k == QueueKey(false, 0) {
        assert z in [z, x];
      } else if !OtherKey(k) {
        var e :| e in st.queue && k == QueueKey(false, e.seqno);
        assert x in [z, x];
      }
    }
    assert x in st.queue;
  }

  lemma EmptyInv(st: State)
    requires st.queue == [] && st.store == map[] && st.counter < SEQNO_LIMIT && st.taken == st.arrivals
    ensures Inv(st)
  {
  }

  lemma TwoInOrder(r: seq<Entry>, x: Entry, y: Entry)
    requires Ascending(SeqnoOf, r) && multiset(r) == multiset([x, y]) && y.seqno < x.seqno
    ensures r == [y, x]
  {
    assert multiset([x, y]) == multiset([y, x]);
    assert Ascending(SeqnoOf, [y, x]);
    AscendingUnique(SeqnoOf, r, [y, x]);
  }

  lemma Sorted(st: State, keys: seq<string>)
    requires Inv(st) && KeysOf(st.store, keys)
    ensures Ascending(SeqnoOf, Restart(st, keys).queue)
  {
    KeysIn(st.store, keys);
    EntriesDistinct(st.v5, st.queue, st.store, keys);
    InsertAllSorts(SeqnoOf, Entries(st.store, keys));
  }

  // ---------- runs ----------

  datatype Step =
    | DoArrive(msg: Msg, offered: bool, agreed: bool)
    | DoDeliver(agreed: bool)
    | DoRestart(keys: seq<string>)

  ghost predicate Enabled(st: State, s: Step) {
    s.DoRestart? ==> KeysOf(st.store, s.keys)
  }

  ghost function Next(st: State, s: Step): State
    requires Enabled(st, s)
  {
    match s
    case DoArrive(msg, offered, agreed) => Arrive(st, msg, offered, agreed)
    case DoDeliver(agreed) => Deliver(st, agreed)
    case DoRestart(keys) => Restart(st, keys)
  }

  ghost predicate CanRun(st: State, steps: seq<Step>)
    decreases |steps|
  {
    steps == [] || (Enabled(st, steps[0]) && CanRun(Next(st, steps[0]), steps[1..]))
  }

  ghost function Run(st: State, steps: seq<Step>): State
    requires CanRun(st, steps)
    decreases |steps|
  {
    if steps == [] then st else Run(Next(st, steps[0]), steps[1..])
  }

  ghost predicate NoRestart(steps: seq<Step>) {
    forall i :: 0 <= i < |steps| ==> !steps[i].DoRestart?
  }

  /** While the process lives: taken, then queued, is what arrived, however often the callback refuses. */
  lemma {:induction false} HandedOverInOrder(st: State, steps: seq<Step>)
    requires Accounted(st) && CanRun(st, steps) && NoRestart(steps)
    ensures Accounted(Run(st, steps))
    decreases |steps|
  {
    if steps != [] {
      match steps[0] {
        case DoArrive(msg, offered, agreed) => ArriveAccounts(st, msg, offered, agreed);
        case DoDeliver(agreed) => DeliverAccounts(st, agreed);
        case DoRestart(_) =>
      }
      HandedOverInOrder(Next(st, steps[0]), steps[1..]);
    }
  }

  /** A message is only queued while fewer than the limit are (ArrivalGuardExact), and a restart finds no
      queue that goes around (RestartExactIff). */
  ghost predicate Guarded(st: State, s: Step) {
    match s
    case DoArrive(_, offered, agreed) => (st.queue == [] && offered && agreed) || |st.queue| < SEQNO_LIMIT
    case DoDeliver(_) => true
    case DoRestart(_) => |st.queue| <= st.counter + 1
  }

  lemma StepKeeps(st: State, s: Step)
    requires Inv(st) && Enabled(st, s) && Guarded(st, s)
    ensures Inv(Next(st, s))
  {
    hide Matches, Consecutive, Accounted;
    match s
    case DoArrive(msg, offered, agreed) =>
      ArriveAccounts(st, msg, offered, agreed);
      if !(st.queue == [] && offered && agreed) {
        EnqueueMatches(st.v5, st.queue, st.store, st.counter, msg);
      }
    case DoDeliver(agreed) =>
      DeliverAccounts(st, agreed);
      if st.queue != [] {
        DequeueMatches(st.v5, st.queue, st.store, st.counter);
      }
    case DoRestart(keys) =>
      RestartExactIff(st, keys);
      RestoredCounter(st, keys);
      RestartKeeps(st, Restart(st, keys));
  }

  lemma RestartKeeps(st: State, t: State)
    requires Inv(st) && t == st.(counter := if st.queue == [] then 0 else st.counter)
    ensures Inv(t)
  {
    hide Matches;
  }

  /** The condition on arrivals is exact: with the limit reached, the new number is that of the first entry,
      whose record is overwritten. */
  lemma ArrivalGuardExact(st: State, msg: Msg)
    requires Inv(st)
    ensures Inv(Arrive(st, msg, false, false)) <==> |st.queue| < SEQNO_LIMIT
  {
    hide Matches, Accounted;
    if |st.queue| < SEQNO_LIMIT {
      StepKeeps(st, DoArrive(msg, false, false));
    } else {
      assert st.queue[0].seqno == NextSeqno(st.counter);
    }
  }

  ghost predicate AllGuarded(st: State, steps: seq<Step>)
    requires CanRun(st, steps)
    decreases |steps|
  {
    steps == [] || (Guarded(st, steps[0]) && AllGuarded(Next(st, steps[0]), steps[1..]))
  }

  /** With restarts in between, nothing is lost, repeated or reordered as long as the conditions hold. */
  lemma {:induction false} HandedOverAcrossRestarts(st: State, steps: seq<Step>)
    requires Inv(st) && CanRun(st, steps) && AllGuarded(st, steps)
    ensures Inv(Run(st, steps))
    decreases |steps|
  {
    hide Inv, Guarded;
    if steps != [] {
      StepKeeps(st, steps[0]);
      HandedOverAcrossRestarts(Next(st, steps[0]), steps[1..]);
    }
  }

  /** The counter has never gone around. */
  ghost predicate Young(st: State) {
    |st.queue| <= st.counter <= |st.arrivals|
  }

  lemma YoungIsGuarded(st: State, s: Step)
    requires Inv(st) && Young(st) && Enabled(st, s) && |Next(st, s).arrivals| < SEQNO_LIMIT
    ensures Guarded(st, s) && Inv(Next(st, s)) && Young(Next(st, s))
  {
    hide Matches;
    StepKeeps(st, s);
    if s.DoRestart? {
      RestartExactIff(st, s.keys);
      RestoredCounter(st, s.keys);
    }
  }

  lemma {:induction false} ArrivalsGrow(st: State, steps: seq<Step>)
    requires CanRun(st, steps)
    ensures |st.arrivals| <= |Run(st, steps).arrivals|
    decreases |steps|
  {
    if steps != [] {
      ArrivalsGrow(Next(st, steps[0]), steps[1..]);
    }
  }

  lemma {:induction false} YoungRun(st: State, steps: seq<Step>)
    requires Inv(st) && Young(st) && CanRun(st, steps) && |Run(st, steps).arrivals| < SEQNO_LIMIT
    ensures Inv(Run(st, steps)) && Young(Run(st, steps))
    decreases |steps|
  {
    hide Inv, Young;
    if steps != [] {
      ArrivalsGrow(Next(st, steps[0]), steps[1..]);
      YoungIsGuarded(st, steps[0]);
      YoungRun(Next(st, steps[0]), steps[1..]);
    }
  }

  /** The messages that come in on a run. */
  function Incoming(steps: seq<Step>): seq<Msg> {
    if steps == [] then [] else (if steps[0].DoArrive? then [steps[0].msg] else []) + Incoming(steps[1..])
  }

  lemma {:induction false} ArrivalsAre(st: State, steps: seq<Step>)
    requires CanRun(st, steps)
    ensures Run(st, steps).arrivals == st.arrivals + Incoming(steps)
    decreases |steps|
  {
    hide Next, Enabled;
    if steps != [] {
      StepArrivals(st, steps[0]);
      ArrivalsAre(Next(st, steps[0]), steps[1..]);
    }
  }

  lemma StepArrivals(st: State, s: Step)
    requires Enabled(st, s)
    ensures Next(st, s).arrivals == st.arrivals + if s.DoArrive? then [s.msg] else []
  {
  }

  /**
    With fewer than a million arrivals in the store's lifetime, and refusals and restarts anywhere,
    messages taken followed by messages queued are the messages that came in, in order.
  */
  lemma InOrderForALifetime(v5: bool, steps: seq<Step>)
    requires CanRun(New(v5), steps) && |Incoming(steps)| < SEQNO_LIMIT
    ensures var st := Run(New(v5), steps); st.taken + Messages(st.queue) == Incoming(steps)
  {
    ArrivalsAre(New(v5), steps);
    YoungRun(New(v5), steps);
  }

  /** The application agrees n times to take what it is offered. */
  function Agreed(n: nat): (r: seq<Step>)
    ensures |r| == n
  {
    seq(n, i => DoDeliver(true))
  }

  lemma {:induction false} TakesInOrder(st: State, n: nat)
    requires n <= |st.queue|
    ensures CanRun(st, Agreed(n))
    ensures var t := Run(st, Agreed(n));
            && t.queue == st.queue[n..] && t.taken == st.taken + Messages(st.queue[..n])
            && t.arrivals == st.arrivals && t.counter == st.counter && t.v5 == st.v5
    decreases n
  {
    hide QueueKey, Messages, Arrive, Restart, Next, Enabled;
    if n > 0 {
      TakesOne(st);
      var st1 := Next(st, DoDeliver(true));
      assert Agreed(n)[1..] == Agreed(n - 1);
      TakesInOrder(st1, n - 1);
      assert st.queue[1..][..n - 1] == st.queue[..n][1..];
      MessagesFirst(st.queue[..n]);
    } else {
      assert st.queue[0..] == st.queue && st.queue[..0] == [];
      NoMessages();
    }
  }

  lemma TakesOne(st: State)
    requires st.queue != []
    ensures Enabled(st, DoDeliver(true))
    ensures Next(st, DoDeliver(true)) == Deliver(st, true)
    ensures var t := Deliver(st, true);
            && t.queue == st.queue[1..] && t.taken == st.taken + [st.queue[0].msg]
            && t.arrivals == st.arrivals && t.counter == st.counter && t.v5 == st.v5
  {
  }

  lemma NoMessages()
    ensures Messages([]) == []
  {
  }

  lemma MessagesFirst(q: seq<Entry>)
    requires q != []
    ensures Messages(q) == [q[0].msg] + Messages(q[1..])
  {
  }

  /** Once the callback agrees, everything queued is taken, in order; and with nothing queued a message that
      comes in is taken at once. */
  lemma EverythingIsTaken(st: State, msg: Msg)
    requires Accounted(st)
    ensures CanRun(st, Agreed(|st.queue|))
    ensures var t := Run(st, Agreed(|st.queue|));
            && t.queue == [] && t.taken == st.arrivals
            && Arrive(t, msg, true, true) == t.(taken := t.taken + [msg], arrivals := t.arrivals + [msg])
  {
    TakesInOrder(st, |st.queue|);
    assert st.queue[..|st.queue|] == st.queue;
  }

  // ---------- around the limit ----------

  /** A client that starts with an empty store. */
  function New(v5: bool): State {
    State(v5, [], map[], 0, [], [])
  }

  /** Each message is refused at first, queued, and then taken. */
  function OneByOne(msgs: seq<Msg>): seq<Step> {
    if msgs == [] then []
    else OneByOne(msgs[..|msgs| - 1]) + [DoArrive(msgs[|msgs| - 1], false, false), DoDeliver(true)]
  }

  lemma {:induction false} RunConcat(st: State, a: seq<Step>, b: seq<Step>)
    requires CanRun(st, a) && CanRun(Run(st, a), b)
    ensures CanRun(st, a + b) && Run(st, a + b) == Run(Run(st, a), b)
    decreases |a|
  {
    hide Enabled, Next;
    if a == [] {
      assert a + b == b;
    } else {
      assert (a + b)[1..] == a[1..] + b;
      RunConcat(Next(st, a[0]), a[1..], b);
    }
  }

  lemma RunTwo(st: State, a: Step, b: Step)
    requires Enabled(st, a) && Enabled(Next(st, a), b)
    ensures CanRun(st, [a, b]) && Run(st, [a, b]) == Next(Next(st, a), b)
  {
    hide Enabled, Next;
    var last := Next(Next(st, a), b);
    assert [a, b][1..] == [b] && [b][1..] == [];
    assert CanRun(last, []) && Run(last, []) == last;
    assert CanRun(Next(st, a), [b]) && Run(Next(st, a), [b]) == last;
  }

  /** With them the counter gets as far as there are messages, and nothing stays behind. */
  lemma {:induction false} OneByOneReaches(v5: bool, msgs: seq<Msg>)
    requires |msgs| < SEQNO_LIMIT
    ensures CanRun(New(v5), OneByOne(msgs))
    ensures Run(New(v5), OneByOne(msgs)) == State(v5, [], map[], |msgs|, msgs, msgs)
  {
    hide QueueKey;
    if msgs != [] {
      var n := |msgs| - 1;
      var init, a, b := msgs[..n], DoArrive(msgs[n], false, false), DoDeliver(true);
      OneByOneReaches(v5, init);
      var st := State(v5, [], map[], n, init, init);
      RunTwo(st, a, b);
      RunConcat(New(v5), OneByOne(init), [a, b]);
      assert init + [msgs[n]] == msgs;
      assert st.store[QueueKey(v5, n + 1) := msgs[n]] - {QueueKey(v5, n + 1)} == map[];
    }
  }

  /** All numbers but one below the limit have been used, and two more messages stay queued. */
  function Straddling(past: seq<Msg>, a: Msg, b: Msg): seq<Step> {
    OneByOne(past) + [DoArrive(a, false, false), DoArrive(b, false, false)]
  }

  lemma Straddled(past: seq<Msg>, a: Msg, b: Msg)
    requires |past| == SEQNO_LIMIT - 2
    ensures CanRun(New(false), Straddling(past, a, b))
    ensures var st := Run(New(false), Straddling(past, a, b));
            Inv(st) && !st.v5 && st.counter == 0 && st.queue == [Entry(SEQNO_LIMIT - 1, a), Entry(0, b)]
  {
    hide CanRun, Run, Matches;
    OneByOneReaches(false, past);
    var st0 := State(false, [], map[], SEQNO_LIMIT - 2, past, past);
    RunTwo(st0, DoArrive(a, false, false), DoArrive(b, false, false));
    RunConcat(New(false), OneByOne(past), [DoArrive(a, false, false), DoArrive(b, false, false)]);
    EmptyInv(st0);
    StepKeeps(st0, DoArrive(a, false, false));
    StepKeeps(Arrive(st0, a, false, false), DoArrive(b, false, false));
  }

  /** It happens, on a run from an empty store: two messages queued across the limit change places. */
  lemma AroundTheLimitSwaps(past: seq<Msg>, a: Msg, b: Msg)
    requires |past| == SEQNO_LIMIT - 2
    ensures CanRun(New(false), Straddling(past, a, b))
    ensures var st := Run(New(false), Straddling(past, a, b));
            forall keys :: KeysOf(st.store, keys) ==> Messages(Restart(st, keys).queue) == [b, a]
  {
    hide Matches, KeysOf, Messages, CanRun, Run;
    Straddled(past, a, b);
    var st := Run(New(false), Straddling(past, a, b));
    forall keys | KeysOf(st.store, keys) ensures Messages(Restart(st, keys).queue) == [b, a] {
      TwoSwapped(st, keys);
      assert Restart(st, keys).queue[0].msg == b && Restart(st, keys).queue[1].msg == a;
    }
  }

  /** And then worse: the counter restarts from the largest number, so the next message takes number 0 and
      overwrites a record that is still needed.  A second restart has lost that message. */
  lemma AroundTheLimitLoses(past: seq<Msg>, a: Msg, b: Msg, c: Msg, keys: seq<string>, later: seq<string>)
    requires |past| == SEQNO_LIMIT - 2 && CanRun(New(false), Straddling(past, a, b))
    requires KeysOf(Run(New(false), Straddling(past, a, b)).store, keys)
    requires KeysOf(Arrive(Restart(Run(New(false), Straddling(past, a, b)), keys), c, false, false).store, later)
    ensures var st := Arrive(Restart(Run(New(false), Straddling(past, a, b)), keys), c, false, false);
            Messages(st.queue) == [b, a, c] && Messages(Restart(st, later).queue) == [c, a]
  {
    hide KeysOf, Messages, Matches, Restore, CanRun, Run;
    Straddled(past, a, b);
    var st1 := Run(New(false), Straddling(past, a, b));
    var x, y, z := Entry(SEQNO_LIMIT - 1, a), Entry(0, b), Entry(0, c);
    TwoSwapped(st1, keys);
    StraddledCounter(st1, keys, x);
    var st := Arrive(Restart(st1, keys), c, false, false);
    assert st.queue == [y, x, z];
    assert Messages(st.queue) == [b, a, c];
    Overwritten(st1, a, b, c);
    assert KeysOf(st.store, later);
    RestoreExactIff(false, [z, x], st.store, later);
    assert Ascending(SeqnoOf, [z, x]);
    assert Messages([z, x]) == [c, a];
  }

  /** A crash after the callback accepted and before the record was removed: the message comes again, and
      nothing else changes. */
  lemma CrashAfterAcceptRepeatsOne(st: State, keys: seq<string>)
    requires Inv(st) && st.queue != [] && KeysOf(st.store, keys) && |st.queue| <= st.counter + 1
    ensures var t := Restart(st.(taken := st.taken + [st.queue[0].msg]), keys);
            t.taken + Messages(t.queue) == st.taken + [st.queue[0].msg] + Messages(st.queue)
            && t.queue == st.queue
  {
    RestartExactIff(st, keys);
  }
}
