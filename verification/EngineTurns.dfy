/**
  When an id search gives out an id that another call of the client still holds.  The search starts after
  the last id issued and knows only the lists, not the calls that have an id and have not queued their
  command.  What keeps it clear of them is how far it has moved since.
*/
module EngineTurns {
  import opened Sequences
  import opened MessageIds
  import opened Engine
  import opened EngineEffects
  import opened EngineTokens

  /** How many ids a search goes through from the last one issued to the one it returns. */
  function Passed(last: MsgId, token: int): (d: nat)
    requires 1 <= token <= MAX_MSG_ID
    ensures 1 <= d <= MAX_MSG_ID && Nth(last, d) == token
  {
    if token > last then token - last else token - last + MAX_MSG_ID
  }

  /** A cleaned session starts the ids from 1 again, as if a search had gone through all up to the largest. */
  function Skipped(last: MsgId): nat {
    if last == 0 then 0 else MAX_MSG_ID - last
  }

  /** The call has an id of the client. */
  predicate Holds(x: Send, client: int) {
    x.client == client && x.token != 0
  }

  /** For every call under way, how many ids have been gone through since it was given its own. */
  function Moved(sending: seq<Send>, ages: seq<nat>, client: int, d: nat): (r: seq<nat>)
    requires |ages| == |sending|
    ensures |r| == |ages|
    ensures forall i :: 0 <= i < |r| ==> r[i] == if Holds(sending[i], client) then ages[i] + d else ages[i]
  {
    seq(|ages|, i requires 0 <= i < |ages| => if Holds(sending[i], client) then ages[i] + d else ages[i])
  }

  /** What each step does to the calls under way. */
  lemma SendingAfter(st: State, s: Step)
    requires Enabled(st, s)
    ensures s.DoReserve? ==> |Next(st, s).sending| == |st.sending| + 1
    ensures s.DoGiveUp? || s.DoEnqueue? ==> Next(st, s).sending == Without(st.sending, s.k)
    ensures s.DoCheck? ==> |Next(st, s).sending| == |st.sending|
    ensures !Talks(s) && !s.DoEnqueue? ==> Next(st, s).sending == st.sending
  {
    hide UsedIds, TokenInUse, Chosen, CountPublish, FirstFreeAfter, Find, Full, Enabled, Next;
    if s.DoGiveUp? || s.DoEnqueue? {
      EndedSending(st, s);
    } else if !Talks(s) {
      OtherSending(st, s);
    } else {
      StartedSending(st, s);
    }
  }

  lemma StartedSending(st: State, s: Step)
    requires Enabled(st, s) && (s.DoReserve? || s.DoCheck?)
    ensures |Next(st, s).sending| == |st.sending| + if s.DoReserve? then 1 else 0
  {
    hide UsedIds, FirstFreeAfter;
  }

  lemma EndedSending(st: State, s: Step)
    requires Enabled(st, s) && (s.DoGiveUp? || s.DoEnqueue?)
    ensures Next(st, s).sending == Without(st.sending, s.k)
  {
    hide Find, Full;
  }

  ghost function Aged(st: State, ages: seq<nat>, s: Step): (r: seq<nat>)
    requires Enabled(st, s) && |ages| == |st.sending|
    ensures |r| == |Next(st, s).sending|
  {
    hide Next, UsedIds, TokenInUse, FirstFreeAfter, Chosen, CountPublish;
    SendingAfter(st, s);
    match s
    case DoReserve(c, _, token, _) =>
      (if token == 0 then ages else Moved(st.sending, ages, c, Passed(st.clients[c].lastId, token))) + [0]
    case DoGiveUp(k) => Without(ages, k)
    case DoEnqueue(k) => Without(ages, k)
    case DoFreeResponses(c) => Moved(st.sending, ages, c, Skipped(st.clients[c].lastId))
    case _ => ages
  }

  ghost function Ages(st: State, ages: seq<nat>, steps: seq<Step>): (r: seq<nat>)
    requires CanRun(st, steps) && |ages| == |st.sending|
    ensures |r| == |Run(st, steps).sending|
    decreases |steps|
  {
    if steps == [] then ages else Ages(Next(st, steps[0]), Aged(st, ages, steps[0]), steps[1..])
  }

  /** The difference is a whole number of turns. */
  predicate Turns(d: int) {
    d % MAX_MSG_ID == 0
  }

  /** The last id issued is where the ids gone through lead from the id of a call. */
  ghost predicate Tracked(clients: map<int, ClientInfo>, x: Send, age: nat) {
    && x.client in clients && 0 <= x.token <= MAX_MSG_ID
    && (x.token != 0 ==> Turns(x.token + age - clients[x.client].lastId))
  }

  ghost predicate AllTracked(st: State, ages: seq<nat>) {
    |ages| == |st.sending| && forall i :: 0 <= i < |ages| ==> Tracked(st.clients, st.sending[i], ages[i])
  }

  // ---------- arithmetic on the circle ----------

  lemma TurnsAdd(a: int, b: int)
    requires Turns(a) && Turns(b)
    ensures Turns(a + b)
  {
  }

  lemma PassedTurns(last: MsgId, token: int)
    requires 1 <= token <= MAX_MSG_ID
    ensures Turns(last + Passed(last, token) - token)
  {
  }

  lemma OwnId(token: int)
    ensures Turns(token + 0 - token)
  {
  }

  lemma SkippedTurns(last: MsgId)
    ensures Turns(last + Skipped(last))
  {
  }

  /** Two ids are the same exactly when a whole number of turns lies between them. */
  lemma SameIdIff(held: int, token: int, age: nat)
    requires 1 <= held <= MAX_MSG_ID && 1 <= token <= MAX_MSG_ID && Turns(held + age - token)
    ensures held == token <==> Turns(age)
  {
  }

  // ---------- every step ----------

  /** The steps that leave every id counter and every call alone; others may go with their clients. */
  lemma SameTracked(st: State, ages: seq<nat>, t: State)
    requires AllTracked(st, ages) && |t.sending| == |st.sending|
    requires forall i :: 0 <= i < |st.sending| ==>
               && t.sending[i].client == st.sending[i].client && t.sending[i].token == st.sending[i].token
               && (st.sending[i].client in st.clients ==>
                     st.sending[i].client in t.clients
                     && t.clients[st.sending[i].client].lastId == st.clients[st.sending[i].client].lastId)
    ensures AllTracked(t, ages)
  {
    hide Turns;
    forall i | 0 <= i < |ages| ensures Tracked(t.clients, t.sending[i], ages[i]) {
      assert Tracked(st.clients, st.sending[i], ages[i]);
    }
  }

  lemma MovedTracked(st: State, ages: seq<nat>, client: int, d: nat, last: MsgId)
    requires AllTracked(st, ages) && client in st.clients && Turns(st.clients[client].lastId + d - last)
    ensures AllTracked(SetClient(st, client, st.clients[client].(lastId := last)), Moved(st.sending, ages, client, d))
  {
    hide Turns;
    var r, from := Moved(st.sending, ages, client, d), st.clients[client].lastId;
    var after := st.clients[client := st.clients[client].(lastId := last)];
    forall i | 0 <= i < |r| ensures Tracked(after, st.sending[i], r[i]) {
      var x := st.sending[i];
      assert Tracked(st.clients, x, ages[i]);
      if Holds(x, client) {
        TurnsAdd(x.token + ages[i] - from, from + d - last);
        assert (x.token + ages[i] - from) + (from + d - last) == x.token + r[i] - last;
      }
    }
  }

  lemma ReserveTracked(st: State, ages: seq<nat>, s: Step)
    requires AllTracked(st, ages) && Enabled(st, s) && s.DoReserve?
    ensures AllTracked(Next(st, s), Aged(st, ages, s))
  {
    hide UsedIds, FirstFreeAfter, Turns;
    var t, r := Next(st, s), Aged(st, ages, s);
    var last := st.clients[s.client].lastId;
    if s.token != 0 {
      PassedTurns(last, s.token);
      MovedTracked(st, ages, s.client, Passed(last, s.token), s.token);
      OwnId(s.token);
    }
    var before := st.(clients := t.clients);
    assert AllTracked(before, r[..|ages|]);
    forall i | 0 <= i < |r| ensures Tracked(t.clients, t.sending[i], r[i]) {
      if i < |ages| {
        assert Tracked(before.clients, before.sending[i], r[..|ages|][i]);
      }
    }
  }

  lemma WithoutTracked(st: State, ages: seq<nat>, t: State, k: nat)
    requires AllTracked(st, ages) && k < |ages| && t.sending == Without(st.sending, k)
    requires SameLastId(st.clients, t.clients)
    ensures AllTracked(t, Without(ages, k))
  {
    hide Turns;
    forall i | 0 <= i < |ages| - 1 ensures Tracked(t.clients, t.sending[i], Without(ages, k)[i]) {
      var j := if i < k then i else i + 1;
      assert Tracked(st.clients, st.sending[j], ages[j]);
    }
  }

  ghost predicate SameLastId(before: map<int, ClientInfo>, after: map<int, ClientInfo>) {
    forall c :: c in before ==> c in after && after[c].lastId == before[c].lastId
  }

  /** Every other step leaves the last id issued to the clients that stay. */
  lemma LastIdKept(st: State, s: Step)
    requires Enabled(st, s) && !s.DoReserve? && !s.DoFreeResponses? && !s.DoDestroy?
    ensures SameLastId(st.clients, Next(st, s).clients)
  {
    hide Without, UsedIds, TokenInUse, CountPublish, Chosen, Accept, Process, WriteComplete, Acknowledge, Uids;
    if s.DoEnqueue? {
      AcceptLastId(st.(sending := Without(st.sending, s.k)), st.sending[s.k]);
    } else if s.DoProcess? {
      ChosenLive(st, s.writable, s.i);
      ProcessLastId(st, s.i, s.rc);
    } else if s.DoWriteComplete? {
      WriteCompleteLastId(st, s.client, s.written);
    } else if s.DoAcknowledge? {
      AcknowledgeLastId(st, s.client, s.ack, s.token, s.error, s.gone);
    }
  }

  lemma WriteCompleteLastId(st: State, client: int, rc: int)
    requires client in st.clients
    ensures SameLastId(st.clients, WriteComplete(st, client, rc).clients)
  {
    hide Without, Find, OnSuccess, OnFailure;
  }

  lemma AcknowledgeLastId(st: State, client: int, ack: AckKind, token: int, error: bool, gone: int)
    requires client in st.clients && gone < |st.clients[client].outbound|
    ensures SameLastId(st.clients, Acknowledge(st, client, ack, token, error, gone).clients)
  {
    hide Without, Find, AckCalls;
  }

  lemma ChosenLive(st: State, writable: set<int>, i: nat)
    requires Chosen(st, writable, i)
    ensures i < |st.commands| && st.commands[i].client in st.clients
  {
  }

  lemma AcceptLastId(st: State, x: Send)
    requires x.client in st.clients
    ensures var t := Accept(st, x.client, x.kind, x.token, x.cb);
            SameLastId(st.clients, t.clients)
  {
    hide Find, Without, Full;
  }

  lemma ProcessLastId(st: State, i: nat, rc: Rc)
    requires i < |st.commands| && st.commands[i].client in st.clients
    ensures var t := Process(st, i, rc);
            SameLastId(st.clients, t.clients)
  {
    hide Without;
  }

  lemma StepTracked(st: State, ages: seq<nat>, s: Step)
    requires AllTracked(st, ages) && Enabled(st, s)
    ensures AllTracked(Next(st, s), Aged(st, ages, s))
  {
    hide Process, Accept, AcceptControl, WriteComplete, Acknowledge, Destroy, Create, Reserve, Chosen, UsedIds;
    hide TokenInUse, CountPublish, Turns, Full, FirstFreeAfter, Mine, Others, FailAll, Uids;
    var t := Next(st, s);
    if s.DoReserve? {
      ReserveTracked(st, ages, s);
    } else if s.DoFreeResponses? {
      CleanTracked(st, ages, s.client);
    } else if s.DoDestroy? {
      DestroyEffect(st, s.client);
      SendingAfter(st, s);
      SameTracked(st, ages, t);
    } else {
      LastIdKept(st, s);
      SendingAfter(st, s);
      if s.DoGiveUp? || s.DoEnqueue? {
        WithoutTracked(st, ages, t, s.k);
      } else {
        SameTracked(st, ages, t);
      }
    }
  }

  lemma CleanTracked(st: State, ages: seq<nat>, client: int)
    requires AllTracked(st, ages) && client in st.clients
    ensures AllTracked(FreeResponses(st, client), Moved(st.sending, ages, client, Skipped(st.clients[client].lastId)))
  {
    hide Turns, Mine, Others, FailAll, Uids;
    var last := st.clients[client].lastId;
    SkippedTurns(last);
    MovedTracked(st, ages, client, Skipped(last), 0);
    SameTracked(SetClient(st, client, st.clients[client].(lastId := 0)), Moved(st.sending, ages, client, Skipped(last)),
                FreeResponses(st, client));
  }

  // ---------- runs ----------

  lemma {:induction false} RunTracked(st: State, ages: seq<nat>, steps: seq<Step>)
    requires AllTracked(st, ages) && CanRun(st, steps)
    ensures AllTracked(Run(st, steps), Ages(st, ages, steps))
    decreases |steps|
  {
    hide Tracked, Next, Enabled, Aged;
    if steps != [] {
      StepTracked(st, ages, steps[0]);
      RunTracked(Next(st, steps[0]), Aged(st, ages, steps[0]), steps[1..]);
    }
  }

  /** An id search is next, while the call at position k has an id of the client. */
  ghost predicate SearchesWhile(st: State, s: Step, k: nat) {
    && Enabled(st, s) && s.DoReserve? && s.token != 0
    && k < |st.sending| && Holds(st.sending[k], s.client)
  }

  /** How many ids it goes through. */
  ghost function Distance(st: State, s: Step, k: nat): (d: nat)
    requires SearchesWhile(st, s, k)
    ensures 1 <= d <= MAX_MSG_ID
  {
    hide UsedIds, TokenInUse, FirstFreeAfter;
    Passed(st.clients[s.client].lastId, s.token)
  }

  /**
    After any run, a search gives out the id of a call under way if and only if the ids gone through
    since that call was given it, with those of this search, make a whole number of turns.  Ids in use
    are gone through as well, and a session that is cleaned counts as going on to the largest id.
  */
  lemma HeldIdReturnedIff(steps: seq<Step>, s: Step, k: nat)
    requires CanRun(Initial(), steps) && SearchesWhile(Run(Initial(), steps), s, k)
    ensures var st := Run(Initial(), steps);
            st.sending[k].token == s.token <==> Turns(Ages(Initial(), [], steps)[k] + Distance(st, s, k))
  {
    hide CanRun, Run, Turns, SearchesWhile, Distance, Ages, Tracked;
    RunTracked(Initial(), [], steps);
    HeldIff(Run(Initial(), steps), Ages(Initial(), [], steps), s, k);
  }

  lemma HeldIff(st: State, ages: seq<nat>, s: Step, k: nat)
    requires AllTracked(st, ages) && SearchesWhile(st, s, k)
    ensures st.sending[k].token == s.token <==> Turns(ages[k] + Distance(st, s, k))
  {
    hide Turns, UsedIds, FirstFreeAfter;
    var held, last := st.sending[k].token, st.clients[s.client].lastId;
    assert Tracked(st.clients, st.sending[k], ages[k]);
    PassedTurns(last, s.token);
    TurnsAdd(held + ages[k] - last, last + Passed(last, s.token) - s.token);
    assert (held + ages[k] - last) + (last + Passed(last, s.token) - s.token)
        == held + (ages[k] + Passed(last, s.token)) - s.token;
    SameIdIff(held, s.token, ages[k] + Passed(last, s.token));
  }

  /** A search comes back, after whole turns, to an id given to a call that is still under way. */
  ghost predicate ComesRound(st: State, ages: seq<nat>, s: Step)
    requires Enabled(st, s) && |ages| == |st.sending|
  {
    s.DoReserve? && s.token != 0 &&
    exists k :: 0 <= k < |ages| && Holds(st.sending[k], s.client)
                && Turns(ages[k] + Passed(st.clients[s.client].lastId, s.token))
  }

  ghost predicate NeverRound(st: State, ages: seq<nat>, steps: seq<Step>)
    requires CanRun(st, steps) && |ages| == |st.sending|
    decreases |steps|
  {
    steps == []
    || (!ComesRound(st, ages, steps[0])
        && NeverRound(Next(st, steps[0]), Aged(st, ages, steps[0]), steps[1..]))
  }

  /** Ids are apart in every state of the run. */
  ghost predicate AlwaysDistinct(st: State, steps: seq<Step>)
    requires CanRun(st, steps)
    decreases |steps|
  {
    Distinct(st) && (steps == [] || AlwaysDistinct(Next(st, steps[0]), steps[1..]))
  }

  lemma StepDistinctIff(st: State, ages: seq<nat>, s: Step)
    requires Distinct(st) && AllTracked(st, ages) && Enabled(st, s)
    ensures Distinct(Next(st, s)) <==> !ComesRound(st, ages, s)
  {
    hide Distinct, Next;
    CarefulIff(st, ages, s);
    if Careful(st, s) {
      StepKeepsTokens(st, s);
    } else {
      SharedAtOnce(st, s);
    }
  }

  lemma CarefulIff(st: State, ages: seq<nat>, s: Step)
    requires AllTracked(st, ages) && Enabled(st, s)
    ensures Careful(st, s) <==> !ComesRound(st, ages, s)
  {
    hide Turns, UsedIds, FirstFreeAfter, Chosen, CountPublish, TokenInUse;
    if s.DoReserve? && s.token != 0 {
      forall k | 0 <= k < |ages| && Holds(st.sending[k], s.client)
        ensures st.sending[k].token == s.token
                <==> Turns(ages[k] + Passed(st.clients[s.client].lastId, s.token))
      {
        HeldIff(st, ages, s, k);
      }
    }
  }

  lemma SharedAtOnce(st: State, s: Step)
    requires Enabled(st, s) && !Careful(st, s)
    ensures !Distinct(Next(st, s))
  {
    hide UsedIds, FirstFreeAfter;
    var k :| 0 <= k < |st.sending| && st.sending[k].client == s.client && st.sending[k].token == s.token;
    var p := Pending(Next(st, s).sending);
    assert !Apart(p[k], p[|st.sending|]);
  }

  lemma {:induction false} RunDistinctIff(st: State, ages: seq<nat>, steps: seq<Step>)
    requires Distinct(st) && AllTracked(st, ages) && CanRun(st, steps)
    ensures AlwaysDistinct(st, steps) <==> NeverRound(st, ages, steps)
    ensures AlwaysDistinct(st, steps) ==> Distinct(Run(st, steps))
    decreases |steps|
  {
    hide Distinct, Tracked, Next, Enabled, Aged, ComesRound;
    if steps != [] {
      StepDistinctIff(st, ages, steps[0]);
      if Distinct(Next(st, steps[0])) {
        StepTracked(st, ages, steps[0]);
        RunDistinctIff(Next(st, steps[0]), Aged(st, ages, steps[0]), steps[1..]);
      }
    }
  }

  /** Over every run: ids are apart throughout if and only if no search comes round to the id of a call
      that is still under way. */
  lemma IdsApartIff(steps: seq<Step>)
    requires CanRun(Initial(), steps)
    ensures AlwaysDistinct(Initial(), steps) <==> NeverRound(Initial(), [], steps)
  {
    RunDistinctIff(Initial(), [], steps);
  }

  // ---------- what an application can see to ----------

  /** A session is not cleaned while a call of the client is under way, and no call is under way so long
      that the searches go through 65535 ids meanwhile. */
  ghost predicate Prompt(st: State, ages: seq<nat>, s: Step)
    requires Enabled(st, s) && |ages| == |st.sending|
  {
    && (s.DoFreeResponses? ==> forall k :: 0 <= k < |st.sending| ==> !Holds(st.sending[k], s.client))
    && (s.DoReserve? && s.token != 0 ==>
          forall k :: 0 <= k < |ages| && Holds(st.sending[k], s.client) ==>
            ages[k] + Passed(st.clients[s.client].lastId, s.token) < MAX_MSG_ID)
  }

  ghost predicate AlwaysPrompt(st: State, ages: seq<nat>, steps: seq<Step>)
    requires CanRun(st, steps) && |ages| == |st.sending|
    decreases |steps|
  {
    steps == []
    || (Prompt(st, ages, steps[0])
        && AlwaysPrompt(Next(st, steps[0]), Aged(st, ages, steps[0]), steps[1..]))
  }

  lemma {:induction false} PromptNeverRound(st: State, ages: seq<nat>, steps: seq<Step>)
    requires CanRun(st, steps) && |ages| == |st.sending| && AlwaysPrompt(st, ages, steps)
    ensures NeverRound(st, ages, steps)
    decreases |steps|
  {
    hide Next, Enabled, Aged;
    if steps != [] {
      assert Prompt(st, ages, steps[0]);
      PromptNeverRound(Next(st, steps[0]), Aged(st, ages, steps[0]), steps[1..]);
    }
  }

  /**
    With no session cleaned while a call of its client is under way, and fewer than 65535 ids gone
    through meanwhile, no id is shared after any run.
  */
  lemma IdsNeverShared(steps: seq<Step>, client: int)
    requires CanRun(Initial(), steps) && AlwaysPrompt(Initial(), [], steps)
    requires client in Run(Initial(), steps).clients
    ensures Unshared(Run(Initial(), steps), client)
  {
    hide Unshared, NeverRound, AlwaysPrompt;
    PromptNeverRound(Initial(), [], steps);
    RunDistinctIff(Initial(), [], steps);
    DistinctIsUnshared(Run(Initial(), steps), client);
  }

  ghost predicate WithinATurn(st: State, ages: seq<nat>) {
    |ages| == |st.sending| && forall k :: 0 <= k < |ages| ==> ages[k] < MAX_MSG_ID
  }

  lemma PromptWithin(st: State, ages: seq<nat>, s: Step)
    requires Enabled(st, s) && WithinATurn(st, ages) && Prompt(st, ages, s)
    ensures WithinATurn(Next(st, s), Aged(st, ages, s))
  {
    hide Next, UsedIds, TokenInUse, FirstFreeAfter, Chosen, CountPublish;
    var r := Aged(st, ages, s);
    forall k | 0 <= k < |r| ensures r[k] < MAX_MSG_ID {
      if s.DoGiveUp? || s.DoEnqueue? {
        assert r[k] == if k < s.k then ages[k] else ages[k + 1];
      }
    }
  }

  lemma {:induction false} RunWithin(st: State, ages: seq<nat>, steps: seq<Step>)
    requires CanRun(st, steps) && WithinATurn(st, ages) && AlwaysPrompt(st, ages, steps)
    ensures WithinATurn(Run(st, steps), Ages(st, ages, steps))
    decreases |steps|
  {
    hide Next, Enabled, Aged, Prompt;
    if steps != [] {
      PromptWithin(st, ages, steps[0]);
      RunWithin(Next(st, steps[0]), Aged(st, ages, steps[0]), steps[1..]);
    }
  }

  /** Then the bound is exact: the next search gives out the id of a call under way if and only if it
      completes one turn of the ids since. */
  lemma OneTurnSharesIff(steps: seq<Step>, s: Step, k: nat)
    requires CanRun(Initial(), steps) && AlwaysPrompt(Initial(), [], steps)
    requires SearchesWhile(Run(Initial(), steps), s, k)
    ensures var st := Run(Initial(), steps);
            st.sending[k].token == s.token <==> Ages(Initial(), [], steps)[k] + Distance(st, s, k) == MAX_MSG_ID
  {
    hide CanRun, Run, AlwaysPrompt, SearchesWhile, Tracked, Turns;
    RunTracked(Initial(), [], steps);
    RunWithin(Initial(), [], steps);
    OneTurnIff(Run(Initial(), steps), Ages(Initial(), [], steps), s, k);
  }

  lemma OneTurnIff(st: State, ages: seq<nat>, s: Step, k: nat)
    requires AllTracked(st, ages) && WithinATurn(st, ages) && SearchesWhile(st, s, k)
    ensures st.sending[k].token == s.token <==> ages[k] + Distance(st, s, k) == MAX_MSG_ID
  {
    hide Enabled, Tracked, Distance;
    HeldIff(st, ages, s, k);
    assert 1 <= ages[k] + Distance(st, s, k) < 2 * MAX_MSG_ID;
  }

  /** No call starts while another one of the client is under way. */
  ghost predicate OneAtATime(st: State, steps: seq<Step>)
    requires CanRun(st, steps)
    decreases |steps|
  {
    steps == []
    || ((steps[0].DoReserve? ==>
           forall k :: 0 <= k < |st.sending| ==> st.sending[k].client != steps[0].client)
        && OneAtATime(Next(st, steps[0]), steps[1..]))
  }

  lemma {:induction false} OneAtATimeNeverRound(st: State, ages: seq<nat>, steps: seq<Step>)
    requires CanRun(st, steps) && |ages| == |st.sending| && OneAtATime(st, steps)
    ensures NeverRound(st, ages, steps)
    decreases |steps|
  {
    hide Next, Enabled, Aged;
    if steps != [] {
      OneAtATimeNeverRound(Next(st, steps[0]), Aged(st, ages, steps[0]), steps[1..]);
    }
  }

  /** With one call at a time per client no id is shared after any run, however often sessions are cleaned. */
  lemma OneCallAtATimeNeverShares(steps: seq<Step>, client: int)
    requires CanRun(Initial(), steps) && OneAtATime(Initial(), steps)
    requires client in Run(Initial(), steps).clients
    ensures Unshared(Run(Initial(), steps), client)
  {
    hide Unshared, NeverRound, OneAtATime;
    OneAtATimeNeverRound(Initial(), [], steps);
    RunDistinctIff(Initial(), [], steps);
    DistinctIsUnshared(Run(Initial(), steps), client);
  }

  // ---------- what sharing leads to ----------

  /** The call at position k goes on to queue its command. */
  function Queueing(x: Send, k: nat): seq<Step> {
    if x.checked then [DoEnqueue(k)] else [DoCheck(k), DoEnqueue(k)]
  }

  /** The offline buffer has room for n more messages. */
  predicate RoomFor(info: ClientInfo, n: nat) {
    n == 0 || info.limit.None? || info.buffered + n <= info.limit.value
  }

  lemma EnqueueAppends(st: State, k: nat)
    requires Enabled(st, DoEnqueue(k)) && RoomFor(st.clients[st.sending[k].client], One(st.sending[k].kind.Publish?))
    ensures var t, x := Next(st, DoEnqueue(k)), st.sending[k];
            && t.commands == st.commands + [AsCommand(x, st.nextUid)] && t.sending == Without(st.sending, k)
            && x.client in t.clients
            && t.clients[x.client] ==
               st.clients[x.client].(buffered := st.clients[x.client].buffered + One(x.kind.Publish?))
  {
    hide Find;
  }

  /** With room in the buffer a call under way can always queue its command, and nothing is dropped. */
  lemma CallGoesOn(st: State, k: nat)
    requires k < |st.sending| && st.sending[k].client in st.clients && AppKind(st.sending[k].kind)
    requires st.sending[k].checked || st.sending[k].kind.Publish?
    requires RoomFor(st.clients[st.sending[k].client], One(st.sending[k].kind.Publish?))
    ensures var x := st.sending[k];
            && CanRun(st, Queueing(x, k))
            && var t := Run(st, Queueing(x, k));
            && t.commands == st.commands + [AsCommand(x, st.nextUid)] && t.sending == Without(st.sending, k)
            && x.client in t.clients
            && t.clients[x.client] ==
               st.clients[x.client].(buffered := st.clients[x.client].buffered + One(x.kind.Publish?))
  {
    hide CanRun, Run;
    var x := st.sending[k];
    if x.checked {
      EnqueueAppends(st, k);
      RunNothing(Next(st, DoEnqueue(k)));
      RunCons(st, DoEnqueue(k), []);
      assert [DoEnqueue(k)] + [] == [DoEnqueue(k)];
    } else {
      var t := Next(st, DoCheck(k));
      assert t.sending[k] == x.(checked := true) && Without(t.sending, k) == Without(st.sending, k);
      EnqueueAppends(t, k);
      RunNothing(Next(t, DoEnqueue(k)));
      RunCons(t, DoEnqueue(k), []);
      RunCons(st, DoCheck(k), [DoEnqueue(k)] + []);
      assert [DoCheck(k)] + ([DoEnqueue(k)] + []) == [DoCheck(k), DoEnqueue(k)];
    }
  }

  lemma TwoCallsGoOn(st: State, k: nat, n: nat)
    requires k < n && |st.sending| == n + 1 && st.sending[k].client == st.sending[n].client
    requires st.sending[n].client in st.clients
    requires AppKind(st.sending[k].kind) && (st.sending[k].checked || st.sending[k].kind.Publish?)
    requires AppKind(st.sending[n].kind) && (st.sending[n].checked || st.sending[n].kind.Publish?)
    requires RoomFor(
               st.clients[st.sending[n].client], One(st.sending[k].kind.Publish?) + One(st.sending[n].kind.Publish?))
    ensures var steps := Queueing(st.sending[k], k) + Queueing(st.sending[n], n - 1);
            && CanRun(st, steps) && CanRun(st, Queueing(st.sending[k], k))
            && Run(st, steps).commands
               == st.commands + [AsCommand(st.sending[k], st.nextUid)]
                  + [AsCommand(st.sending[n], Run(st, Queueing(st.sending[k], k)).nextUid)]
  {
    hide CanRun, Run;
    CallGoesOn(st, k);
    var t := Run(st, Queueing(st.sending[k], k));
    assert t.sending[n - 1] == st.sending[n];
    CallGoesOn(t, n - 1);
    RunConcat(st, Queueing(st.sending[k], k), Queueing(st.sending[n], n - 1));
  }

  lemma {:induction false} RunConcat(st: State, a: seq<Step>, b: seq<Step>)
    requires CanRun(st, a) && CanRun(Run(st, a), b)
    ensures CanRun(st, a + b) && Run(st, a + b) == Run(Run(st, a), b)
    decreases |a|
  {
    hide Enabled, Next;
    if a == [] {
      assert a + b == b;
    } else {
      RunConcat(Next(st, a[0]), a[1..], b);
      RunCons(st, a[0], a[1..] + b);
      assert [a[0]] + (a[1..] + b) == a + b;
    }
  }

  /**
    An id that a call under way holds leads to two queued commands with the same id.  Both calls, of
    whatever kind, have only to go on, with room in the buffer for those of them that are messages.
  */
  lemma HeldIdIsShared(st: State, s: Step, k: nat)
    requires SearchesWhile(st, s, k) && st.sending[k].token == s.token
    requires AppKind(st.sending[k].kind) && (st.sending[k].checked || st.sending[k].kind.Publish?)
    requires RoomFor(st.clients[s.client], One(st.sending[k].kind.Publish?) + One(s.kind.Publish?))
    ensures var steps := [s] + BothQueue(st, s, k);
            && CanRun(st, steps)
            && QueuedTwice(st.commands, Run(st, steps).commands, st.sending[k], s)
            && !Distinct(Run(st, steps))
  {
    hide CanRun, Run, UsedIds, TokenInUse, FirstFreeAfter, Distinct;
    var x, y, n := st.sending[k], Called(s), |st.sending|;
    var st1 := Next(st, s);
    assert st1.sending[k] == x && st1.sending[n] == y;
    TwoCallsGoOn(st1, k, n);
    RunCons(st, s, Queueing(x, k) + Queueing(y, n - 1));
    SameTokenTwice(Run(st1, Queueing(x, k) + Queueing(y, n - 1)), |st.commands|);
  }

  /** The call that an id search belongs to. */
  function Called(s: Step): Send
    requires s.DoReserve?
  {
    Send(s.client, s.kind, s.token, s.cb, !s.kind.Publish?)
  }

  /** After the search both calls queue their commands. */
  ghost function BothQueue(st: State, s: Step, k: nat): seq<Step>
    requires s.DoReserve? && k < |st.sending|
  {
    Queueing(st.sending[k], k) + Queueing(Called(s), |st.sending| - 1)
  }

  /** The queue has grown by two commands with one id. */
  ghost predicate QueuedTwice(before: seq<Command>, after: seq<Command>, x: Send, s: Step)
    requires s.DoReserve?
  {
    var m := |before|;
    && |after| == m + 2 && after[..m] == before
    && after[m].client == after[m + 1].client == s.client && after[m].token == after[m + 1].token == s.token
    && after[m].kind == x.kind && after[m + 1].kind == s.kind
  }

  lemma SameTokenTwice(st: State, m: nat)
    requires |st.commands| == m + 2 && st.commands[m].token == st.commands[m + 1].token != 0
    requires st.commands[m].client == st.commands[m + 1].client
    ensures !Distinct(st)
  {
    assert !Apart(st.commands[m], st.commands[m + 1]);
  }

  /** A client that has done nothing yet. */
  function NewClient(connected: bool): ClientInfo {
    ClientInfo(connected, true, false, [], 10, 0, None, false, 0, 0, None)
  }

  /** A state in which the only things are client 1 and its calls. */
  function OnlyCalls(sending: seq<Send>, info: ClientInfo): State {
    State([], [], sending, map[1 := info], 0, multiset{}, multiset{}, multiset{}, [], [])
  }

  /**
    It happens: the connection is lost and the session cleaned, which starts the ids from 1 again, while a
    call that has been given id 1 has not queued its command yet.  The next call is given 1 as well.
  */
  lemma CleanSessionSharesId(cb: Callbacks)
    ensures var reserve, up, down := DoReserve(1, Subscribe, 1, cb), DoLink(1, true, true), DoLink(1, false, true);
            var steps := [DoCreate(1, NewClient(false), [])]
                         + ([up] + ([reserve] + ([down] + ([DoFreeResponses(1)] + ([up]
                         + ([reserve] + [DoEnqueue(0), DoEnqueue(0)]))))));
            && CanRun(Initial(), steps)
            && Run(Initial(), steps).commands == [Command(0, 1, Subscribe, 1, cb), Command(1, 1, Subscribe, 1, cb)]
            && AlwaysLinked(Initial(), steps)
  {
    hide Enabled, Next, CanRun, Run, OnlyCalls, AlwaysLinked;
    var x := Send(1, Subscribe, 1, cb, true);
    var reserve, up, down := DoReserve(1, Subscribe, 1, cb), DoLink(1, true, true), DoLink(1, false, true);
    var clean := DoFreeResponses(1);
    var two := [DoEnqueue(0), DoEnqueue(0)];
    FirstCreated();
    Links([], NewClient(false), true);
    IdOneReserved([], cb);
    Links([x], NewClient(true).(lastId := 1), false);
    SessionCleaned([x]);
    Links([x], NewClient(false), true);
    IdOneReserved([x], cb);
    assert [] + [x] == [x] && [x] + [x] == [x, x];
    BothEnqueued(OnlyCalls([x, x], NewClient(true).(lastId := 1)), x, cb);
    LinkedCons(OnlyCalls([x], NewClient(true)), reserve, two);
    LinkedCons(OnlyCalls([x], NewClient(false)), up, [reserve] + two);
    LinkedCons(OnlyCalls([x], NewClient(false).(lastId := 1)), clean, [up] + ([reserve] + two));
    LinkedCons(OnlyCalls([x], NewClient(true).(lastId := 1)), down, [clean] + ([up] + ([reserve] + two)));
    LinkedCons(OnlyCalls([], NewClient(true)), reserve, [down] + ([clean] + ([up] + ([reserve] + two))));
    LinkedCons(OnlyCalls([], NewClient(false)), up, [reserve] + ([down] + ([clean] + ([up] + ([reserve] + two)))));
    LinkedCons(Initial(), DoCreate(1, NewClient(false), []),
               [up] + ([reserve] + ([down] + ([clean] + ([up] + ([reserve] + two))))));
  }

  /** Calls start only while their client is connected. */
  ghost predicate AlwaysLinked(st: State, steps: seq<Step>)
    requires CanRun(st, steps)
    decreases |steps|
  {
    steps == []
    || ((steps[0].DoReserve? ==> st.clients[steps[0].client].connected)
        && AlwaysLinked(Next(st, steps[0]), steps[1..]))
  }

  lemma LinkedCons(st: State, s: Step, steps: seq<Step>)
    requires Enabled(st, s) && CanRun(Next(st, s), steps) && AlwaysLinked(Next(st, s), steps)
    requires s.DoReserve? ==> s.client in st.clients && st.clients[s.client].connected
    ensures CanRun(st, [s] + steps) && Run(st, [s] + steps) == Run(Next(st, s), steps)
    ensures AlwaysLinked(st, [s] + steps)
  {
    hide Enabled, Next;
    assert ([s] + steps)[1..] == steps && ([s] + steps)[0] == s;
  }

  lemma FirstCreated()
    ensures var s := DoCreate(1, NewClient(false), []);
            Enabled(Initial(), s) && Next(Initial(), s) == OnlyCalls([], NewClient(false))
  {
    NothingToFree();
    assert CountPublish([], 1) == 0;
  }

  lemma Links(sending: seq<Send>, info: ClientInfo, connected: bool)
    requires info.idle
    ensures var st, s := OnlyCalls(sending, info), DoLink(1, connected, true);
            Enabled(st, s) && Next(st, s) == OnlyCalls(sending, info.(connected := connected))
  {
  }

  lemma FirstIdIsOne(sending: seq<Send>)
    ensures var st := OnlyCalls(sending, NewClient(true));
            st.clients[1].connected && FirstFreeAfter(st.clients[1].lastId, UsedIds(st, 1), 1)
  {
    var st := OnlyCalls(sending, NewClient(true));
    assert Nth(0, 1) == 1;
    assert UsedIds(st, 1) == {};
  }

  lemma IdOneReserved(sending: seq<Send>, cb: Callbacks)
    ensures var st, s := OnlyCalls(sending, NewClient(true)), DoReserve(1, Subscribe, 1, cb);
            && Enabled(st, s) && 1 in st.clients && st.clients[1].connected
            && Next(st, s) == OnlyCalls(sending + [Send(1, Subscribe, 1, cb, true)], NewClient(true).(lastId := 1))
  {
    hide FirstFreeAfter, UsedIds;
    FirstIdIsOne(sending);
  }

  lemma SessionCleaned(sending: seq<Send>)
    ensures var st, s := OnlyCalls(sending, NewClient(false).(lastId := 1)), DoFreeResponses(1);
            Enabled(st, s) && Next(st, s) == OnlyCalls(sending, NewClient(false))
  {
    NothingToFree();
  }

  lemma NothingToFree()
    ensures Mine([], 1) == [] && Others([], 1) == [] && FailAll([]) == [] && Uids([]) == multiset{}
  {
  }

  lemma BothEnqueued(st: State, x: Send, cb: Callbacks)
    requires x == Send(1, Subscribe, 1, cb, true) && st == OnlyCalls([x, x], NewClient(true).(lastId := 1))
    ensures CanRun(st, [DoEnqueue(0), DoEnqueue(0)]) && AlwaysLinked(st, [DoEnqueue(0), DoEnqueue(0)])
    ensures Run(st, [DoEnqueue(0), DoEnqueue(0)]).commands
         == [Command(0, 1, Subscribe, 1, cb), Command(1, 1, Subscribe, 1, cb)]
  {
    hide CanRun, Run, Find, Full, AlwaysLinked;
    var s1 := Next(st, DoEnqueue(0));
    assert s1.sending == [x] && s1.commands == [Command(0, 1, Subscribe, 1, cb)];
    var s2 := Next(s1, DoEnqueue(0));
    RunNothing(s2);
    assert AlwaysLinked(s2, []) by { LinkedNothing(s2); }
    LinkedCons(s1, DoEnqueue(0), []);
    LinkedCons(st, DoEnqueue(0), [DoEnqueue(0)] + []);
    assert [DoEnqueue(0)] + ([DoEnqueue(0)] + []) == [DoEnqueue(0), DoEnqueue(0)];
  }

  lemma LinkedNothing(st: State)
    ensures CanRun(st, []) && AlwaysLinked(st, [])
  {
  }
}
