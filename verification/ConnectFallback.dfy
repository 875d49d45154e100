/**
  Trying servers and protocol versions in turn: the CONNECT command carries the index of the server
  and the version of the last attempt; an attempt fails either at once, in MQTTAsync_processCommand,
  or later, in nextOrClose.
*/
module ConnectFallback {

  const DEFAULT := 0
  const V3_1 := 3
  const V3_1_1 := 4

  datatype Conn = Conn(uri: nat, version: int)

  /** fixed: the version asked for, or DEFAULT; n: how many server URIs were given, 0 for the one at creation. */
  datatype Options = Options(fixed: int, n: nat)

  /** server: index in the list, or -1 for the URI given at creation. */
  datatype Attempt = Attempt(server: int, version: int)

  /** A queued CONNECT command, an attempt under way, or all attempts over. */
  datatype Phase = Queued(command: Conn) | Waiting(connect: Conn) | Over(last: Conn)

  datatype State = State(phase: Phase, attempts: seq<Attempt>, reports: nat)

  datatype Event = Process(refused: bool) | LateFailure

  // ---------- the code ----------

  /** The version choice in MQTTAsync_processCommand. */
  function Chosen(o: Options, c: Conn): Conn {
    if o.fixed != DEFAULT then c.(version := o.fixed)
    else if c.version == DEFAULT then c.(version := V3_1_1)
    else if c.version == V3_1_1 then c.(version := V3_1)
    else c
  }

  function Server(o: Options, c: Conn): int {
    if o.n > 0 && c.uri < o.n then c.uri else -1
  }

  /** MQTTAsync_checkConn. */
  predicate More(o: Options, c: Conn) {
    c.uri + 1 < o.n || (c.version == V3_1_1 && o.fixed == DEFAULT)
  }

  function Advance(o: Options, c: Conn): Conn {
    if o.fixed != DEFAULT then c.(uri := c.uri + 1)
    else if c.version == V3_1 then Conn(c.uri + 1, DEFAULT)
    else c
  }

  /** A failed attempt: the next one is queued, or the failure is reported. */
  function Failed(o: Options, c: Conn, st: State): State {
    if More(o, c) then st.(phase := Queued(Advance(o, c))) else st.(phase := Over(c), reports := st.reports + 1)
  }

  predicate Enabled(st: State, e: Event) {
    match e
    case Process(_) => st.phase.Queued?
    case LateFailure => st.phase.Waiting?
  }

  function Next(o: Options, st: State, e: Event): State
    requires Enabled(st, e)
  {
    match e
    case Process(refused) =>
      var c := Chosen(o, st.phase.command);
      var st1 := st.(phase := Waiting(c), attempts := st.attempts + [Attempt(Server(o, c), c.version)]);
      if refused then Failed(o, c, st1) else st1
    case LateFailure => Failed(o, st.phase.connect, st)
  }

  predicate CanRun(o: Options, st: State, es: seq<Event>)
    decreases |es|, 0
  {
    es == [] || (CanRun(o, st, es[..|es| - 1]) && Enabled(Run(o, st, es[..|es| - 1]), es[|es| - 1]))
  }

  function Run(o: Options, st: State, es: seq<Event>): State
    requires CanRun(o, st, es)
    decreases |es|, 1
  {
    if es == [] then st else Next(o, Run(o, st, es[..|es| - 1]), es[|es| - 1])
  }

  /** MQTTAsync_connect: from the first server on. */
  function Start(): State {
    State(Queued(Conn(0, DEFAULT)), [], 0)
  }

  /** The automatic reconnect in MQTTAsync_checkTimeouts: only the version starts again. */
  function Retry(o: Options, st: State): State
    requires st.phase.Over?
  {
    State(Queued(if o.fixed == DEFAULT then st.phase.last.(version := DEFAULT) else st.phase.last), [], 0)
  }

  /** The handle whose fields the two failure paths and the timer change. */
  class Connecting {
    const o: Options
    var phase: Phase
    var attempts: seq<Attempt>
    var reports: nat

    ghost function View(): State
      reads this
    {
      State(phase, attempts, reports)
    }

    constructor (o: Options)
      ensures View() == Start() && this.o == o
    {
      this.o := o;
      phase, attempts, reports := Queued(Conn(0, DEFAULT)), [], 0;
    }

    /** The CONNECT branch of MQTTAsync_processCommand; refused: the attempt fails at once.  In a round that
        began at server u it makes exactly the attempt whose turn it is. */
    method ProcessConnect(refused: bool, ghost u: nat)
      requires phase.Queued?
      modifies this
      ensures View() == Next(o, old(View()), Process(refused))
      ensures OnPlan(o, u, old(View())) ==>
                OnPlan(o, u, View()) && attempts == old(attempts) + [Planned(o, u, |old(attempts)|)]
    {
      ghost var st := View();
      var command := phase.command;
      var server: int := -1;
      if o.n > 0 {
        if command.uri < o.n {
          server := command.uri;
        }
      }
      if o.fixed == DEFAULT {
        if command.version == DEFAULT {
          command := command.(version := V3_1_1);
        } else if command.version == V3_1_1 {
          command := command.(version := V3_1);
        }
      } else {
        command := command.(version := o.fixed);
      }
      attempts := attempts + [Attempt(server, command.version)];
      phase := Waiting(command);
      if OnPlan(o, u, st) {
        ChosenIsTried(o, u, |st.attempts|, st.phase.command);
        NextOnPlan(o, u, st, Process(refused));
      }
      if refused {
        NextOrClose(u);
      }
    }

    /** nextOrClose, and the same steps at the end of MQTTAsync_processCommand: another attempt is queued exactly
        when the round is not complete. */
    method NextOrClose(ghost u: nat)
      requires phase.Waiting?
      modifies this
      ensures View() == Failed(o, old(phase).connect, old(View()))
      ensures OnPlan(o, u, old(View())) ==> OnPlan(o, u, View()) && (phase.Queued? <==> |attempts| < Total(o, u))
    {
      if OnPlan(o, u, View()) {
        FailedOnPlan(o, u, View());
      }
      var conn := phase.connect;
      if More(o, conn) {
        if o.fixed == DEFAULT {
          if conn.version == V3_1 {
            conn := Conn(conn.uri + 1, DEFAULT);
          }
        } else {
          conn := conn.(uri := conn.uri + 1);
        }
        phase := Queued(conn);
      } else {
        reports := reports + 1;
        phase := Over(conn);
      }
    }
  }

  // ---------- what it amounts to ----------

  function Servers(o: Options): nat {
    if o.n == 0 then 1 else o.n
  }

  /** Attempts per server. */
  function Each(o: Options): nat {
    if o.fixed == DEFAULT then 2 else 1
  }

  /** The attempt number k of a round that starts at server u. */
  function Planned(o: Options, u: nat, k: nat): Attempt {
    Attempt(if o.n == 0 then -1 else u + k / Each(o),
            if o.fixed != DEFAULT then o.fixed else if k % 2 == 0 then V3_1_1 else V3_1)
  }

  function Total(o: Options, u: nat): int {
    Each(o) * (Servers(o) - u)
  }

  /** What the command carries when k attempts have been made. */
  function Carried(o: Options, u: nat, k: nat): Conn {
    if o.fixed != DEFAULT then Conn(u + k, o.fixed) else Conn(u + k / 2, if k % 2 == 0 then DEFAULT else V3_1_1)
  }

  /** The command after the attempt number k was chosen. */
  function Tried(o: Options, u: nat, k: nat): Conn {
    Conn(u + k / Each(o), Planned(o, u, k).version)
  }

  /** A queued command on its way: with a fixed version what it carries as version does not matter. */
  ghost predicate SameAim(o: Options, a: Conn, b: Conn) {
    a.uri == b.uri && (o.fixed == DEFAULT ==> a.version == b.version)
  }

  ghost predicate OnPlan(o: Options, u: nat, st: State) {
    var k := |st.attempts|;
    && (forall i :: 0 <= i < k ==> st.attempts[i] == Planned(o, u, i))
    && match st.phase
       case Queued(c) => k < Total(o, u) && SameAim(o, c, Carried(o, u, k)) && st.reports == 0
       case Waiting(c) => 0 < k <= Total(o, u) && c == Tried(o, u, k - 1) && st.reports == 0
       case Over(c) => 0 < k == Total(o, u) && c == Tried(o, u, k - 1) && st.reports == 1
  }

  lemma ChosenIsTried(o: Options, u: nat, k: nat, c: Conn)
    requires SameAim(o, c, Carried(o, u, k)) && k < Total(o, u)
    ensures Chosen(o, c) == Tried(o, u, k) && Attempt(Server(o, Chosen(o, c)), Chosen(o, c).version) == Planned(o, u, k)
  {
  }

  lemma MoreWhileUnfinished(o: Options, u: nat, k: nat)
    requires 0 < k <= Total(o, u)
    ensures More(o, Tried(o, u, k - 1)) <==> k < Total(o, u)
    ensures SameAim(o, Advance(o, Tried(o, u, k - 1)), Carried(o, u, k))
  {
  }

  lemma FailedOnPlan(o: Options, u: nat, st: State)
    requires st.phase.Waiting? && OnPlan(o, u, st)
    ensures OnPlan(o, u, Failed(o, st.phase.connect, st))
  {
    hide Total, Planned, Tried, Carried, Advance, More;
    MoreWhileUnfinished(o, u, |st.attempts|);
  }

  lemma NextOnPlan(o: Options, u: nat, st: State, e: Event)
    requires OnPlan(o, u, st) && Enabled(st, e)
    ensures OnPlan(o, u, Next(o, st, e))
  {
    match e
    case Process(refused) =>
      var k := |st.attempts|;
      ChosenIsTried(o, u, k, st.phase.command);
      var st1 := Next(o, st, Process(false));
      assert OnPlan(o, u, st1) by { hide Total, Planned, Tried, Carried, Chosen, Server; }
      FailedOnPlan(o, u, st1);
    case LateFailure => FailedOnPlan(o, u, st);
  }

  lemma {:induction false} RunOnPlan(o: Options, u: nat, st: State, es: seq<Event>)
    requires OnPlan(o, u, st) && CanRun(o, st, es)
    ensures OnPlan(o, u, Run(o, st, es))
  {
    if es != [] {
      RunOnPlan(o, u, st, es[..|es| - 1]);
      NextOnPlan(o, u, Run(o, st, es[..|es| - 1]), es[|es| - 1]);
    }
  }

  /**
    Whatever mixture of immediate and late failures: the attempts are those of the plan, in order,
    none twice, never past the end of the list; and the failure is reported, once, exactly after
    2 * max(1, n) attempts with the default version or max(1, n) with a fixed one.
  */
  lemma EveryServerAndVersionOnce(o: Options, es: seq<Event>)
    requires CanRun(o, Start(), es)
    ensures var st := Run(o, Start(), es);
            && |st.attempts| <= Total(o, 0)
            && (forall i :: 0 <= i < |st.attempts| ==>
                 st.attempts[i] == Planned(o, 0, i) && st.attempts[i].server < o.n)
            && (forall i, j :: 0 <= i < j < |st.attempts| ==> st.attempts[i] != st.attempts[j])
            && (st.reports > 0 <==> st.phase.Over?) && st.reports <= 1
            && (st.phase.Over? ==> |st.attempts| == Total(o, 0))
            && (|st.attempts| == Total(o, 0) ==> !st.phase.Queued?)
  {
    RunOnPlan(o, 0, Start(), es);
    var st := Run(o, Start(), es);
    forall i | 0 <= i < |st.attempts| ensures st.attempts[i].server < o.n {
      ServerInRange(o, i);
    }
    forall i, j | 0 <= i < j < |st.attempts| ensures st.attempts[i] != st.attempts[j] {
      PlanDistinct(o, i, j);
    }
  }

  lemma ServerInRange(o: Options, k: nat)
    requires k < Total(o, 0)
    ensures Planned(o, 0, k).server < o.n
  {
  }

  lemma PlanDistinct(o: Options, i: nat, j: nat)
    requires i < j < Total(o, 0)
    ensures Planned(o, 0, i) != Planned(o, 0, j)
  {
    assert o.n == 0 && o.fixed == DEFAULT ==> i == 0 && j == 1;
    assert o.fixed == DEFAULT && i / 2 == j / 2 ==> i % 2 != j % 2;
  }

  /** A round always ends: every event brings the end closer. */
  function Left(o: Options, u: nat, st: State): int {
    2 * (Total(o, u) - |st.attempts|) + if st.phase.Waiting? then 1 else 0
  }

  lemma RoundEnds(o: Options, u: nat, st: State, e: Event)
    requires OnPlan(o, u, st) && Enabled(st, e)
    ensures 0 <= Left(o, u, Next(o, st, e)) < Left(o, u, st)
  {
    hide Planned, Tried, Carried;
    NextOnPlan(o, u, st, e);
  }

  /**
    After a round that failed altogether, the automatic reconnect does not start at the first server
    again: it tries the last one only, once per version.
  */
  lemma RetryStaysAtLastServer(o: Options, es: seq<Event>, more: seq<Event>)
    requires CanRun(o, Start(), es) && Run(o, Start(), es).phase.Over?
    requires CanRun(o, Retry(o, Run(o, Start(), es)), more)
    ensures var st := Run(o, Retry(o, Run(o, Start(), es)), more);
            && |st.attempts| <= Each(o)
            && (forall i :: 0 <= i < |st.attempts| ==> st.attempts[i].server == o.n - 1)
            && (st.phase.Over? ==> |st.attempts| == Each(o) && st.reports == 1)
  {
    RunOnPlan(o, 0, Start(), es);
    var st := Retry(o, Run(o, Start(), es));
    var u := Servers(o) - 1;
    LastServer(o);
    assert OnPlan(o, u, st);
    RunOnPlan(o, u, st, more);
    var t := Run(o, st, more);
    assert Total(o, u) == Each(o);
    forall i | 0 <= i < |t.attempts| ensures t.attempts[i].server == o.n - 1 {
      assert t.attempts[i] == Planned(o, u, i);
      assert i / Each(o) == 0;
    }
  }

  lemma LastServer(o: Options)
    ensures Tried(o, 0, Total(o, 0) - 1).uri == Servers(o) - 1 && Total(o, 0) >= 1
  {
  }
}
