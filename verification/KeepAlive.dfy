/** MQTTProtocol_keepalive over the life of a connection.  Times are in milliseconds. */
module KeepAlive {

  /** interval: the keep alive interval in milliseconds; closing: a close of the session has been requested. */
  datatype Link = Link(
    connected: bool, interval: nat, lastSent: int, lastReceived: int, lastPing: int, outstanding: bool, closing: bool)

  /** A call of MQTTProtocol_keepalive, with the state of the socket and the result of the write it may make;
      a packet read; a packet written. */
  datatype Event =
    | Check(time: int, pendingWrite: bool, complete: bool)
    | Receive(time: int, pingresp: bool)
    | Send(time: int)

  // ---------- one check ----------

  predicate Unanswered(l: Link, now: int) {
    l.connected && l.interval != 0 && l.outstanding && now - l.lastPing >= l.interval
  }

  predicate PingDue(l: Link, now: int) {
    && l.connected && l.interval != 0 && !l.outstanding
    && (now - l.lastSent >= l.interval || now - l.lastReceived >= l.interval)
  }

  function Checked(l: Link, now: int, pendingWrite: bool, complete: bool): Link {
    if Unanswered(l, now) then l.(closing := true)
    else if PingDue(l, now) && !pendingWrite then
      if complete then l.(lastSent := now, lastPing := now, outstanding := true) else l.(closing := true)
    else l
  }

  function Next(l: Link, e: Event): Link {
    match e
    case Check(now, pendingWrite, complete) => Checked(l, now, pendingWrite, complete)
    case Receive(now, pingresp) => l.(lastReceived := now, outstanding := l.outstanding && !pingresp)
    case Send(now) => l.(lastSent := now)
  }

  function After(l: Link, es: seq<Event>, n: nat): (r: Link)
    requires n <= |es|
  {
    if n == 0 then l else Next(After(l, es, n - 1), es[n - 1])
  }

  /** The clients of the process, and the loop over them. */
  class Client {
    var link: Link

    constructor (link: Link)
      ensures this.link == link
    {
      this.link := link;
    }
  }

  method Keepalive(clients: seq<Client>, now: int, pendingWrite: seq<bool>, complete: seq<bool>)
    requires |clients| == |pendingWrite| == |complete|
    requires forall i, j :: 0 <= i < j < |clients| ==> clients[i] != clients[j]
    modifies clients
    ensures forall i :: 0 <= i < |clients| ==>
              clients[i].link == Checked(old(clients[i].link), now, pendingWrite[i], complete[i])
  {
    var i := 0;
    while i < |clients|
      invariant 0 <= i <= |clients|
      invariant forall k :: 0 <= k < i ==>
                  clients[k].link == Checked(old(clients[k].link), now, pendingWrite[k], complete[k])
      invariant forall k :: i <= k < |clients| ==> clients[k].link == old(clients[k].link)
    {
      var client := clients[i];
      var l := client.link;
      if !l.connected || l.interval == 0 {
        // nothing to watch
      } else if l.outstanding {
        if now - l.lastPing >= l.interval {
          client.link := l.(closing := true);
        }
      } else if now - l.lastSent >= l.interval || now - l.lastReceived >= l.interval {
        if !pendingWrite[i] {
          if !complete[i] {
            client.link := l.(closing := true);
          } else {
            client.link := l.(lastSent := now, lastPing := now, outstanding := true);
          }
        }
      }
      i := i + 1;
    }
  }

  // ---------- runs ----------

  ghost predicate InTime(es: seq<Event>) {
    forall i, j :: 0 <= i < j < |es| ==> es[i].time <= es[j].time
  }

  /** Between from and until, no stretch longer than d passes without a check. */
  ghost predicate CheckedEvery(es: seq<Event>, from: int, until: int, d: nat) {
    forall t | from <= t && t + d <= until :: CheckedWithin(es, t, d)
  }

  ghost predicate CheckedWithin(es: seq<Event>, t: int, d: nat) {
    exists i :: 0 <= i < |es| && es[i].Check? && t <= es[i].time <= t + d
  }

  lemma NextCheck(es: seq<Event>, from: int, until: int, d: nat, t: int) returns (i: nat)
    requires CheckedEvery(es, from, until, d) && from <= t && t + d <= until
    ensures i < |es| && es[i].Check? && t <= es[i].time <= t + d
  {
    assert CheckedWithin(es, t, d);
    i :| 0 <= i < |es| && es[i].Check? && t <= es[i].time <= t + d;
  }

  /** Nothing is received, and no check finds a pending write. */
  ghost predicate Silent(es: seq<Event>) {
    forall i :: 0 <= i < |es| ==> !es[i].Receive? && (es[i].Check? ==> !es[i].pendingWrite)
  }

  ghost predicate Watching(l: Link, from: int) {
    && l.connected && l.interval > 0 && l.lastReceived <= from && (l.outstanding ==> l.lastPing <= from)
  }

  /** The first n events: once a check has come an interval after from a ping is out, it went out by
      from + interval + d, and no check has found it unanswered for an interval. */
  ghost predicate Progress(l: Link, es: seq<Event>, n: nat, from: int, d: nat)
    requires n <= |es|
  {
    var s := After(l, es, n);
    && s.connected && s.interval == l.interval && s.lastReceived <= from
    && (!s.closing ==>
          && (s.outstanding ==> s.lastPing <= from + l.interval + d)
          && (forall j :: 0 <= j < n && es[j].Check? && es[j].time >= from + l.interval ==> s.outstanding)
          && (s.outstanding ==> forall j :: 0 <= j < n && es[j].Check? ==> es[j].time < s.lastPing + l.interval))
  }

  /** While no ping is out, the check that has to come by from + interval + d is still to come. */
  lemma PingInTime(l: Link, es: seq<Event>, n: nat, from: int, until: int, d: nat)
    requires n < |es| && InTime(es) && from + l.interval + d <= until && CheckedEvery(es, from, until, d)
    requires Progress(l, es, n, from, d) && !After(l, es, n).closing && !After(l, es, n).outstanding
    ensures es[n].time <= from + l.interval + d
  {
    var i := NextCheck(es, from, until, d, from + l.interval);
    assert i >= n;
  }

  lemma {:induction false} ProgressHolds(l: Link, es: seq<Event>, n: nat, from: int, until: int, d: nat)
    requires n <= |es| && InTime(es) && Silent(es) && Watching(l, from)
    requires forall i :: 0 <= i < |es| ==> es[i].time > from
    requires from + l.interval + d <= until && CheckedEvery(es, from, until, d)
    ensures Progress(l, es, n, from, d)
  {
    if n > 0 {
      ProgressHolds(l, es, n - 1, from, until, d);
      var s, e := After(l, es, n - 1), es[n - 1];
      if !s.closing && !s.outstanding && e.Check? {
        PingInTime(l, es, n - 1, from, until, d);
      }
      ProgressStep(l, es, n, from, d);
    }
  }

  lemma ProgressStep(l: Link, es: seq<Event>, n: nat, from: int, d: nat)
    requires 0 < n <= |es| && InTime(es) && Silent(es) && l.interval > 0
    requires Progress(l, es, n - 1, from, d)
    requires var s := After(l, es, n - 1);
             !s.closing && !s.outstanding && es[n - 1].Check? ==> es[n - 1].time <= from + l.interval + d
    ensures Progress(l, es, n, from, d)
  {
    var s, e := After(l, es, n - 1), es[n - 1];
    var t := After(l, es, n);
    assert t == Next(s, e);
    if !t.closing && e.Check? && !s.outstanding {
      assert forall j :: 0 <= j < n ==> es[j].time <= e.time;
    }
  }

  /**
    The keep alive bound: when checks come at most d apart and find no pending writes, a client that
    receives nothing for twice the interval plus 2 d has had its session close requested.
  */
  lemma SilenceClosesSession(l: Link, es: seq<Event>, from: int, d: nat)
    requires InTime(es) && Silent(es) && Watching(l, from)
    requires forall i :: 0 <= i < |es| ==> es[i].time > from
    requires CheckedEvery(es, from, from + 2 * l.interval + 2 * d, d)
    ensures After(l, es, |es|).closing
  {
    var until := from + 2 * l.interval + 2 * d;
    ProgressHolds(l, es, |es|, from, until, d);
    var s := After(l, es, |es|);
    if !s.closing {
      var _ := NextCheck(es, from, until, d, from + l.interval);
      assert s.outstanding;
      var _ := NextCheck(es, from, until, d, if s.lastPing + l.interval < from then from else s.lastPing + l.interval);
    }
  }

  // ---------- something is always sent ----------

  /** The events up to moment u are the first n. */
  ghost predicate UpTo(es: seq<Event>, n: nat, u: int) {
    n <= |es| && forall i :: n <= i < |es| ==> es[i].time > u
  }

  ghost predicate NoPendingWrite(es: seq<Event>) {
    forall i :: 0 <= i < |es| && es[i].Check? ==> !es[i].pendingWrite
  }

  /** The link is watched, and its times lie in the past. */
  ghost predicate Started(l: Link, from: int) {
    l.connected && l.interval > 0 && l.lastSent <= from && (l.outstanding ==> l.lastPing <= l.lastSent)
  }

  /** Sending never goes back in time, a ping that is out was sent, and a close stays requested. */
  lemma {:induction false} SendingAdvances(l: Link, es: seq<Event>, m: nat, n: nat, from: int)
    requires m <= n <= |es| && InTime(es) && Started(l, from)
    requires forall i :: 0 <= i < |es| ==> es[i].time >= from
    ensures var a, b := After(l, es, m), After(l, es, n);
            && Started(b, if n == 0 then from else es[n - 1].time) && b.interval == l.interval
            && a.lastSent <= b.lastSent && (a.closing ==> b.closing)
  {
    hide Next, Started;
    if n > 0 {
      SendingAdvances(l, es, if m < n then m else n - 1, n - 1, from);
      var before := if n == 1 then from else es[n - 2].time;
      SendingStep(After(l, es, n - 1), es[n - 1], before);
    }
  }

  lemma SendingStep(s: Link, e: Event, from: int)
    requires Started(s, from) && e.time >= from
    ensures var t := Next(s, e);
            Started(t, e.time) && t.interval == s.interval && s.lastSent <= t.lastSent && (s.closing ==> t.closing)
  {
  }

  /** A check that finds nothing sent for an interval sends a ping, or requests the close. */
  lemma CheckActs(l: Link, es: seq<Event>, i: nat, from: int)
    requires i < |es| && InTime(es) && Started(l, from) && NoPendingWrite(es) && es[i].Check?
    requires forall j :: 0 <= j < |es| ==> es[j].time >= from
    requires es[i].time - After(l, es, i).lastSent >= l.interval
    ensures After(l, es, i + 1).closing || After(l, es, i + 1).lastSent == es[i].time
  {
    SendingAdvances(l, es, 0, i, from);
  }

  /**
    Section 3.1.2.10 of MQTT 3.1.1, the half of the client: with checks at most d apart that find no
    pending write, whatever is received and whenever else something is sent, at every moment of a run
    the close has been requested or the last packet went out at most the interval plus d ago.
  */
  lemma SomethingIsSent(l: Link, es: seq<Event>, n: nat, u: int, from: int, d: nat)
    requires InTime(es) && Started(l, from) && NoPendingWrite(es) && UpTo(es, n, u)
    requires forall i :: 0 <= i < |es| ==> es[i].time >= from
    requires CheckedEvery(es, from, u, d)
    ensures var s := After(l, es, n);
            || s.closing
            || u - (if s.lastSent > from then s.lastSent else from) <= l.interval + d
  {
    hide Next, After;
    var s := After(l, es, n);
    var last := if s.lastSent > from then s.lastSent else from;
    if !s.closing && u - last > l.interval + d {
      var i := NextCheck(es, from, u, d, last + l.interval);
      SendingAdvances(l, es, i, n, from);
      SendingAdvances(l, es, i + 1, n, from);
      CheckActs(l, es, i, from);
      assert false;
    }
  }

  /** The traces a ping leaves. */
  predicate PingLeft(s: Link, t: Link) {
    t.lastPing != s.lastPing || (t.outstanding && !s.outstanding)
  }

  /** In the first n events nothing was written, or nothing was read, later than an interval before now. */
  ghost predicate QuietFor(es: seq<Event>, n: nat, now: int, interval: nat)
    requires n <= |es|
  {
    || (forall k :: 0 <= k < n && es[k].Send? ==> now - es[k].time >= interval)
    || (forall k :: 0 <= k < n && es[k].Receive? ==> now - es[k].time >= interval)
  }

  lemma {:induction false} TimesKeepUp(l: Link, es: seq<Event>, n: nat)
    requires n <= |es| && InTime(es)
    requires forall k :: 0 <= k < |es| ==> l.lastSent <= es[k].time && l.lastReceived <= es[k].time
    ensures forall k :: 0 <= k < n && es[k].Send? ==> es[k].time <= After(l, es, n).lastSent
    ensures forall k :: 0 <= k < n && es[k].Receive? ==> es[k].time <= After(l, es, n).lastReceived
    ensures forall k :: n <= k < |es| ==>
              After(l, es, n).lastSent <= es[k].time && After(l, es, n).lastReceived <= es[k].time
  {
    if n > 0 {
      TimesKeepUp(l, es, n - 1);
    }
  }

  /** A ping goes out only at a check of a watched link, when none is out and nothing has been written, or
      nothing read, for an interval; and only that, or a packet written otherwise, counts as sent. */
  lemma PingOnlyWhenDue(l: Link, es: seq<Event>, n: nat)
    requires n < |es| && InTime(es)
    requires forall k :: 0 <= k < |es| ==> l.lastSent <= es[k].time && l.lastReceived <= es[k].time
    ensures var s, t, now := After(l, es, n), After(l, es, n + 1), es[n].time;
            && (PingLeft(s, t) ==>
                  && es[n].Check? && !es[n].pendingWrite && s.connected && s.interval > 0 && !s.outstanding
                  && QuietFor(es, n, now, s.interval) && t.lastSent == t.lastPing == now && t.outstanding)
            && (t.lastSent != s.lastSent ==> es[n].Send? || PingLeft(s, t))
  {
    TimesKeepUp(l, es, n);
  }

  // ---------- never without cause ----------

  predicate SendsPing(l: Link, e: Event) {
    e.Check? && !Unanswered(l, e.time) && PingDue(l, e.time) && !e.pendingWrite && e.complete
  }

  /** A ping went out as event j of the first n, and no PINGRESP has been read since. */
  ghost predicate PingOut(l: Link, es: seq<Event>, j: nat, n: nat)
    requires n <= |es|
  {
    && j < n && SendsPing(After(l, es, j), es[j])
    && (forall k :: j < k < n ==> !(es[k].Receive? && es[k].pingresp))
  }

  lemma {:induction false} OutstandingMeansPingOut(l: Link, es: seq<Event>, n: nat) returns (j: nat)
    requires n <= |es| && !l.outstanding && After(l, es, n).outstanding
    ensures PingOut(l, es, j, n) && es[j].time == After(l, es, n).lastPing
  {
    var s, e := After(l, es, n - 1), es[n - 1];
    if s.outstanding {
      j := OutstandingMeansPingOut(l, es, n - 1);
    } else {
      j := n - 1;
    }
  }

  /**
    A check requests the close only if its own ping could not be sent, or if a ping sent at least an
    interval ago has had no PINGRESP since.
  */
  lemma ClosesOnlyForCause(l: Link, es: seq<Event>, n: nat)
    requires n < |es| && !l.outstanding
    requires !After(l, es, n).closing && After(l, es, n + 1).closing
    ensures es[n].Check?
    ensures || (PingDue(After(l, es, n), es[n].time) && !es[n].pendingWrite && !es[n].complete)
            || (exists j: nat :: PingOut(l, es, j, n) && es[n].time - es[j].time >= After(l, es, n).interval)
  {
    var s, e := After(l, es, n), es[n];
    assert After(l, es, n + 1) == Next(s, e);
    if s.outstanding {
      var j := OutstandingMeansPingOut(l, es, n);
      assert PingOut(l, es, j, n) && e.time - es[j].time >= s.interval;
    }
  }
}
