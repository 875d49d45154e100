/**
  Message id allocation: MQTTProtocol_assignMsgId, which searches the outbound list, and
  MQTTAsync_assignMsgId, which searches the command queue and the responses as well.  used is the
  set of ids found in the searched lists.
*/
module MessageIds {

  const MAX_MSG_ID := 65535

  type MsgId = id: int | 0 <= id <= MAX_MSG_ID

  function NextId(id: int): int {
    if id == MAX_MSG_ID then 1 else id + 1
  }

  /** The id k steps after start, going round. */
  function Nth(start: MsgId, k: nat): int
    requires 1 <= k <= MAX_MSG_ID
  {
    if start + k <= MAX_MSG_ID then start + k else start + k - MAX_MSG_ID
  }

  lemma NthFacts(start: MsgId, k: nat)
    requires 1 <= k <= MAX_MSG_ID
    ensures 1 <= Nth(start, k) <= MAX_MSG_ID
    ensures k < MAX_MSG_ID ==> Nth(start, k + 1) == NextId(Nth(start, k))
    ensures start != 0 ==> (Nth(start, k) == start <==> k == MAX_MSG_ID)
  {
  }

  /** Every id is some number of steps after start. */
  lemma StepsTo(start: MsgId, id: int) returns (k: nat)
    requires 1 <= id <= MAX_MSG_ID
    ensures 1 <= k <= MAX_MSG_ID && Nth(start, k) == id
  {
    k := if id > start then id - start else id - start + MAX_MSG_ID;
  }

  /** A free id other than the last one issued. */
  ghost predicate SomeFree(last: MsgId, used: set<int>) {
    exists id :: 1 <= id <= MAX_MSG_ID && id != last && id !in used
  }

  /** The first id after last that is not in use. */
  ghost predicate FirstFreeAfter(last: MsgId, used: set<int>, id: int) {
    exists k :: 1 <= k <= MAX_MSG_ID && id == Nth(last, k) && id !in used
                && forall j :: 1 <= j < k ==> Nth(last, j) in used
  }

  /**
    Section 2.3.1 of MQTT 3.1.1.  The result is the first free id in cyclic order after the last one
    issued; it is 0, and the last id is kept, exactly when every other id is in use.  The
    precondition is exactly the condition under which the search ends: see SearchNeverEnds.
  */
  method AssignMsgId(last: MsgId, used: set<int>) returns (id: int, newLast: MsgId)
    requires last != 0 || SomeFree(last, used)
    ensures id != 0 <==> SomeFree(last, used)
    ensures id != 0 ==> 1 <= id <= MAX_MSG_ID && id != last && FirstFreeAfter(last, used, id)
    ensures newLast == if id != 0 then id else last
  {
    id := NextId(last);
    ghost var k := 1;
    while id in used
      invariant 1 <= k <= MAX_MSG_ID && id == Nth(last, k)
      invariant last != 0 ==> k < MAX_MSG_ID
      invariant forall j :: 1 <= j < k ==> Nth(last, j) in used
      decreases MAX_MSG_ID - k
    {
      NthFacts(last, k);
      if k == MAX_MSG_ID {
        AllTried(last, used, k);
        assert false;
      }
      id := NextId(id);
      k := k + 1;
      if id == last {
        NthFacts(last, k);
        AllTried(last, used, k - 1);
        id := 0;
        break;
      }
    }
    newLast := last;
    if id != 0 {
      NthFacts(last, k);
      newLast := id;
    }
  }

  lemma AllTried(last: MsgId, used: set<int>, k: nat)
    requires k == (if last == 0 then MAX_MSG_ID else MAX_MSG_ID - 1)
    requires forall j :: 1 <= j <= k ==> Nth(last, j) in used
    ensures !SomeFree(last, used)
  {
    forall id | 1 <= id <= MAX_MSG_ID && id != last ensures id in used {
      var j := StepsTo(last, id);
      NthFacts(last, j);
    }
  }

  /** The ids the loop visits when nothing stops it. */
  function Visit(last: MsgId, n: nat): int {
    if n == 0 then NextId(last) else NextId(Visit(last, n - 1))
  }

  /** With no id issued yet and none free the search goes round for ever: every id visited is in use
      and none of them is the start value. */
  lemma {:induction false} SearchNeverEnds(used: set<int>, n: nat)
    requires forall id :: 1 <= id <= MAX_MSG_ID ==> id in used
    ensures Visit(0, n) in used && NextId(Visit(0, n)) != 0 && 1 <= Visit(0, n) <= MAX_MSG_ID
  {
    if n > 0 {
      SearchNeverEnds(used, n - 1);
    }
  }
}
