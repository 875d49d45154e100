/** The text of the store's keys: a stem followed by a decimal number, sprintf(key, "%s%d", stem, id). */
module StoreKeys {

  datatype Family = SentPublish | SentPubrel | ReceivedPublish | Command | Queue

  function Stem(f: Family, v5: bool): string {
    match f
    case SentPublish => if v5 then "s5-" else "s-"
    case SentPubrel => if v5 then "sc5-" else "sc-"
    case ReceivedPublish => if v5 then "r5-" else "r-"
    case Command => if v5 then "c5-" else "c-"
    case Queue => if v5 then "q5-" else "q-"
  }

  function DigitChar(d: nat): char
    requires d < 10
  {
    '0' + d as char
  }

  function DigitValue(c: char): int {
    c as int - '0' as int
  }

  predicate IsDigit(c: char) {
    '0' <= c <= '9'
  }

  /** "%d" and "%u" of a non-negative number. */
  function Decimal(n: nat): (s: string)
    ensures |s| >= 1 && forall i :: 0 <= i < |s| ==> IsDigit(s[i])
  {
    if n < 10 then [DigitChar(n)] else Decimal(n / 10) + [DigitChar(n % 10)]
  }

  /** atoi on a string of digits. */
  function Atoi(s: string): int {
    if s == [] then 0 else 10 * Atoi(s[..|s| - 1]) + DigitValue(s[|s| - 1])
  }

  lemma {:induction false} AtoiInvertsDecimal(n: nat)
    ensures Atoi(Decimal(n)) == n
  {
    if n < 10 {
      assert [DigitChar(n)][..0] == [];
      assert Atoi([]) == 0;
    } else {
      AtoiInvertsDecimal(n / 10);
      var s := Decimal(n / 10) + [DigitChar(n % 10)];
      assert s[..|s| - 1] == Decimal(n / 10);
    }
  }

  function KeyText(f: Family, v5: bool, n: nat): string {
    Stem(f, v5) + Decimal(n)
  }

  /** strncmp(key, stem, strlen(stem)) == 0. */
  predicate HasStem(key: string, stem: string) {
    |stem| <= |key| && key[..|stem|] == stem
  }

  /** strchr(key, '-') + 1. */
  function AfterDash(key: string): string {
    if key == [] then [] else if key[0] == '-' then key[1..] else AfterDash(key[1..])
  }

  /** A key is recognised by exactly its own stem. */
  lemma StemDecides(f: Family, v5: bool, n: nat, g: Family, w5: bool)
    ensures HasStem(KeyText(f, v5, n), Stem(g, w5)) <==> f == g && v5 == w5
  {
    var k := KeyText(f, v5, n);
    var d := Decimal(n);
    assert IsDigit(d[0]);
    assert k[..|Stem(f, v5)|] == Stem(f, v5) && k[|Stem(f, v5)|] == d[0];
    if HasStem(k, Stem(g, w5)) {
      var p, q := Stem(f, v5), Stem(g, w5);
      assert q[0] == k[0] && p[0] == k[0];
      assert q[1] == k[1] && p[1] == k[1];
      if |q| > 2 { assert q[2] == k[2]; }
      if |p| > 2 { assert p[2] == k[2]; }
      if |q| > 3 { assert q[3] == k[3]; }
    }
  }

  lemma {:induction false} AfterFirstDash(s: string, d: string)
    requires s != [] && s[|s| - 1] == '-' && forall i :: 0 <= i < |s| - 1 ==> s[i] != '-'
    ensures AfterDash(s + d) == d
  {
    if |s| == 1 {
      assert (s + d)[1..] == d;
    } else {
      assert (s + d)[1..] == s[1..] + d;
      AfterFirstDash(s[1..], d);
    }
  }

  lemma DashSplits(f: Family, v5: bool, n: nat)
    ensures AfterDash(KeyText(f, v5, n)) == Decimal(n)
  {
    AfterFirstDash(Stem(f, v5), Decimal(n));
  }

  /** Different records have different keys, and the number can be read back from the key. */
  lemma KeyTextInjective(f: Family, v5: bool, n: nat, g: Family, w5: bool, m: nat)
    ensures KeyText(f, v5, n) == KeyText(g, w5, m) ==> f == g && v5 == w5 && n == m
    ensures Atoi(AfterDash(KeyText(f, v5, n))) == n
  {
    StemDecides(f, v5, n, g, w5);
    StemDecides(g, w5, m, g, w5);
    DashSplits(f, v5, n);
    DashSplits(g, w5, m);
    AtoiInvertsDecimal(n);
    AtoiInvertsDecimal(m);
  }

  /** The keys as they can be read in the directory of a store. */
  lemma KeysInTheStore()
    ensures KeyText(SentPublish, false, 407) == "s-407" && KeyText(SentPublish, true, 407) == "s5-407"
    ensures KeyText(SentPubrel, false, 407) == "sc-407" && KeyText(SentPubrel, true, 407) == "sc5-407"
    ensures KeyText(ReceivedPublish, false, 407) == "r-407" && KeyText(ReceivedPublish, true, 407) == "r5-407"
    ensures KeyText(Command, false, 407) == "c-407" && KeyText(Command, true, 407) == "c5-407"
    ensures KeyText(Queue, false, 407) == "q-407" && KeyText(Queue, true, 407) == "q5-407"
  {
    assert Decimal(4) == "4" && Decimal(40) == "40" && Decimal(407) == "407";
  }
}
