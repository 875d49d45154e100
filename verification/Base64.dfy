/** The portable branch of Base64.c: bytes and characters are eight bits wide. */
module Base64 {

  const UINT := 0x1_0000_0000

  /** NV in the decode table, and the index of '=' in the encode table. */
  const NV: bv8 := 64

  const EQUALS: bv8 := 61

  /** The encode table. */
  function EncodeChar(c: bv8): bv8 {
    if c < 26 then c + 65 else if c < 52 then c + 71 else if c < 62 then c - 4
    else if c == 62 then 43 else if c == 63 then 47 else EQUALS
  }

  /** The decode table. */
  function DecodeChar(ch: bv8): bv8 {
    if 65 <= ch <= 90 then ch - 65 else if 97 <= ch <= 122 then ch - 71 else if 48 <= ch <= 57 then ch + 4
    else if ch == 43 then 62 else if ch == 47 then 63 else NV
  }

  lemma CharRoundTrip(c: bv8)
    ensures c < 64 ==> DecodeChar(EncodeChar(c)) == c
    ensures DecodeChar(EncodeChar(NV)) == NV
  {
  }

  /** The alphabet is a bijection: every accepted character is the encoding of its value. */
  lemma CharRoundTripBack(ch: bv8)
    ensures DecodeChar(ch) < 64 ==> EncodeChar(DecodeChar(ch)) == ch
    ensures DecodeChar(ch) <= NV
  {
  }

  /** Table 1 of RFC 4648. */
  lemma AlphabetIsStandard(c: bv8)
    ensures var n, ch := c as int, EncodeChar(c) as int;
            && (n < 26 ==> ch == 'A' as int + n) && (26 <= n < 52 ==> ch == 'a' as int + n - 26)
            && (52 <= n < 62 ==> ch == '0' as int + n - 52)
            && (n == 62 ==> ch == '+' as int) && (n == 63 ==> ch == '/' as int) && (n == 64 ==> ch == '=' as int)
  {
  }

  // ---------- one group ----------

  function E0(a: bv8): bv8 { (a & !0x3) >> 2 }

  function E1(a: bv8, b: bv8): bv8 { ((a & 0x3) << 4) | ((b & !0xF) >> 4) }

  function E2(b: bv8, c: bv8): bv8 { ((b & 0xF) << 2) | ((c & !0x3F) >> 6) }

  function E3(c: bv8): bv8 { c & 0x3F }

  function D0(p: bv8, q: bv8): bv8 { (p << 2) | ((q & !0xF) >> 4) }

  function D1(q: bv8, r: bv8): bv8 { ((q & 0xF) << 4) | ((r & !0x3) >> 2) }

  function D2(r: bv8, s: bv8): bv8 { ((r & 0x3) << 6) | s }

  lemma Sextets(a: bv8, b: bv8, c: bv8)
    ensures E0(a) < 64 && E1(a, b) < 64 && E2(b, c) < 64 && E3(c) < 64
  {
  }

  lemma GroupRoundTrip(a: bv8, b: bv8, c: bv8)
    ensures D0(E0(a), E1(a, b)) == a && D1(E1(a, b), E2(b, c)) == b && D2(E2(b, c), E3(c)) == c
  {
  }

  /** Section 4 of RFC 4648: the 24 bits of a group, six at a time, most significant first. */
  lemma GroupIsStandard(a: bv8, b: bv8, c: bv8)
    ensures var w := (a as bv24 << 16) | (b as bv24 << 8) | c as bv24;
            && E0(a) as bv24 == w >> 18 && E1(a, b) as bv24 == (w >> 12) & 0x3F
            && E2(b, c) as bv24 == (w >> 6) & 0x3F && E3(c) as bv24 == w & 0x3F
  {
  }

  /** The four characters of the group at the head of the input. */
  function Group(x: seq<bv8>): (r: seq<bv8>)
    requires x != []
    ensures |r| == 4
  {
    var b := if |x| > 1 then x[1] else 0;
    var c := if |x| > 2 then x[2] else 0;
    [EncodeChar(E0(x[0])), EncodeChar(E1(x[0], b)),
     if |x| > 1 then EncodeChar(E2(b, c)) else EQUALS,
     if |x| > 2 then EncodeChar(E3(c)) else EQUALS]
  }

  // ---------- whole strings ----------

  function Encode(x: seq<bv8>): seq<bv8> {
    if x == [] then [] else Group(x) + if |x| <= 3 then [] else Encode(x[3..])
  }

  /** How many characters an encoding of n bytes has. */
  function Need(n: nat): nat {
    4 * ((n + 2) / 3)
  }

  lemma {:induction false} EncodedLength(x: seq<bv8>)
    ensures |Encode(x)| == Need(|x|)
  {
    if |x| > 3 {
      EncodedLength(x[3..]);
    }
  }

  /** Section 10 of RFC 4648: "foobar" gives "Zm9vYmFy", "fooba" gives "Zm9vYmE=", "f" gives "Zg==". */
  lemma TestVectors()
    ensures Encode([102, 111, 111, 98, 97, 114]) == [90, 109, 57, 118, 89, 109, 70, 121]
    ensures Encode([102, 111, 111, 98, 97]) == [90, 109, 57, 118, 89, 109, 69, 61]
    ensures Encode([102]) == [90, 103, 61, 61]
  {
    var x, y: seq<bv8> := [102, 111, 111, 98, 97, 114], [102, 111, 111, 98, 97];
    assert x[3..] == [98, 97, 114] && y[3..] == [98, 97];
    assert Group(x) == [90, 109, 57, 118] && Group(y) == [90, 109, 57, 118];
    assert Encode([98, 97, 114]) == [89, 109, 70, 121] && Encode([98, 97]) == [89, 109, 69, 61];
  }

  /** The bytes of one group: fewer than three where there is padding (or no character of the alphabet),
      or no room. */
  function Ungroup(p: bv8, q: bv8, r: bv8, t: bv8, room: nat): (g: seq<bv8>)
    requires room > 0
    ensures 1 <= |g| <= 3 && |g| <= room
  {
    if room == 1 || r >= NV then [D0(p, q)]
    else if room == 2 || t >= NV then [D0(p, q), D1(q, r)]
    else [D0(p, q), D1(q, r), D2(r, t)]
  }

  /** What Base64_decode writes when room bytes may be written. */
  function Decode(s: seq<bv8>, room: nat): seq<bv8> {
    if |s| < 4 || room == 0 then []
    else
      var g := Ungroup(DecodeChar(s[0]), DecodeChar(s[1]), DecodeChar(s[2]), DecodeChar(s[3]), room);
      g + if |g| < 3 then [] else Decode(s[4..], room - 3)
  }

  lemma DecodesGroup(x: seq<bv8>)
    requires x != []
    ensures var b, c := if |x| > 1 then x[1] else 0, if |x| > 2 then x[2] else 0;
            var g := Group(x);
            var p, q, r, t := DecodeChar(g[0]), DecodeChar(g[1]), DecodeChar(g[2]), DecodeChar(g[3]);
            && D0(p, q) == x[0]
            && (|x| > 1 ==> r < NV && D1(q, r) == b) && (|x| == 1 ==> r == NV)
            && (|x| > 2 ==> t < NV && D2(r, t) == c) && (|x| <= 2 ==> t == NV)
  {
    hide E0, E1, E2, E3, D0, D1, D2, EncodeChar, DecodeChar;
    var b, c := if |x| > 1 then x[1] else 0, if |x| > 2 then x[2] else 0;
    Sextets(x[0], b, c);
    GroupRoundTrip(x[0], b, c);
    CharRoundTrip(E0(x[0]));
    CharRoundTrip(E1(x[0], b));
    CharRoundTrip(E2(b, c));
    CharRoundTrip(E3(c));
    EqualsIsPad();
  }

  lemma EqualsIsPad()
    ensures EncodeChar(NV) == EQUALS && DecodeChar(EQUALS) == NV
  {
  }

  /** The group at the head of the input, decoded. */
  lemma UngroupsGroup(x: seq<bv8>, room: nat)
    requires 0 < |x| <= room
    ensures var g := Group(x);
            Ungroup(DecodeChar(g[0]), DecodeChar(g[1]), DecodeChar(g[2]), DecodeChar(g[3]), room)
            == if |x| < 3 then x else x[..3]
  {
    hide D0, D1, D2, DecodeChar, Group;
    DecodesGroup(x);
  }

  lemma DecodePrepends(g: seq<bv8>, rest: seq<bv8>, room: nat)
    requires |g| == 4 && room > 0
    ensures var u := Ungroup(DecodeChar(g[0]), DecodeChar(g[1]), DecodeChar(g[2]), DecodeChar(g[3]), room);
            Decode(g + rest, room) == u + if |u| < 3 then [] else Decode(rest, room - 3)
  {
    hide DecodeChar, Ungroup;
    assert (g + rest)[4..] == rest;
  }

  /** Decoding an encoding gives back the bytes, with exactly the room they need or more. */
  lemma {:induction false} RoundTrip(x: seq<bv8>, room: nat)
    requires |x| <= room
    ensures Decode(Encode(x), room) == x
  {
    hide DecodeChar, Group, Ungroup, Decode;
    if x == [] {
      DecodeNothing(room);
    } else {
      UngroupsGroup(x, room);
      var rest := if |x| <= 3 then [] else Encode(x[3..]);
      DecodePrepends(Group(x), rest, room);
      if |x| > 3 {
        RoundTrip(x[3..], room - 3);
        assert x == x[..3] + x[3..];
      } else if |x| == 3 {
        DecodeNothing(room - 3);
        assert x[..3] == x;
      }
    }
  }

  lemma DecodeNothing(room: nat)
    ensures Decode([], room) == []
  {
  }

  // ---------- the lengths ----------

  /** Base64_encodeLength in 32-bit unsigned arithmetic. */
  function EncodeLength(n: nat): nat {
    var x := (4 * n % UINT / 3 + 3) % UINT;
    x - x % 4
  }

  lemma FourThirds(n: nat)
    ensures var x := 4 * n / 3 + 3; x - x % 4 == Need(n)
  {
    var k := (n + 2) / 3;
    var x := 4 * n / 3 + 3;
    var r := 3 * k - n;
    Quotient3(n + 2, k, 2 - r);
    Quotient3(4 * n, if r == 0 then 4 * k else if r == 1 then 4 * k - 2 else 4 * k - 3, if r == 0 then 0 else 3 - r);
    Quotient4(x, k, x - 4 * k);
  }

  lemma Quotient3(a: int, q: int, r: int)
    requires 0 <= r < 3 && a == 3 * q + r
    ensures a / 3 == q && a % 3 == r
  {
  }

  lemma Quotient4(a: int, q: int, r: int)
    requires 0 <= r < 4 && a == 4 * q + r
    ensures a / 4 == q && a % 4 == r
  {
  }

  lemma TooLong(n: nat, m: nat)
    requires 0x4000_0000 <= n && m <= UINT - 4
    ensures m / 3 + 3 < Need(n)
  {
    assert (n + 2) / 3 >= 357913942;
    assert m / 3 <= 1431655764;
  }

  lemma WrappedLength(n: nat)
    requires n < UINT
    ensures EncodeLength(n) == var x := 4 * n % UINT / 3 + 3; x - x % 4
  {
  }

  /** It is the number of characters produced if and only if 4 * n does not overflow. */
  lemma EncodeLengthExactIff(n: nat)
    requires n < UINT
    ensures EncodeLength(n) == Need(n) <==> n < 0x4000_0000
  {
    hide EncodeLength, Need;
    WrappedLength(n);
    if n < 0x4000_0000 {
      assert 4 * n % UINT == 4 * n;
      FourThirds(n);
    } else {
      var m := 4 * n % UINT;
      assert m <= UINT - 4;
      TooLong(n, m);
    }
  }

  /** Base64_decodeLength, unsigned. */
  function DecodeLength(s: seq<bv8>): nat {
    (|s| / 4 * 3 - Padding(s)) % UINT
  }

  function Padding(s: seq<bv8>): nat {
    (if |s| > 1 && s[|s| - 2] == EQUALS then 1 else 0) + if |s| > 0 && s[|s| - 1] == EQUALS then 1 else 0
  }

  lemma NotEquals(c: bv8)
    requires c < 64
    ensures EncodeChar(c) != EQUALS
  {
  }

  lemma ShortGroup(x: seq<bv8>)
    requires 0 < |x| <= 3
    ensures (Group(x)[2] == EQUALS <==> |x| == 1) && (Group(x)[3] == EQUALS <==> |x| != 3)
  {
    hide E0, E1, E2, E3, EncodeChar;
    var b, c := if |x| > 1 then x[1] else 0, if |x| > 2 then x[2] else 0;
    Sextets(x[0], b, c);
    NotEquals(E2(b, c));
    NotEquals(E3(c));
  }

  /** The last two characters tell how many bytes the last group has. */
  lemma {:induction false} LastGroup(x: seq<bv8>)
    requires x != []
    ensures var s := Encode(x);
            && |s| >= 4
            && (s[|s| - 2] == EQUALS <==> |x| % 3 == 1)
            && (s[|s| - 1] == EQUALS <==> |x| % 3 != 0)
  {
    hide Group;
    if |x| > 3 {
      LastGroup(x[3..]);
      var s, rest := Encode(x), Encode(x[3..]);
      assert s == Group(x) + rest;
      assert s[|s| - 2] == rest[|rest| - 2] && s[|s| - 1] == rest[|rest| - 1];
      assert |x[3..]| % 3 == |x| % 3;
    } else {
      ShortGroup(x);
      assert Encode(x) == Group(x);
    }
  }

  lemma Thirds(n: nat)
    requires n > 0
    ensures Need(n) / 4 * 3 - (if n % 3 == 1 then 2 else if n % 3 == 2 then 1 else 0) == n
  {
    var k := (n + 2) / 3;
    assert Need(n) / 4 == k;
  }

  /** The decoded length of an encoding is the length of what was encoded. */
  lemma DecodeLengthExact(x: seq<bv8>)
    requires |x| < UINT
    ensures DecodeLength(Encode(x)) == |x|
  {
    hide Encode, Need;
    EncodedLength(x);
    if x == [] {
      NothingNeeded();
    } else {
      LastGroup(x);
      Thirds(|x|);
      assert Padding(Encode(x)) == if |x| % 3 == 1 then 2 else if |x| % 3 == 2 then 1 else 0;
      NoWrap(|x|);
    }
  }

  lemma NoWrap(n: nat)
    requires n < UINT
    ensures n % UINT == n
  {
  }

  lemma NothingNeeded()
    ensures Need(0) == 0
  {
  }

  // ---------- the loops ----------

  /** The group number k of an encoding. */
  lemma {:induction false} GroupAt(x: seq<bv8>, k: nat)
    requires 3 * k < |x|
    ensures 4 * k + 4 <= |Encode(x)| && Encode(x)[4 * k..4 * k + 4] == Group(x[3 * k..])
  {
    hide Group;
    if k == 0 {
      assert x[0..] == x && Encode(x)[0..4] == Group(x);
    } else {
      GroupAt(x[3..], k - 1);
      assert x[3..][3 * (k - 1)..] == x[3 * k..];
      var rest := Encode(x[3..]);
      assert Encode(x)[4 * k..4 * k + 4] == rest[4 * (k - 1)..4 * (k - 1) + 4];
    }
  }

  /** The first k groups are in place, or all that fit when the last one does not. */
  ghost predicate Written(out: seq<bv8>, all: seq<bv8>, k: nat) {
    && 4 * k <= |all|
    && if 4 * k <= |out| then out[..4 * k] == all[..4 * k]
       else k > 0 && 4 * k - 4 < |out| && out[..4 * k - 4] == all[..4 * k - 4]
  }

  lemma WrittenNext(out: seq<bv8>, after: seq<bv8>, x: seq<bv8>, k: nat)
    requires 3 * k < |x| && 4 * k < |out| == |after| && Written(out, Encode(x), k)
    requires after == if 4 * k + 4 <= |out| then out[..4 * k] + Group(x[3 * k..]) + out[4 * k + 4..] else out
    ensures Written(after, Encode(x), k + 1)
  {
    hide Encode, Group;
    GroupAt(x, k);
    var all := Encode(x);
    assert all[..4 * k + 4] == all[..4 * k] + all[4 * k..4 * k + 4];
  }

  /** What a finished loop has done, in terms of the room there was. */
  ghost predicate Outcome(out: seq<bv8>, x: seq<bv8>, ret: nat) {
    var need := Need(|x|);
    var done := if need <= |out| then need else |out| / 4 * 4;
    && done <= |Encode(x)| && out[..done] == Encode(x)[..done]
    && ret == (if need <= |out| || |out| % 4 == 0 then done else 0)
    && (need < |out| ==> out[need] == 0)
  }

  lemma Finished(out: seq<bv8>, after: seq<bv8>, x: seq<bv8>, k: nat)
    requires k <= (|x| + 2) / 3 && Written(out, Encode(x), k)
    requires 3 * k >= |x| || 4 * k >= |out|
    requires |after| == |out| && after == if 4 * k < |out| then out[4 * k := 0] else out
    ensures Outcome(after, x, if 4 * k <= |out| then 4 * k else 0)
  {
    hide Encode, Need;
    EncodedLength(x);
    Groups(|x|, k);
    if 4 * k <= |out| {
      assert after[..4 * k] == out[..4 * k];
      if 3 * k < |x| {
        Quotient4(|out|, k, 0);
      }
    } else {
      Quotient4(|out|, k - 1, |out| - 4 * (k - 1));
    }
  }

  lemma Groups(n: nat, k: nat)
    requires k <= (n + 2) / 3
    ensures Need(n) >= 4 * k
    ensures 3 * k >= n <==> Need(n) == 4 * k
  {
  }

  /** Base64_encode into the whole of out.  Complete when there is room for it; with less room, whole
      groups are written and the result is 0 unless the room is a multiple of four. */
  method EncodeInto(out: array<bv8>, x: seq<bv8>) returns (ret: nat)
    modifies out
    ensures Outcome(out[..], x, ret)
    ensures Need(|x|) <= out.Length ==> ret == |Encode(x)| && out[..ret] == Encode(x)
  {
    hide Encode, Group, Written, Outcome;
    var pos, count := 0, 0;
    ghost var k := 0;
    NothingWritten(out[..], Encode(x));
    while pos < |x| && count < out.Length
      invariant count == 4 * k && pos == if 3 * k <= |x| then 3 * k else |x|
      invariant k <= (|x| + 2) / 3 && Written(out[..], Encode(x), k)
      decreases |x| - pos
    {
      var g := Group(x[pos..]);
      ghost var before := out[..];
      count := count + 4;
      if count <= out.Length {
        PutGroup(out, count - 4, g);
      }
      WrittenNext(before, out[..], x, k);
      pos := if pos + 3 <= |x| then pos + 3 else |x|;
      k := k + 1;
    }
    ghost var before := out[..];
    ret := 0;
    if count <= out.Length {
      if count < out.Length {
        out[count] := 0;
      }
      ret := count;
    }
    Finished(before, out[..], x, k);
    if Need(|x|) <= out.Length {
      Complete(out[..], x, ret);
    }
  }

  method PutGroup(out: array<bv8>, at: nat, g: seq<bv8>)
    requires |g| == 4 && at + 4 <= out.Length
    modifies out
    ensures out[..] == old(out[..at]) + g + old(out[at + 4..])
  {
    var i := 0;
    while i < 4
      invariant 0 <= i <= 4
      invariant forall k :: 0 <= k < out.Length ==> out[k] == if at <= k < at + i then g[k - at] else old(out[k])
    {
      out[at + i] := g[i];
      i := i + 1;
    }
  }

  lemma NothingWritten(out: seq<bv8>, all: seq<bv8>)
    ensures Written(out, all, 0)
  {
  }

  lemma Complete(out: seq<bv8>, x: seq<bv8>, ret: nat)
    requires Outcome(out, x, ret) && Need(|x|) <= |out|
    ensures ret == |Encode(x)| && ret <= |out| && out[..ret] == Encode(x)
  {
    hide Encode;
    EncodedLength(x);
  }

  /** One turn of the loop of Base64_decode: count grows by the bytes written; more is false when the
      rest of the input is to be dropped.  A byte past them may have been written too. */
  method DecodeGroup(out: array<bv8>, count: nat, p: bv8, q: bv8, r: bv8, t: bv8) returns (after: nat, more: bool)
    requires count < out.Length
    modifies out
    ensures var g := Ungroup(p, q, r, t, out.Length - count);
            && after == count + |g| <= out.Length && out[..after] == old(out[..count]) + g
            && (after < out.Length ==> (more <==> |g| == 3))
  {
    hide D0, D1, D2, Ungroup;
    UngroupCases(p, q, r, t, out.Length - count);
    more := true;
    after := count + 1;
    out[count] := D0(p, q);
    if after < out.Length {
      out[after] := (q & 0xF) << 4;
      if r < NV {
        out[after] := D1(q, r);
        after := after + 1;
        if after < out.Length {
          out[after] := (r & 0x3) << 6;
          if t < NV {
            out[after] := D2(r, t);
            after := after + 1;
          } else {
            more := false;
          }
        }
      } else {
        more := false;
      }
    }
  }

  lemma UngroupCases(p: bv8, q: bv8, r: bv8, t: bv8, room: nat)
    requires room > 0
    ensures var g := Ungroup(p, q, r, t, room);
            && g[0] == D0(p, q) && (|g| >= 2 ==> g[1] == D1(q, r)) && (|g| == 3 ==> g[2] == D2(r, t))
            && |g| == if room == 1 || r >= NV then 1 else if room == 2 || t >= NV then 2 else 3
  {
    hide D0, D1, D2;
  }

  lemma DecodeStep(s: seq<bv8>, room: nat)
    ensures |s| < 4 || room == 0 ==> Decode(s, room) == []
    ensures |s| >= 4 && room > 0 ==>
              var g := Ungroup(DecodeChar(s[0]), DecodeChar(s[1]), DecodeChar(s[2]), DecodeChar(s[3]), room);
              Decode(s, room) == g + if |g| < 3 || |g| == room then [] else Decode(s[4..], room - |g|)
  {
    hide D0, D1, D2, DecodeChar;
  }

  /** Base64_decode into the whole of out; a terminating zero follows where there is room for one. */
  method DecodeInto(out: array<bv8>, s: seq<bv8>) returns (ret: nat)
    modifies out
    ensures ret <= out.Length && out[..ret] == Decode(s, out.Length)
    ensures ret < out.Length ==> out[ret] == 0
  {
    hide Decode, Ungroup, DecodeChar;
    var rest := s;
    var count: nat := 0;
    while |rest| > 3 && count < out.Length
      invariant count <= out.Length
      invariant Decode(s, out.Length) == out[..count] + Decode(rest, out.Length - count)
      decreases |rest|
    {
      DecodeStep(rest, out.Length - count);
      ghost var before := out[..count];
      var more;
      count, more := DecodeGroup(out, count, DecodeChar(rest[0]), DecodeChar(rest[1]), DecodeChar(rest[2]),
          DecodeChar(rest[3]));
      rest := if more then rest[4..] else [];
      DecodeStep(rest, out.Length - count);
    }
    DecodeStep(rest, out.Length - count);
    ret := count;
    if count < out.Length {
      out[count] := 0;
    }
  }

  /** Encode, then decode, through buffers of sufficient size: the bytes come back and are counted right. */
  method ThroughBuffers(x: seq<bv8>, spare: nat) returns (y: seq<bv8>)
    requires |x| < 0x4000_0000
    ensures y == x
  {
    hide Encode, Decode, Need;
    EncodeLengthExactIff(|x|);
    var text := new bv8[EncodeLength(|x|)];
    var n := EncodeInto(text, x);
    DecodeLengthExact(x);
    var back := new bv8[DecodeLength(text[..n]) + spare];
    var m := DecodeInto(back, text[..n]);
    RoundTrip(x, back.Length);
    y := back[..m];
  }
}
