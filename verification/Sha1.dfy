/** SHA-1 as FIPS 180-4 defines it, on byte strings. */
module Sha1Standard {
  import Wire

  type byte = Wire.byte

  /** The five working variables, or the five words of a hash value. */
  datatype Regs = Regs(a: bv32, b: bv32, c: bv32, d: bv32, e: bv32)

  function Rotl1(x: bv32): bv32 { (x << 1) | (x >> 31) }

  function Rotl5(x: bv32): bv32 { (x << 5) | (x >> 27) }

  function Rotl30(x: bv32): bv32 { (x << 30) | (x >> 2) }

  /** Section 4.1.1. */
  function F(t: nat, x: bv32, y: bv32, z: bv32): bv32 {
    if t < 20 then (x & y) ^ (!x & z)
    else if t < 40 then x ^ y ^ z
    else if t < 60 then (x & y) ^ (x & z) ^ (y & z)
    else x ^ y ^ z
  }

  /** Section 4.2.1. */
  function K(t: nat): bv32 {
    if t < 20 then 0x5A827999 else if t < 40 then 0x6ED9EBA1 else if t < 60 then 0x8F1BBCDC else 0xCA62C1D6
  }

  /** Section 5.3.1. */
  function InitialHash(): Regs {
    Regs(0x67452301, 0xEFCDAB89, 0x98BADCFE, 0x10325476, 0xC3D2E1F0)
  }

  /** What the constants are: the integer part of 2^30 times a square root. */
  lemma ConstantsAreRoots(t: nat)
    ensures var k := K(t) as int;
            var n := if t < 20 then 2 else if t < 40 then 3 else if t < 60 then 5 else 10;
            k * k <= n * 0x1000_0000_0000_0000 < (k + 1) * (k + 1)
  {
    assert 0x5A827999 as bv32 as int == 0x5A827999;
    assert 0x6ED9EBA1 as bv32 as int == 0x6ED9EBA1;
    assert 0x8F1BBCDC as bv32 as int == 0x8F1BBCDC;
    assert 0xCA62C1D6 as bv32 as int == 0xCA62C1D6;
  }

  function BigEndian(b0: byte, b1: byte, b2: byte, b3: byte): bv32 {
    (b0 as bv32 << 24) | (b1 as bv32 << 16) | (b2 as bv32 << 8) | b3 as bv32
  }

  function Word(block: seq<byte>, i: nat): bv32
    requires |block| == 64 && i < 16
  {
    BigEndian(block[4 * i], block[4 * i + 1], block[4 * i + 2], block[4 * i + 3])
  }

  function Mix(p: bv32, q: bv32, r: bv32, s: bv32): bv32 {
    Rotl1(p ^ q ^ r ^ s)
  }

  /** The 80-word message schedule of section 6.1.2. */
  function W(block: seq<byte>, t: nat): bv32
    requires |block| == 64
  {
    if t < 16 then Word(block, t)
    else Mix(W(block, t - 3), W(block, t - 8), W(block, t - 14), W(block, t - 16))
  }

  function Sum(p: bv32, q: bv32, r: bv32, s: bv32, t: bv32): bv32 {
    p + q + r + s + t
  }

  function Round(r: Regs, t: nat, w: bv32): Regs {
    Regs(Sum(Rotl5(r.a), F(t, r.b, r.c, r.d), r.e, K(t), w), r.a, Rotl30(r.b), r.c, r.d)
  }

  function Rounds(block: seq<byte>, h: Regs, t: nat): Regs
    requires |block| == 64
  {
    if t == 0 then h else Round(Rounds(block, h, t - 1), t - 1, W(block, t - 1))
  }

  function Add(h: Regs, r: Regs): Regs {
    Regs(h.a + r.a, h.b + r.b, h.c + r.c, h.d + r.d, h.e + r.e)
  }

  function Compress(h: Regs, block: seq<byte>): Regs
    requires |block| == 64
  {
    Add(h, Rounds(block, h, 80))
  }

  function HashBlocks(m: seq<byte>): Regs
    requires |m| % 64 == 0
  {
    if m == [] then InitialHash() else Compress(HashBlocks(m[..|m| - 64]), m[|m| - 64..])
  }

  /** n as k bytes, most significant first. */
  function Bytes(n: nat, k: nat): (r: seq<byte>)
    ensures |r| == k
  {
    if k == 0 then [] else Bytes(n / 256, k - 1) + [(n % 256) as byte]
  }

  function Zeros(k: nat): (r: seq<byte>)
    ensures |r| == k
  {
    seq(k, i => 0)
  }

  /** How many zero bytes follow the one bit: the smallest number that leaves room for the length. */
  function ZeroCount(n: nat): (k: nat)
    ensures k < 64 && (n + 1 + k) % 64 == 56
  {
    (119 - n % 64) % 64
  }

  lemma LengthFits(n: nat)
    ensures (n + 1 + ZeroCount(n) + 8) % 64 == 0
  {
    var x := n + 1 + ZeroCount(n);
    assert x == 64 * (x / 64) + 56;
  }

  /** Section 5.1.1: a one bit, zero bits, the length in bits as 64 bits. */
  function Pad(m: seq<byte>): (r: seq<byte>)
    ensures |r| % 64 == 0
  {
    LengthFits(|m|);
    m + [0x80] + Zeros(ZeroCount(|m|)) + Bytes(8 * |m|, 8)
  }

  function WordBytes(x: bv32): (r: seq<byte>)
    ensures |r| == 4
  {
    Bytes(x as nat, 4)
  }

  function HashBytes(h: Regs): seq<byte> {
    WordBytes(h.a) + WordBytes(h.b) + WordBytes(h.c) + WordBytes(h.d) + WordBytes(h.e)
  }

  function Sha1(m: seq<byte>): seq<byte> {
    HashBytes(HashBlocks(Pad(m)))
  }
}

/** The hash as SHA1.c computes it: a context with a 64-byte buffer, updated in place. */
module Sha1Context {
  import opened Sha1Standard

  const WRAP := 0x1_0000_0000

  // ---------- one block ----------

  /** The code's forms of the logical functions. */
  function CodeF(t: nat, x: bv32, y: bv32, z: bv32): bv32 {
    if t < 20 then (x & y) | (!x & z)
    else if t < 40 then x ^ y ^ z
    else if t < 60 then (x & y) | (x & z) | (y & z)
    else x ^ y ^ z
  }

  lemma CodeFIsF(t: nat, x: bv32, y: bv32, z: bv32)
    ensures CodeF(t, x, y, z) == F(t, x, y, z)
  {
    ChForms(x, y, z);
    MajForms(x, y, z);
  }

  lemma ChForms(x: bv32, y: bv32, z: bv32)
    ensures (x & y) | (!x & z) == (x & y) ^ (!x & z)
  {
  }

  lemma MajForms(x: bv32, y: bv32, z: bv32)
    ensures (x & y) | (x & z) | (y & z) == (x & y) ^ (x & z) ^ (y & z)
  {
  }

  lemma SumReorders(p: bv32, q: bv32, r: bv32, s: bv32, t: bv32)
    ensures Sum(p, q, r, s, t) == Sum(p, q, r, t, s)
  {
  }

  /** The words still needed are in the sixteen places of w. */
  ghost predicate Holds(w: array<bv32>, block: seq<byte>, hi: nat)
    requires w.Length == 16 && |block| == 64 && hi >= 16
    reads w
  {
    forall t: nat :: hi - 16 <= t < hi ==> w[t % 16] == W(block, t)
  }

  /** w[i & 15] takes the place of the word sixteen rounds ago. */
  method NextWord(w: array<bv32>, i: nat, ghost block: seq<byte>)
    requires w.Length == 16 && |block| == 64 && i >= 16 && Holds(w, block, i)
    modifies w
    ensures Holds(w, block, i + 1)
  {
    hide W, Mix;
    Places(i);
    WStep(block, i);
    w[i % 16] := Mix(w[(i + 13) % 16], w[(i + 8) % 16], w[(i + 2) % 16], w[i % 16]);
    forall t: nat | i + 1 - 16 <= t < i + 1 ensures w[t % 16] == W(block, t) {
      if t < i {
        OtherPlace(t, i);
      }
    }
  }

  /** The word k rounds ago is in the place 16 - k further on. */
  lemma Places(i: nat)
    requires i >= 16
    ensures (i + 13) % 16 == (i - 3) % 16 && (i + 8) % 16 == (i - 8) % 16
    ensures (i + 2) % 16 == (i - 14) % 16 && i % 16 == (i - 16) % 16
  {
  }

  lemma OtherPlace(t: nat, i: nat)
    requires t < i < t + 16
    ensures t % 16 != i % 16
  {
  }

  lemma WStep(block: seq<byte>, t: nat)
    requires |block| == 64 && t >= 16
    ensures W(block, t) == Mix(W(block, t - 3), W(block, t - 8), W(block, t - 14), W(block, t - 16))
  {
    hide Mix;
  }

  method OneRound(r: Regs, i: nat, wi: bv32) returns (r': Regs)
    ensures r' == Round(r, i, wi)
  {
    hide Rotl5, Rotl30, F, CodeF, K, Sum;
    CodeFIsF(i, r.b, r.c, r.d);
    SumReorders(Rotl5(r.a), CodeF(i, r.b, r.c, r.d), r.e, wi, K(i));
    var tmp := Sum(Rotl5(r.a), CodeF(i, r.b, r.c, r.d), r.e, wi, K(i));
    r' := Regs(tmp, r.a, Rotl30(r.b), r.c, r.d);
  }

  lemma RoundsStep(block: seq<byte>, h: Regs, t: nat)
    requires |block| == 64
    ensures Rounds(block, h, 0) == h
    ensures Rounds(block, h, t + 1) == Round(Rounds(block, h, t), t, W(block, t))
  {
  }

  lemma FirstWords(w: array<bv32>, block: seq<byte>)
    requires w.Length == 16 && |block| == 64 && forall i :: 0 <= i < 16 ==> w[i] == Word(block, i)
    ensures Holds(w, block, 16)
  {
    hide Word;
    forall t: nat | t < 16 ensures w[t % 16] == W(block, t) {
      assert t % 16 == t;
    }
  }

  /** The loop of SHA1_ProcessBlock: sixteen places serve for the eighty words. */
  method AllRounds(w: array<bv32>, h: Regs, ghost block: seq<byte>) returns (r: Regs)
    requires w.Length == 16 && |block| == 64 && forall i :: 0 <= i < 16 ==> w[i] == Word(block, i)
    modifies w
    ensures r == Rounds(block, h, 80)
  {
    hide W, Rounds, Round, Word;
    FirstWords(w, block);
    RoundsStep(block, h, 0);
    r := h;
    var i := 0;
    while i < 80
      invariant 0 <= i <= 80 && r == Rounds(block, h, i)
      invariant Holds(w, block, if i < 16 then 16 else i)
    {
      if i >= 16 {
        NextWord(w, i, block);
      }
      assert w[i % 16] == W(block, i);
      RoundsStep(block, h, i);
      r := OneRound(r, i, w[i % 16]);
      i := i + 1;
    }
  }

  // ---------- the context ----------

  lemma {:induction false} HashSplit(m: seq<byte>, block: seq<byte>)
    requires |m| % 64 == 0 && |block| == 64
    ensures |m + block| % 64 == 0 && HashBlocks(m + block) == Compress(HashBlocks(m), block)
  {
    hide Compress;
    assert (m + block)[..|m|] == m && (m + block)[|m|..] == block;
  }

  /** What SHA1_Final puts at the end: the bit count is the low 32 bits of a 32-bit byte count times 8. */
  function CodeBits(n: nat): nat {
    n % WRAP * 8 % WRAP
  }

  function CodePad(m: seq<byte>): (r: seq<byte>)
    ensures |r| % 64 == 0
  {
    LengthFits(|m|);
    m + [0x80] + Zeros(ZeroCount(|m|)) + (Bytes(CodeBits(|m|) / WRAP, 4) + Bytes(CodeBits(|m|) % WRAP, 4))
  }

  class Context {
    var h: Regs
    const buffer: array<byte>
    var size: nat
    var total: nat
    ghost var msg: seq<byte>

    /** msg is what has been hashed so far: whole blocks in h, the rest in the buffer. */
    ghost predicate Valid()
      reads this, buffer
    {
      && buffer.Length == 64 && size < 64 && size <= |msg| && (|msg| - size) % 64 == 0
      && total == |msg| % WRAP
      && buffer[..size] == msg[|msg| - size..]
      && h == HashBlocks(msg[..|msg| - size])
    }

    /** SHA1_Init. */
    constructor ()
      ensures Valid() && msg == [] && fresh(buffer)
    {
      h, size, total, msg := InitialHash(), 0, 0, [];
      buffer := new byte[64];
    }

    /** SHA1_ProcessBlock.  The words share the buffer's memory, so afterwards it holds the last words of the
        schedule. */
    method ProcessBlock()
      requires buffer.Length == 64
      modifies this`h, buffer
      ensures h == Compress(old(h), old(buffer[..]))
    {
      hide Word, Rounds, WordBytes, BigEndian;
      ghost var block := buffer[..];
      var w := new bv32[16];
      var i := 0;
      while i < 16
        invariant 0 <= i <= 16 && h == old(h) && buffer[..] == block
        invariant forall k :: 0 <= k < i ==> w[k] == Word(block, k)
      {
        WordOf(block, i);
        w[i] := BigEndian(buffer[4 * i], buffer[4 * i + 1], buffer[4 * i + 2], buffer[4 * i + 3]);
        i := i + 1;
      }
      var r := AllRounds(w, h, block);
      h := Add(h, r);
      StoreWords(w, buffer);
    }

    /** One turn of the loop of SHA1_Update: what fits into the buffer. */
    method Absorb(chunk: seq<byte>)
      requires Valid() && 0 < |chunk| <= 64 - size
      modifies this, buffer
      ensures Valid() && msg == old(msg) + chunk
    {
      hide HashBlocks, Compress;
      ghost var head, tail := msg[..|msg| - size], msg[|msg| - size..];
      Joined(msg, size, chunk);
      WrapAdds(|msg|, |chunk|);
      CopyInto(buffer, size, chunk);
      size := size + |chunk|;
      total := (total + |chunk|) % WRAP;
      msg := msg + chunk;
      assert buffer[..size] == tail + chunk;
      if size == 64 {
        assert buffer[..] == tail + chunk;
        ProcessBlock();
        HashSplit(head, tail + chunk);
        size := 0;
        assert msg[..|msg|] == msg && msg[|msg|..] == [] && buffer[..0] == [];
      }
    }

    lemma SizeFits()
      requires Valid()
      ensures size < 64
    {
    }

    /** SHA1_Update: however the data are cut into calls, it is their concatenation that is hashed. */
    method Update(data: seq<byte>)
      requires Valid()
      modifies this, buffer
      ensures Valid() && msg == old(msg) + data
    {
      hide HashBlocks, Valid;
      var pos := 0;
      assert data[..0] == [];
      while pos < |data|
        invariant 0 <= pos <= |data| && Valid() && msg == old(msg) + data[..pos]
      {
        SizeFits();
        var n := 64 - size;
        if |data| - pos < n {
          n := |data| - pos;
        }
        Absorb(data[pos..pos + n]);
        assert data[..pos] + data[pos..pos + n] == data[..pos + n];
        pos := pos + n;
      }
      assert data[..pos] == data;
    }

    /** SHA1_Final. */
    method Final() returns (md: seq<byte>)
      requires Valid()
      modifies this, buffer
      ensures md == HashBytes(HashBlocks(CodePad(old(msg))))
    {
      hide HashBlocks, Compress, HashBytes, Bytes, CodePad;
      ghost var m := msg;
      var bits := total * 8 % WRAP;
      assert bits == CodeBits(|m|);
      var padAmount := if size < 56 then 56 - size else 64 + 56 - size;
      var pad := [0x80] + Zeros(padAmount - 1);
      PadAmount(|m|, size);
      Update(pad);
      FullSize(|m|, |msg|, size);
      var length := Bytes(bits / WRAP, 4) + Bytes(bits % WRAP, 4);
      PadShape(m, pad, length);
      LastBlock(length);
      md := HashBytes(h);
    }

    /** The length goes into the last two words, and the block is processed. */
    method LastBlock(length: seq<byte>)
      requires Valid() && size == 56 && |length| == 8
      modifies this`h, buffer
      ensures |old(msg) + length| % 64 == 0 && h == HashBlocks(old(msg) + length)
    {
      hide HashBlocks, Compress;
      ghost var head, tail := msg[..|msg| - 56], msg[|msg| - 56..];
      CopyInto(buffer, 56, length);
      assert buffer[..] == tail + length;
      ProcessBlock();
      HashSplit(head, tail + length);
      assert msg + length == head + (tail + length);
    }
  }

  lemma Joined(m: seq<byte>, size: nat, chunk: seq<byte>)
    requires size <= |m|
    ensures var head, tail, all := m[..|m| - size], m[|m| - size..], m + chunk;
            && all == head + (tail + chunk)
            && all[..|all| - (size + |chunk|)] == head && all[|all| - (size + |chunk|)..] == tail + chunk
  {
  }

  lemma WrapAdds(n: nat, k: nat)
    ensures (n % WRAP + k) % WRAP == (n + k) % WRAP
  {
    var q := n / WRAP;
    assert n + k == WRAP * q + (n % WRAP + k);
    SameRemainder(n % WRAP + k, q);
  }

  lemma SameRemainder(x: nat, q: nat)
    ensures (WRAP * q + x) % WRAP == x % WRAP
  {
    var y := WRAP * q + x;
    assert y == WRAP * (q + x / WRAP) + x % WRAP;
  }

  lemma WordOf(block: seq<byte>, i: nat)
    requires |block| == 64 && i < 16
    ensures Word(block, i) == BigEndian(block[4 * i], block[4 * i + 1], block[4 * i + 2], block[4 * i + 3])
  {
  }

  lemma PadAmount(n: nat, size: nat)
    requires size < 64 && size <= n && (n - size) % 64 == 0
    ensures (if size < 56 then 56 - size else 64 + 56 - size) == ZeroCount(n) + 1
  {
    assert n == 64 * ((n - size) / 64) + size;
    assert n % 64 == size;
  }

  lemma FullSize(n: nat, longer: nat, size: nat)
    requires longer == n + 1 + ZeroCount(n) && size < 64 && size <= longer && (longer - size) % 64 == 0
    ensures size == 56
  {
    assert longer == 64 * ((longer - size) / 64) + size;
    assert longer % 64 == size;
  }

  lemma PadShape(m: seq<byte>, pad: seq<byte>, length: seq<byte>)
    requires pad == [0x80] + Zeros(ZeroCount(|m|))
    requires length == Bytes(CodeBits(|m|) / WRAP, 4) + Bytes(CodeBits(|m|) % WRAP, 4)
    ensures CodePad(m) == m + pad + length
  {
    hide Bytes;
  }

  /** memcpy. */
  method CopyInto(a: array<byte>, at: nat, data: seq<byte>)
    requires at + |data| <= a.Length
    modifies a
    ensures a[..] == old(a[..at]) + data + old(a[at + |data|..])
  {
    var k := 0;
    while k < |data|
      invariant 0 <= k <= |data|
      invariant forall i :: 0 <= i < a.Length ==> a[i] == if at <= i < at + k then data[i - at] else old(a[i])
    {
      a[at + k] := data[k];
      k := k + 1;
    }
  }

  /** The memory of the words seen as bytes. */
  method StoreWords(w: array<bv32>, a: array<byte>)
    requires w.Length == 16 && a.Length == 64
    modifies a
    ensures forall i :: 0 <= i < 16 ==> a[4 * i..4 * i + 4] == WordBytes(w[i])
  {
    hide WordBytes;
    var i := 0;
    while i < 16
      invariant 0 <= i <= 16
      invariant forall k :: 0 <= k < i ==> a[4 * k..4 * k + 4] == WordBytes(w[k])
    {
      ghost var was := a[..];
      CopyInto(a, 4 * i, WordBytes(w[i]));
      assert a[4 * i..4 * i + 4] == WordBytes(w[i]);
      forall k | 0 <= k < i ensures a[4 * k..4 * k + 4] == WordBytes(w[k]) {
        assert a[4 * k..4 * k + 4] == was[4 * k..4 * k + 4];
      }
      i := i + 1;
    }
  }

  // ---------- the padding against the standard's ----------

  function Pow256(k: nat): nat {
    if k == 0 then 1 else 256 * Pow256(k - 1)
  }

  lemma {:induction false} LeadingZeros(n: nat, j: nat, k: nat)
    requires n < Pow256(k)
    ensures Bytes(n, j + k) == Bytes(0, j) + Bytes(n, k)
  {
    if k > 0 {
      LeadingZeros(n / 256, j, k - 1);
    }
  }

  lemma {:induction false} BytesInjective(a: nat, b: nat, k: nat)
    requires a < Pow256(k) && b < Pow256(k) && Bytes(a, k) == Bytes(b, k)
    ensures a == b
  {
    if k > 0 {
      var x, y := Bytes(a / 256, k - 1), Bytes(b / 256, k - 1);
      assert Bytes(a, k)[k - 1] == (a % 256) as byte && Bytes(b, k)[k - 1] == (b % 256) as byte;
      assert x == Bytes(a, k)[..k - 1] && y == Bytes(b, k)[..k - 1];
      BytesInjective(a / 256, b / 256, k - 1);
    }
  }

  lemma EightBytes()
    ensures Pow256(4) == WRAP && Pow256(8) == WRAP * WRAP
  {
    assert Pow256(1) == 256 && Pow256(2) == 65536 && Pow256(3) == 0x100_0000 && Pow256(4) == WRAP;
    assert Pow256(5) == 256 * WRAP && Pow256(6) == 65536 * WRAP && Pow256(7) == 0x100_0000 * WRAP;
  }

  lemma CodeBitsExactIff(n: nat)
    ensures CodeBits(n) == 8 * n <==> n < 0x2000_0000
    ensures CodeBits(n) < WRAP
  {
  }

  /**
    The padding of SHA1_Final is that of section 5.1.1 of FIPS 180-4 if and only if the message is
    shorter than 2^29 bytes, over all messages for which the standard defines a padding.
  */
  lemma PaddingStandardIff(m: seq<byte>)
    requires 8 * |m| < WRAP * WRAP
    ensures CodePad(m) == Pad(m) <==> |m| < 0x2000_0000
  {
    hide Bytes, CodeBits, Pow256;
    var n := |m|;
    var front := m + [0x80] + Zeros(ZeroCount(n));
    var c := CodeBits(n);
    CodeBitsExactIff(n);
    EightBytes();
    LeadingZeros(c, 4, 4);
    assert c / WRAP == 0 && c % WRAP == c;
    assert CodePad(m) == front + Bytes(c, 8) && Pad(m) == front + Bytes(8 * n, 8);
    if CodePad(m) == Pad(m) {
      assert Bytes(c, 8) == CodePad(m)[|front|..] && Bytes(8 * n, 8) == Pad(m)[|front|..];
      BytesInjective(c, 8 * n, 8);
    }
  }

  function Flatten(chunks: seq<seq<byte>>): seq<byte> {
    if chunks == [] then [] else Flatten(chunks[..|chunks| - 1]) + chunks[|chunks| - 1]
  }

  lemma FlattenSteps(chunks: seq<seq<byte>>, c: seq<byte>)
    ensures Flatten([]) == [] && Flatten(chunks + [c]) == Flatten(chunks) + c
  {
    assert (chunks + [c])[..|chunks|] == chunks;
  }

  /** SHA1_Init, any number of SHA1_Update calls, SHA1_Final: the standard's hash of everything given. */
  method Digest(chunks: seq<seq<byte>>) returns (md: seq<byte>)
    ensures md == HashBytes(HashBlocks(CodePad(Flatten(chunks))))
    ensures |Flatten(chunks)| < 0x2000_0000 ==> md == Sha1(Flatten(chunks))
  {
    hide HashBlocks, HashBytes, CodePad, Pad, Flatten, Context.Valid;
    FlattenSteps([], []);
    var ctx := new Context();
    var i := 0;
    assert chunks[..0] == [];
    while i < |chunks|
      invariant 0 <= i <= |chunks| && fresh(ctx) && fresh(ctx.buffer)
      invariant ctx.Valid() && ctx.msg == Flatten(chunks[..i])
    {
      ctx.Update(chunks[i]);
      FlattenSteps(chunks[..i], chunks[i]);
      assert chunks[..i + 1] == chunks[..i] + [chunks[i]];
      i := i + 1;
    }
    assert chunks[..i] == chunks;
    md := ctx.Final();
    if |Flatten(chunks)| < 0x2000_0000 {
      PaddingStandardIff(Flatten(chunks));
    }
  }
}
