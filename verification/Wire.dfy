/**
  The integer and string codecs of MQTTPacket.c.  Writers fill a fixed buffer through a moving
  pointer; readers take a position in a buffer and give the position after what they read, or
  Short where the C code would read past the end of the buffer.
*/
module Wire {

  type byte = x: int | 0 <= x < 256

  datatype Read<T> = Got(value: T, next: nat) | Short

  /** bytes occupies data from position at on. */
  ghost predicate HasAt(data: seq<byte>, at: nat, bytes: seq<byte>) {
    at + |bytes| <= |data| && data[at..at + |bytes|] == bytes
  }

  lemma HasAtConcat(data: seq<byte>, at: nat, a: seq<byte>, b: seq<byte>)
    ensures HasAt(data, at, a + b) <==> HasAt(data, at, a) && HasAt(data, at + |a|, b)
  {
    if HasAt(data, at, a + b) {
      var w := data[at..at + |a + b|];
      assert w[..|a|] == data[at..at + |a|] && w[|a|..] == data[at + |a|..at + |a| + |b|];
    }
    if HasAt(data, at, a) && HasAt(data, at + |a|, b) {
      assert data[at..at + |a + b|] == data[at..at + |a|] + data[at + |a|..at + |a| + |b|];
    }
  }

  lemma HasAtMiddle(pre: seq<byte>, bytes: seq<byte>, post: seq<byte>)
    ensures HasAt(pre + bytes + post, |pre|, bytes)
  {
    assert (pre + bytes + post)[|pre|..|pre| + |bytes|] == bytes;
  }

  // ---------- variable byte integers ----------

  const VBI_LIMIT := 0x1000_0000

  /** The bytes MQTTPacket_encode produces: seven bits at a time, lowest first, a set top bit for "more". */
  function Vbi(n: nat): (r: seq<byte>)
    ensures |r| >= 1
  {
    if n < 128 then [n] else [n % 128 + 128] + Vbi(n / 128)
  }

  /** MQTTPacket_VBIlen. */
  function VbiLen(n: int): nat {
    if n < 128 then 1 else if n < 16384 then 2 else if n < 2097152 then 3 else 4
  }

  /** MQTTPacket_VBIlen agrees with the encoder exactly up to four bytes. */
  lemma VbiLenExactIff(n: nat)
    ensures VbiLen(n) == |Vbi(n)| <==> n < VBI_LIMIT
  {
    if n >= 128 {
      var m := n / 128;
      if m >= 128 {
        var k := m / 128;
        if k >= 128 {
          var l := k / 128;
          assert |Vbi(n)| == 1 + |Vbi(m)| && |Vbi(m)| == 1 + |Vbi(k)| && |Vbi(k)| == 1 + |Vbi(l)|;
          assert l < 128 <==> n < VBI_LIMIT;
          if l >= 128 { assert |Vbi(l)| == 1 + |Vbi(l / 128)|; }
        }
      }
    }
  }

  /** The value of the variable byte integer at a position, however long it is. */
  function Scan(data: seq<byte>, at: nat): Read<nat>
    decreases |data| - at
  {
    if at >= |data| then Short
    else if data[at] < 128 then Got(data[at], at + 1)
    else
      match Scan(data, at + 1)
      case Got(v, next) => Got(data[at] - 128 + 128 * v, next)
      case Short => Short
  }

  /** What a reader limited to four bytes makes of it. */
  datatype Decoded = Value(value: nat, next: nat) | TooLong | Interrupted

  function Decode4(data: seq<byte>, at: nat): Decoded {
    var r := Scan(data, at);
    if r.Got? && r.next - at <= 4 then Value(r.value, r.next)
    else if |data| - at >= 4 then TooLong
    else Interrupted
  }

  lemma {:induction false} ScanInvertsVbi(data: seq<byte>, at: nat, n: nat)
    requires HasAt(data, at, Vbi(n))
    ensures Scan(data, at) == Got(n, at + |Vbi(n)|)
    decreases n
  {
    if n < 128 {
      assert data[at..at + 1][0] == data[at];
    } else {
      HasAtConcat(data, at, [n % 128 + 128], Vbi(n / 128));
      assert data[at..at + 1][0] == data[at];
      ScanInvertsVbi(data, at + 1, n / 128);
    }
  }

  /** All three decoders give back every encoded length that four bytes can hold. */
  lemma DecodersInvertEncoder(pre: seq<byte>, n: nat, post: seq<byte>)
    ensures Scan(pre + Vbi(n) + post, |pre|) == Got(n, |pre| + |Vbi(n)|)
    ensures Decode4(pre + Vbi(n) + post, |pre|) == Value(n, |pre| + |Vbi(n)|) <==> n < VBI_LIMIT
  {
    HasAtMiddle(pre, Vbi(n), post);
    ScanInvertsVbi(pre + Vbi(n) + post, |pre|, n);
    FourBytesIff(n);
  }

  lemma FourBytesIff(n: nat)
    ensures |Vbi(n)| <= 4 <==> n < VBI_LIMIT
  {
    VbiLenExactIff(n);
    if n >= VBI_LIMIT {
      assert |Vbi(n)| == 4 + |Vbi(n / 128 / 128 / 128 / 128)| by {
        assert |Vbi(n)| == 1 + |Vbi(n / 128)|;
        assert |Vbi(n / 128)| == 1 + |Vbi(n / 128 / 128)|;
        assert |Vbi(n / 128 / 128)| == 1 + |Vbi(n / 128 / 128 / 128)|;
        assert |Vbi(n / 128 / 128 / 128)| == 1 + |Vbi(n / 128 / 128 / 128 / 128)|;
      }
    }
  }

  function Digit(n: nat): byte {
    if n < 128 then n else n % 128 + 128
  }

  /** What is still to be written. */
  function Rest(n: nat, more: bool): seq<byte> {
    if more then Vbi(n) else []
  }

  lemma NextDigit(code: seq<byte>, rc: nat, n: nat)
    requires rc <= |code| && code[rc..] == Vbi(n)
    ensures rc < |code| && code[rc] == Digit(n) && code[rc + 1..] == Rest(n / 128, n / 128 > 0)
  {
    assert Vbi(n) == [Digit(n)] + Rest(n / 128, n / 128 > 0);
    assert code[rc..][0] == code[rc];
    assert code[rc + 1..] == code[rc..][1..];
  }

  /** MQTTPacket_encode; with a null buffer it only counts. */
  method Encode(buf: array?<byte>, at: nat, length: nat) returns (rc: nat)
    requires buf != null ==> at + |Vbi(length)| <= buf.Length
    modifies if buf == null then {} else {buf}
    ensures rc == |Vbi(length)|
    ensures buf != null ==> buf[at..at + rc] == Vbi(length)
    ensures buf != null ==> forall k :: 0 <= k < at || at + rc <= k < buf.Length ==> buf[k] == old(buf[k])
  {
    rc := 0;
    var rest := length;
    var more := true;
    ghost var code := Vbi(length);
    while more
      invariant rc <= |code| && code[rc..] == Rest(rest, more)
      invariant buf != null ==> forall k :: 0 <= k < rc ==> buf[at + k] == code[k]
      invariant buf != null ==> forall k :: 0 <= k < at || at + rc <= k < buf.Length ==> buf[k] == old(buf[k])
      decreases more, rest
    {
      NextDigit(code, rc, rest);
      var d := rest % 128;
      rest := rest / 128;
      if rest > 0 {
        d := d + 128;
      }
      if buf != null {
        buf[at + rc] := d;
      }
      rc := rc + 1;
      more := rest > 0;
    }
  }

  lemma Distribute(m: nat, a: nat, b: nat)
    ensures m * (a + 128 * b) == m * a + (m * 128) * b
  {
  }

  /** MQTTPacket_decode: reads from the socket, at most four bytes. */
  method Decode(data: seq<byte>, at: nat) returns (r: Decoded)
    requires at <= |data|
    ensures r == Decode4(data, at)
  {
    var value: nat, multiplier: nat, len: nat := 0, 1, 0;
    ScanAdvances(data, at);
    hide Scan;
    while true
      invariant 0 <= len <= 4 && at + len <= |data| && multiplier >= 1
      invariant ScannedSoFar(data, at, len, value, multiplier)
      decreases 4 - len
    {
      if len + 1 > 4 {
        return TooLong;
      }
      if at + len == |data| {
        ScanCut(data, at, len, value, multiplier);
        return Interrupted;
      }
      var c := data[at + len];
      if c < 128 {
        ScanLast(data, at, len, value, multiplier);
        return Value(value + c * multiplier, at + len + 1);
      }
      ScanStep(data, at, len, value, multiplier);
      value := value + (c - 128) * multiplier;
      multiplier := multiplier * 128;
      len := len + 1;
    }
  }

  /** After len bytes, all with the top bit set, the digits read so far make up value. */
  ghost predicate ScannedSoFar(data: seq<byte>, at: nat, len: nat, value: nat, multiplier: nat) {
    && at + len <= |data|
    && match Scan(data, at + len)
       case Got(v, next) => Scan(data, at) == Got(value + multiplier * v, next) && next > at + len
       case Short => Scan(data, at) == Short
  }

  lemma ScanLast(data: seq<byte>, at: nat, len: nat, value: nat, multiplier: nat)
    requires at + len < |data| && data[at + len] < 128
    requires ScannedSoFar(data, at, len, value, multiplier)
    ensures Scan(data, at) == Got(value + data[at + len] * multiplier, at + len + 1)
  {
    assert Scan(data, at + len) == Got(data[at + len], at + len + 1);
  }

  lemma ScanCut(data: seq<byte>, at: nat, len: nat, value: nat, multiplier: nat)
    requires at + len == |data|
    requires ScannedSoFar(data, at, len, value, multiplier)
    ensures Scan(data, at) == Short
  {
  }

  lemma ScanStep(data: seq<byte>, at: nat, len: nat, value: nat, multiplier: nat)
    requires at + len < |data| && data[at + len] >= 128
    requires ScannedSoFar(data, at, len, value, multiplier)
    ensures ScannedSoFar(data, at, len + 1, value + (data[at + len] - 128) * multiplier, multiplier * 128)
  {
    hide Scan;
    ScanMore(data, at + len);
    var r := Scan(data, at + len + 1);
    if r.Got? {
      Distribute(multiplier, data[at + len] - 128, r.value);
      ScanAdvances(data, at + len + 1);
    }
  }

  lemma ScanMore(data: seq<byte>, at: nat)
    requires at < |data| && data[at] >= 128
    ensures Scan(data, at) == match Scan(data, at + 1)
                              case Got(v, next) => Got(data[at] - 128 + 128 * v, next)
                              case Short => Short
  {
  }

  lemma {:induction false} ScanAdvances(data: seq<byte>, at: nat)
    ensures Scan(data, at).Got? ==> at < Scan(data, at).next <= |data|
    decreases |data| - at
  {
    if at < |data| && data[at] >= 128 {
      ScanAdvances(data, at + 1);
    }
  }

  datatype BufDecoded = BufValue(len: nat, value: nat) | PastEnd

  /** MQTTPacket_decodeBuf: no end of buffer is known, and five bytes are reported when four do not end. */
  method DecodeBuf(data: seq<byte>, at: nat) returns (r: BufDecoded)
    requires at <= |data|
    ensures r == DecodedBuf(data, at)
  {
    var value: nat, multiplier: nat, len: nat := 0, 1, 0;
    ScanAdvances(data, at);
    hide Scan;
    while true
      invariant 0 <= len <= 4 && at + len <= |data| && multiplier >= 1
      invariant ScannedSoFar(data, at, len, value, multiplier)
      invariant value == LowDigits(data, at, len)
      invariant multiplier == Pow128(len)
      decreases 4 - len
    {
      if len + 1 > 4 {
        return BufValue(5, value);
      }
      if at + len == |data| {
        ScanCut(data, at, len, value, multiplier);
        return PastEnd;
      }
      var c := data[at + len];
      if c < 128 {
        ScanLast(data, at, len, value, multiplier);
        return BufValue(len + 1, value + c * multiplier);
      }
      ScanStep(data, at, len, value, multiplier);
      value := value + (c - 128) * multiplier;
      multiplier := multiplier * 128;
      len := len + 1;
    }
  }

  function Pow128(k: nat): nat {
    if k == 0 then 1 else Pow128(k - 1) * 128
  }

  /** The value of the first k digits, whether or not the integer ends there. */
  function LowDigits(data: seq<byte>, at: nat, k: nat): nat
    requires at + k <= |data|
  {
    if k == 0 then 0 else LowDigits(data, at, k - 1) + (data[at + k - 1] % 128) * Pow128(k - 1)
  }

  function DecodedBuf(data: seq<byte>, at: nat): BufDecoded {
    match Decode4(data, at)
    case Value(v, next) => assert next >= at by { ScanAdvances(data, at); } BufValue(next - at, v)
    case TooLong => BufValue(5, LowDigits(data, at, 4))
    case Interrupted => PastEnd
  }

  /** The loop in MQTTPersistence_restorePacket: no limit on the number of bytes. */
  method RestoreLength(data: seq<byte>, at: nat) returns (r: Read<nat>)
    requires at <= |data|
    ensures r == Scan(data, at)
  {
    var value: nat, multiplier: nat, len: nat := 0, 1, 0;
    ScanAdvances(data, at);
    hide Scan;
    while true
      invariant at + len <= |data| && multiplier >= 1
      invariant ScannedSoFar(data, at, len, value, multiplier)
      decreases |data| - at - len
    {
      if at + len == |data| {
        ScanCut(data, at, len, value, multiplier);
        return Short;
      }
      var c := data[at + len];
      if c < 128 {
        ScanLast(data, at, len, value, multiplier);
        return Got(value + c * multiplier, at + len + 1);
      }
      ScanStep(data, at, len, value, multiplier);
      value := value + (c - 128) * multiplier;
      multiplier := multiplier * 128;
      len := len + 1;
    }
  }

  // ---------- fixed integers and strings ----------

  function Int2(n: int): seq<byte>
    requires 0 <= n < 65536
  {
    [n / 256, n % 256]
  }

  function ReadInt(data: seq<byte>, at: nat): Read<nat> {
    if at + 2 <= |data| then Got(256 * (data[at] as int) + data[at + 1] as int, at + 2) else Short
  }

  /** Division and remainder as C has them: towards zero. */
  function TruncDiv(a: int, b: nat): int
    requires b > 0
  {
    if a >= 0 then a / b else -((-a) / b)
  }

  function TruncMod(a: int, b: nat): int
    requires b > 0
  {
    a - b * TruncDiv(a, b)
  }

  function ToByte(x: int): byte {
    x % 256
  }

  /** writeInt4: the unsigned value arrives as a signed int and is taken apart with signed arithmetic. */
  function Int4(n: nat): seq<byte>
    requires n < 0x1_0000_0000
  {
    var s := if n < 0x8000_0000 then n else n - 0x1_0000_0000;
    var s1 := TruncMod(s, 16777216);
    var s2 := TruncMod(s1, 65536);
    [ToByte(TruncDiv(s, 16777216)), ToByte(TruncDiv(s1, 65536)), ToByte(TruncDiv(s2, 256)), ToByte(TruncMod(s2, 256))]
  }

  function FromBytes(a: int, b: int, c: int, d: int): int {
    16777216 * a + 65536 * b + 256 * c + d
  }

  function ReadInt4(data: seq<byte>, at: nat): Read<nat> {
    if at + 4 <= |data|
    then Got(FromBytes(data[at], data[at + 1], data[at + 2], data[at + 3]), at + 4)
    else Short
  }

  /** writeInt4 is exact below 2^31; above, only on multiples of 2^24. */
  ghost predicate Int4Exact(n: nat) {
    n < 0x8000_0000 || n % 16777216 == 0
  }

  ghost predicate Bytes4(a: int, b: int, c: int, d: int) {
    0 <= a < 256 && 0 <= b < 256 && 0 <= c < 256 && 0 <= d < 256
  }

  lemma Digits4(n: int) returns (a: int, b: int, c: int, d: int)
    requires 0 <= n < 0x1_0000_0000
    ensures Bytes4(a, b, c, d) && n == FromBytes(a, b, c, d)
  {
    d := n % 256;
    var n1 := n / 256;
    c := n1 % 256;
    var n2 := n1 / 256;
    b := n2 % 256;
    a := n2 / 256;
  }

  lemma Peel24(q: int, r: int)
    requires 0 <= q && 0 <= r < 16777216
    ensures (16777216 * q + r) / 16777216 == q && (16777216 * q + r) % 16777216 == r
  {
  }

  lemma Peel16(q: int, r: int)
    requires 0 <= q && 0 <= r < 65536
    ensures (65536 * q + r) / 65536 == q
  {
  }

  lemma Peel8(q: int, r: int)
    requires 0 <= q && 0 <= r < 256
    ensures (256 * q + r) / 256 == q
  {
  }

  lemma Int4Positive(n: nat, a: int, b: int, c: int, d: int)
    requires n < 0x8000_0000 && Bytes4(a, b, c, d) && n == FromBytes(a, b, c, d)
    ensures Int4(n) == [a, b, c, d]
  {
    var s1, s2 := 65536 * b + 256 * c + d, 256 * c + d;
    Peel24(a, s1);
    Peel16(b, s2);
    Peel8(c, d);
    assert TruncDiv(n, 16777216) == a && TruncMod(n, 16777216) == s1;
    assert TruncDiv(s1, 65536) == b && TruncMod(s1, 65536) == s2;
    assert TruncDiv(s2, 256) == c && TruncMod(s2, 256) == d;
    Small(a);
    Small(b);
    Small(c);
    Small(d);
  }

  lemma Small(a: int)
    requires 0 <= a < 256
    ensures ToByte(a) == a
  {
  }

  lemma Int4Negative(n: nat, a: int, b: int, c: int, d: int)
    requires 0x8000_0000 <= n < 0x1_0000_0000 && Bytes4(a, b, c, d)
    requires 0x1_0000_0000 - n == FromBytes(a, b, c, d)
    ensures Int4(n) == [ToByte(-a), ToByte(-b), ToByte(-c), ToByte(-d)]
  {
    var s, s1, s2 := -FromBytes(a, b, c, d), -(65536 * b + 256 * c + d), -(256 * c + d);
    Peel24(a, -s1);
    Peel16(b, -s2);
    Peel8(c, d);
    assert TruncDiv(s, 16777216) == -a && TruncMod(s, 16777216) == s1;
    assert TruncDiv(s1, 65536) == -b && TruncMod(s1, 65536) == s2;
    assert TruncDiv(s2, 256) == -c && TruncMod(s2, 256) == -d;
  }

  lemma Negated(a: int)
    requires 0 <= a < 256
    ensures ToByte(-a) == if a == 0 then 0 else 256 - a
  {
  }

  lemma NegatedBytes(n: nat, a: int, b: int, c: int, d: int)
    requires Bytes4(a, b, c, d)
    requires n == 0x1_0000_0000 - FromBytes(a, b, c, d) && 0x8000_0000 <= n < 0x1_0000_0000
    ensures FromBytes(ToByte(-a), ToByte(-b), ToByte(-c), ToByte(-d)) == n <==> b == c == d == 0
    ensures n % 16777216 == 0 <==> b == c == d == 0
  {
    Negated(a);
    Negated(b);
    Negated(c);
    Negated(d);
    var r := 65536 * b + 256 * c + d;
    if r == 0 {
      Peel24(256 - a, 0);
    } else {
      Peel24(255 - a, 16777216 - r);
    }
  }

  lemma Int4ExactIff(n: nat)
    requires n < 0x1_0000_0000
    ensures ReadInt4(Int4(n), 0) == Got(n, 4) <==> Int4Exact(n)
  {
    if n < 0x8000_0000 {
      var a, b, c, d := Digits4(n);
      Int4Positive(n, a, b, c, d);
    } else {
      var a, b, c, d := Digits4(0x1_0000_0000 - n);
      Int4Negative(n, a, b, c, d);
      NegatedBytes(n, a, b, c, d);
    }
  }

  /** Length-delimited data: writeData, writeMQTTLenString. */
  function LenString(s: seq<byte>): seq<byte>
    requires |s| < 65536
  {
    Int2(|s|) + s
  }

  datatype StringRead = Str(value: seq<byte>, next: nat) | NoLength | Overrun

  /** MQTTLenStringRead and readUTFlen: both bounds are checked against the end of the data. */
  function ReadLenString(data: seq<byte>, at: nat): StringRead {
    match ReadInt(data, at)
    case Short => NoLength
    case Got(len, next) => if next + len <= |data| then Str(data[next..next + len], next + len) else Overrun
  }

  lemma ReadIntInverts(data: seq<byte>, at: nat, n: int)
    requires 0 <= n < 65536 && HasAt(data, at, Int2(n))
    ensures ReadInt(data, at) == Got(n, at + 2)
  {
    var w := data[at..at + 2];
    assert w[0] == data[at] && w[1] == data[at + 1];
  }

  /** What readInt4 makes of what writeInt4 wrote. */
  function Reread4(n: nat): (r: nat)
    requires n < 0x1_0000_0000
  {
    ReadInt4(Int4(n), 0).value
  }

  lemma ReadInt4Anywhere(data: seq<byte>, at: nat, n: nat)
    requires n < 0x1_0000_0000 && HasAt(data, at, Int4(n))
    ensures ReadInt4(data, at) == Got(Reread4(n), at + 4)
  {
    var w := data[at..at + 4];
    assert w == Int4(n);
    assert w[0] == data[at] && w[1] == data[at + 1] && w[2] == data[at + 2] && w[3] == data[at + 3];
  }

  lemma ReadLenStringInverts(data: seq<byte>, at: nat, s: seq<byte>)
    requires |s| < 65536 && HasAt(data, at, LenString(s))
    ensures ReadLenString(data, at) == Str(s, at + 2 + |s|)
  {
    HasAtConcat(data, at, Int2(|s|), s);
    ReadIntInverts(data, at, |s|);
  }

  // ---------- writing through a moving pointer ----------

  class Writer {
    const buf: array<byte>
    var at: nat

    ghost predicate Valid()
      reads this
    {
      at <= buf.Length
    }

    ghost function Written(): seq<byte>
      requires Valid()
      reads this, buf
    {
      buf[..at]
    }

    constructor (size: nat)
      ensures Valid() && fresh(buf) && buf.Length == size && Written() == []
    {
      buf := new byte[size](_ => 0);
      at := 0;
    }

    method WriteChar(c: byte)
      requires Valid() && at + 1 <= buf.Length
      modifies this, buf
      ensures Valid() && Written() == old(Written()) + [c]
    {
      buf[at] := c;
      at := at + 1;
    }

    method WriteInt(n: int)
      requires Valid() && 0 <= n < 65536 && at + 2 <= buf.Length
      modifies this, buf
      ensures Valid() && Written() == old(Written()) + Int2(n)
    {
      WriteChar(n / 256);
      WriteChar(n % 256);
    }

    method WriteInt4(n: nat)
      requires Valid() && n < 0x1_0000_0000 && at + 4 <= buf.Length
      modifies this, buf
      ensures Valid() && Written() == old(Written()) + Int4(n)
    {
      var i := if n < 0x8000_0000 then n else n - 0x1_0000_0000;
      WriteChar(ToByte(TruncDiv(i, 16777216)));
      i := TruncMod(i, 16777216);
      WriteChar(ToByte(TruncDiv(i, 65536)));
      i := TruncMod(i, 65536);
      WriteChar(ToByte(TruncDiv(i, 256)));
      WriteChar(ToByte(TruncMod(i, 256)));
    }

    /** memcpy to the pointer, then advance it. */
    method CopyIn(data: seq<byte>)
      requires Valid() && at + |data| <= buf.Length
      modifies this, buf
      ensures Valid() && Written() == old(Written()) + data
    {
      var i := 0;
      while i < |data|
        invariant 0 <= i <= |data| && at == old(at)
        invariant buf[..at + i] == old(Written()) + data[..i]
      {
        buf[at + i] := data[i];
        i := i + 1;
      }
      assert data[..i] == data;
      at := at + |data|;
    }

    method WriteLenString(s: seq<byte>)
      requires Valid() && |s| < 65536 && at + 2 + |s| <= buf.Length
      modifies this, buf
      ensures Valid() && Written() == old(Written()) + LenString(s)
    {
      WriteInt(|s|);
      CopyIn(s);
    }

    method WriteVbi(n: nat) returns (rc: nat)
      requires Valid() && at + |Vbi(n)| <= buf.Length
      modifies this, buf
      ensures Valid() && rc == |Vbi(n)| && Written() == old(Written()) + Vbi(n)
    {
      rc := Encode(buf, at, n);
      assert buf[..at + rc] == buf[..at] + buf[at..at + rc];
      at := at + rc;
    }
  }
}
