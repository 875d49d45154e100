/** The property lists of MQTT version 5: MQTTProperties.c. */
module Properties {
  import opened Wire

  datatype PropType =
    | ByteValue | TwoByteInteger | FourByteInteger | VariableByteInteger
    | BinaryData | Utf8String | Utf8Pair | Unknown

  /** The union of the C structure: which member is in use follows from the identifier's type. */
  datatype PropValue = NoValue | Number(n: nat) | Text(data: seq<byte>) | TextPair(name: seq<byte>, value: seq<byte>)

  datatype Property = Property(id: byte, value: PropValue)

  /** MQTTProperty_getType; Unknown stands for -1. */
  function TypeOf(id: int): PropType {
    if id == 1 || id == 23 || id == 25 || id == 36 || id == 37 || id == 40 || id == 41 || id == 42 then ByteValue
    else if id == 19 || id == 33 || id == 34 || id == 35 then TwoByteInteger
    else if id == 2 || id == 17 || id == 24 || id == 39 then FourByteInteger
    else if id == 11 then VariableByteInteger
    else if id == 9 || id == 22 then BinaryData
    else if id == 3 || id == 8 || id == 18 || id == 21 || id == 26 || id == 28 || id == 31 then Utf8String
    else if id == 38 then Utf8Pair
    else Unknown
  }

  /** The value is of the identifier's type and within what the encoding can carry. */
  predicate Writable(p: Property) {
    match TypeOf(p.id)
    case ByteValue => p.value.Number? && p.value.n < 256
    case TwoByteInteger => p.value.Number? && p.value.n < 65536
    case FourByteInteger => p.value.Number? && p.value.n < 0x1_0000_0000
    case VariableByteInteger => p.value.Number? && p.value.n < VBI_LIMIT
    case BinaryData => p.value.Text? && |p.value.data| < 65536
    case Utf8String => p.value.Text? && |p.value.data| < 65536
    case Utf8Pair => p.value.TextPair? && |p.value.name| < 65536 && |p.value.value| < 65536
    case Unknown => false
  }

  function ValueBytes(p: Property): seq<byte>
    requires Writable(p)
  {
    match TypeOf(p.id)
    case ByteValue => [p.value.n]
    case TwoByteInteger => Int2(p.value.n)
    case FourByteInteger => Int4(p.value.n)
    case VariableByteInteger => Vbi(p.value.n)
    case BinaryData => LenString(p.value.data)
    case Utf8String => LenString(p.value.data)
    case Utf8Pair => LenString(p.value.name) + LenString(p.value.value)
  }

  function PropertyBytes(p: Property): seq<byte>
    requires Writable(p)
  {
    [p.id] + ValueBytes(p)
  }

  /** The length MQTTProperties_add computes, identifier byte included. */
  function PropertySize(p: Property): (r: nat)
    requires Writable(p)
    ensures r > 1
  {
    1 + match TypeOf(p.id)
        case ByteValue => 1
        case TwoByteInteger => 2
        case FourByteInteger => 4
        case VariableByteInteger => VbiLen(p.value.n)
        case BinaryData => 2 + |p.value.data|
        case Utf8String => 2 + |p.value.data|
        case Utf8Pair => 2 + |p.value.name| + 2 + |p.value.value|
  }

  lemma SizeIsLength(p: Property)
    requires Writable(p)
    ensures |PropertyBytes(p)| == PropertySize(p)
  {
    if TypeOf(p.id) == VariableByteInteger {
      VbiLenExactIff(p.value.n);
    }
  }

  predicate AllWritable(ps: seq<Property>) {
    forall i :: 0 <= i < |ps| ==> Writable(ps[i])
  }

  function ListBytes(ps: seq<Property>): seq<byte>
    requires AllWritable(ps)
  {
    if ps == [] then [] else PropertyBytes(ps[0]) + ListBytes(ps[1..])
  }

  function TotalSize(ps: seq<Property>): nat
    requires AllWritable(ps)
  {
    if ps == [] then 0 else PropertySize(ps[0]) + TotalSize(ps[1..])
  }

  lemma {:induction false} TotalIsLength(ps: seq<Property>)
    requires AllWritable(ps)
    ensures |ListBytes(ps)| == TotalSize(ps)
  {
    if ps != [] {
      SizeIsLength(ps[0]);
      TotalIsLength(ps[1..]);
    }
  }

  lemma {:induction false} TotalAppend(ps: seq<Property>, p: Property)
    requires AllWritable(ps) && Writable(p)
    ensures TotalSize(ps + [p]) == TotalSize(ps) + PropertySize(p)
    ensures ListBytes(ps + [p]) == ListBytes(ps) + PropertyBytes(p)
  {
    hide PropertySize, PropertyBytes, Writable;
    if ps == [] {
      assert ps + [p] == [p] && [p][1..] == [];
      OneProperty(p);
    } else {
      var q, rest := ps[0], ps[1..];
      assert (ps + [p])[1..] == rest + [p] && (ps + [p])[0] == q;
      TotalAppend(rest, p);
      assert PropertyBytes(q) + (ListBytes(rest) + PropertyBytes(p))
          == PropertyBytes(q) + ListBytes(rest) + PropertyBytes(p);
    }
  }

  lemma OneProperty(p: Property)
    requires Writable(p)
    ensures TotalSize([p]) == TotalSize([]) + PropertySize(p) && ListBytes([p]) == ListBytes([]) + PropertyBytes(p)
  {
    hide PropertySize, PropertyBytes, Writable;
    assert [p][1..] == [];
    assert PropertyBytes(p) + [] == PropertyBytes(p);
  }

  /** A whole list on the wire: its length first. */
  function PropertiesBytes(ps: seq<Property>): seq<byte>
    requires AllWritable(ps)
  {
    Vbi(TotalSize(ps)) + ListBytes(ps)
  }

  /** MQTTProperties_len. */
  function PropertiesLen(length: nat): nat {
    length + VbiLen(length)
  }

  lemma LenIsBytesWritten(ps: seq<Property>)
    requires AllWritable(ps) && TotalSize(ps) < VBI_LIMIT
    ensures |PropertiesBytes(ps)| == PropertiesLen(TotalSize(ps))
  {
    TotalIsLength(ps);
    VbiLenExactIff(TotalSize(ps));
  }

  // ---------- reading ----------

  datatype PropertyRead = PropertyGot(prop: Property, next: nat, len: nat) | PropertyOutside

  /** MQTTProperty_read. */
  function ReadProperty(data: seq<byte>, at: nat): PropertyRead {
    if at >= |data| then PropertyOutside
    else
      var id := data[at];
      match TypeOf(id)
      case ByteValue =>
        if at + 1 < |data| then PropertyGot(Property(id, Number(data[at + 1])), at + 2, 2) else PropertyOutside
      case TwoByteInteger =>
        (match ReadInt(data, at + 1)
         case Got(n, next) => PropertyGot(Property(id, Number(n)), next, 3)
         case Short => PropertyOutside)
      case FourByteInteger =>
        (match ReadInt4(data, at + 1)
         case Got(n, next) => PropertyGot(Property(id, Number(n)), next, 5)
         case Short => PropertyOutside)
      case VariableByteInteger =>
        (match DecodedBuf(data, at + 1)
         case BufValue(len, n) => PropertyGot(Property(id, Number(n)), at + 1 + len, len + 1)
         case PastEnd => PropertyOutside)
      case BinaryData => ReadText(data, at)
      case Utf8String => ReadText(data, at)
      case Utf8Pair => ReadPair(data, at)
      case Unknown => PropertyGot(Property(id, NoValue), at + 1, 1)
  }

  function ReadText(data: seq<byte>, at: nat): PropertyRead
    requires at < |data|
  {
    match ReadLenString(data, at + 1)
    case Str(s, next) => PropertyGot(Property(data[at], Text(s)), next, 3 + |s|)
    case _ => PropertyOutside
  }

  function ReadPair(data: seq<byte>, at: nat): PropertyRead
    requires at < |data|
  {
    match ReadLenString(data, at + 1)
    case Str(s, next) =>
      (match ReadLenString(data, next)
       case Str(t, next2) => PropertyGot(Property(data[at], TextPair(s, t)), next2, 5 + |s| + |t|)
       case _ => PropertyOutside)
    case _ => PropertyOutside
  }

  datatype ListRead = ListGot(props: seq<Property>, next: nat) | Rejected | ListOutside

  lemma ReadAdvances(data: seq<byte>, at: nat)
    ensures ReadProperty(data, at).PropertyGot? ==> at < ReadProperty(data, at).next && at < |data|
  {
  }

  /** The loop of MQTTProperties_read: it goes on until the unsigned remaining length is exactly zero. */
  function ReadList(data: seq<byte>, at: nat, remaining: nat): ListRead
    decreases if at <= |data| then |data| - at else 0
  {
    if remaining == 0 then ListGot([], at)
    else
      match ReadProperty(data, at)
      case PropertyOutside => ListOutside
      case PropertyGot(p, next, len) =>
        ReadAdvances(data, at);
        match ReadList(data, next, (remaining - len) % 0x1_0000_0000)
        case ListGot(ps, end) => ListGot([p] + ps, end)
        case r => r
  }

  function ReadProperties(data: seq<byte>, at: nat): ListRead {
    if at >= |data| then Rejected
    else
      match DecodedBuf(data, at)
      case PastEnd => ListOutside
      case BufValue(len, remaining) => ReadList(data, at + len, remaining)
  }

  /** MQTTProperties_read as it runs. */
  method ReadPropertiesLoop(data: seq<byte>, at: nat) returns (r: ListRead)
    requires at <= |data|
    ensures r == ReadProperties(data, at)
  {
    hide ReadProperty, DecodedBuf;
    if at >= |data| {
      return Rejected;
    }
    var d := DecodeBuf(data, at);
    if d.PastEnd? {
      return ListOutside;
    }
    var pos, remaining: nat := at + d.len, d.value;
    var props: seq<Property> := [];
    while remaining > 0
      invariant ReadProperties(data, at) == Prepend(props, ReadList(data, pos, remaining))
      decreases if pos <= |data| then |data| - pos else 0
    {
      var p := ReadProperty(data, pos);
      if p.PropertyOutside? {
        return ListOutside;
      }
      ReadAdvances(data, pos);
      PrependStep(props, p.prop, ReadList(data, p.next, (remaining - p.len) % 0x1_0000_0000));
      remaining := (remaining - p.len) % 0x1_0000_0000;
      pos := p.next;
      props := props + [p.prop];
    }
    assert props + [] == props;
    return ListGot(props, pos);
  }

  function Prepend(ps: seq<Property>, r: ListRead): ListRead {
    if r.ListGot? then ListGot(ps + r.props, r.next) else r
  }

  lemma PrependStep(ps: seq<Property>, p: Property, r: ListRead)
    ensures Prepend(ps, Prepend([p], r)) == Prepend(ps + [p], r)
  {
    if r.ListGot? {
      assert ps + ([p] + r.props) == ps + [p] + r.props;
    }
  }

  // ---------- the identifiers ----------

  predicate SingleByte(id: byte) { id in {1, 23, 25, 36, 37, 40, 41, 42} }

  predicate TwoBytes(id: byte) { id in {19, 33, 34, 35} }

  predicate FourBytes(id: byte) { id in {2, 17, 24, 39} }

  predicate Variable(id: byte) { id == 11 }

  predicate Bytes(id: byte) { id in {3, 8, 9, 18, 21, 22, 26, 28, 31} }

  predicate TwoStrings(id: byte) { id == 38 }

  /** Section 2.2.2.2 of MQTT 5.0, from the bytes on the wire: what each of the 27 identifiers is followed
      by, and that no other one is followed by anything. */
  lemma IdentifiersOnTheWire(id: byte, b0: byte, b1: byte, b2: byte, b3: byte)
    ensures SingleByte(id) ==> ReadProperty([id, b0, b1], 0) == PropertyGot(Property(id, Number(b0)), 2, 2)
    ensures TwoBytes(id) ==>
              ReadProperty([id, b0, b1, b2], 0) == PropertyGot(Property(id, Number(256 * b0 + b1)), 3, 3)
    ensures FourBytes(id) ==>
              ReadProperty([id, b0, b1, b2, b3], 0)
              == PropertyGot(Property(id, Number(16777216 * b0 + 65536 * b1 + 256 * b2 + b3)), 5, 5)
    ensures Variable(id) && b0 >= 128 && b1 < 128 ==>
              ReadProperty([id, b0, b1, b2], 0) == PropertyGot(Property(id, Number(b0 - 128 + 128 * b1)), 3, 3)
    ensures Bytes(id) ==> ReadProperty([id, 0, 2, b0, b1, b2], 0) == PropertyGot(Property(id, Text([b0, b1])), 5, 5)
    ensures TwoStrings(id) ==>
              ReadProperty([id, 0, 1, b0, 0, 1, b1, b2], 0)
              == PropertyGot(Property(id, TextPair([b0], [b1])), 7, 7)
    ensures !(SingleByte(id) || TwoBytes(id) || FourBytes(id) || Variable(id) || Bytes(id) || TwoStrings(id)) ==>
              ReadProperty([id, b0, b1], 0) == PropertyGot(Property(id, NoValue), 1, 1)
  {
    if Variable(id) && b0 >= 128 && b1 < 128 {
      VariableOnTheWire(id, b0, b1, b2);
    }
    var text, pair := [id, 0, 2, b0, b1, b2], [id, 0, 1, b0, 0, 1, b1, b2];
    assert text[3..5] == [b0, b1];
    assert pair[3..4] == [b0] && pair[6..7] == [b1];
  }

  lemma VariableOnTheWire(id: byte, b0: byte, b1: byte, b2: byte)
    requires b0 >= 128 && b1 < 128
    ensures DecodedBuf([id, b0, b1, b2], 1) == BufValue(2, b0 - 128 + 128 * b1)
  {
    var data := [id, b0, b1, b2];
    assert Scan(data, 2) == Got(b1, 3);
    assert Scan(data, 1) == Got(b0 % 128 + 128 * b1, 3);
  }

  // ---------- round trip ----------

  /** writeInt4 and readInt4 agree on the value; every other type always does. */
  ghost predicate Exact(p: Property)
    requires Writable(p)
  {
    TypeOf(p.id) == FourByteInteger ==> Int4Exact(p.value.n)
  }

  /** What is read where p was written. */
  function Reread(p: Property): (r: Property)
    requires Writable(p)
  {
    if TypeOf(p.id) == FourByteInteger then p.(value := Number(Reread4(p.value.n))) else p
  }

  lemma RereadSameIff(p: Property)
    requires Writable(p)
    ensures Reread(p) == p <==> Exact(p)
  {
    if TypeOf(p.id) == FourByteInteger {
      hide Int4, Int4Exact;
      Int4ExactIff(p.value.n);
    }
  }

  lemma NumberRoundTrip(data: seq<byte>, at: nat, p: Property)
    requires Writable(p) && at < |data| && data[at] == p.id && HasAt(data, at + 1, ValueBytes(p))
    requires TypeOf(p.id) == ByteValue || TypeOf(p.id) == TwoByteInteger || TypeOf(p.id) == FourByteInteger
    ensures ReadProperty(data, at) == PropertyGot(Reread(p), at + 1 + |ValueBytes(p)|, 1 + |ValueBytes(p)|)
  {
    match TypeOf(p.id)
    case ByteValue => assert data[at + 1..at + 2][0] == data[at + 1];
    case TwoByteInteger => ReadIntInverts(data, at + 1, p.value.n);
    case FourByteInteger =>
      hide Int4, Reread4;
      FourBytesLong(p.value.n);
      ReadInt4Anywhere(data, at + 1, p.value.n);
  }

  lemma FourBytesLong(n: nat)
    requires n < 0x1_0000_0000
    ensures |Int4(n)| == 4
  {
  }

  lemma VariableRoundTrip(data: seq<byte>, at: nat, p: Property)
    requires Writable(p) && at < |data| && data[at] == p.id && HasAt(data, at + 1, ValueBytes(p))
    requires TypeOf(p.id) == VariableByteInteger
    ensures ReadProperty(data, at) == PropertyGot(p, at + 1 + |ValueBytes(p)|, 1 + |ValueBytes(p)|)
  {
    DecodedBufInverts(data, at + 1, p.value.n);
  }

  lemma TextRoundTrip(data: seq<byte>, at: nat, p: Property)
    requires Writable(p) && at < |data| && data[at] == p.id && HasAt(data, at + 1, ValueBytes(p))
    requires TypeOf(p.id) == BinaryData || TypeOf(p.id) == Utf8String
    ensures ReadProperty(data, at) == PropertyGot(p, at + 1 + |ValueBytes(p)|, 1 + |ValueBytes(p)|)
  {
    ReadLenStringInverts(data, at + 1, p.value.data);
  }

  lemma PairRoundTrip(data: seq<byte>, at: nat, p: Property)
    requires Writable(p) && at < |data| && data[at] == p.id && HasAt(data, at + 1, ValueBytes(p))
    requires TypeOf(p.id) == Utf8Pair
    ensures ReadProperty(data, at) == PropertyGot(p, at + 1 + |ValueBytes(p)|, 1 + |ValueBytes(p)|)
  {
    hide ReadLenString;
    HasAtConcat(data, at + 1, LenString(p.value.name), LenString(p.value.value));
    ReadLenStringInverts(data, at + 1, p.value.name);
    ReadLenStringInverts(data, at + 1 + |LenString(p.value.name)|, p.value.value);
  }

  lemma PropertyRoundTrip(data: seq<byte>, at: nat, p: Property)
    requires Writable(p) && HasAt(data, at, PropertyBytes(p))
    ensures ReadProperty(data, at) == PropertyGot(Reread(p), at + PropertySize(p), PropertySize(p))
  {
    HasAtConcat(data, at, [p.id], ValueBytes(p));
    assert data[at..at + 1][0] == data[at];
    SizeIsLength(p);
    hide ReadProperty, ValueBytes;
    match TypeOf(p.id)
    case VariableByteInteger => VariableRoundTrip(data, at, p);
    case BinaryData => TextRoundTrip(data, at, p);
    case Utf8String => TextRoundTrip(data, at, p);
    case Utf8Pair => PairRoundTrip(data, at, p);
    case _ => NumberRoundTrip(data, at, p);
  }

  ghost predicate AllExact(ps: seq<Property>)
    requires AllWritable(ps)
  {
    forall i :: 0 <= i < |ps| ==> Exact(ps[i])
  }

  function RereadAll(ps: seq<Property>): (r: seq<Property>)
    requires AllWritable(ps)
    ensures |r| == |ps| && forall i :: 0 <= i < |ps| ==> r[i] == Reread(ps[i])
  {
    seq(|ps|, i requires 0 <= i < |ps| => Reread(ps[i]))
  }

  lemma RereadAllSameIff(ps: seq<Property>)
    requires AllWritable(ps)
    ensures RereadAll(ps) == ps <==> AllExact(ps)
  {
    hide Exact, Reread, Writable;
    forall i | 0 <= i < |ps| ensures RereadAll(ps)[i] == ps[i] <==> Exact(ps[i]) {
      RereadSameIff(ps[i]);
    }
    if RereadAll(ps) != ps {
      assert exists i :: 0 <= i < |ps| && RereadAll(ps)[i] != ps[i];
    }
  }

  lemma ReadOneMore(data: seq<byte>, at: nat, p: Property, size: nat, rest: nat, ps: seq<Property>, end: nat)
    requires size > 0 && size + rest < VBI_LIMIT
    requires ReadProperty(data, at) == PropertyGot(p, at + size, size)
    requires ReadList(data, at + size, rest) == ListGot(ps, end)
    ensures ReadList(data, at, size + rest) == ListGot([p] + ps, end)
  {
    hide ReadProperty;
    NoWrap(rest);
    assert size + rest - size == rest;
  }

  lemma NoWrap(n: nat)
    requires n < 0x1_0000_0000
    ensures n % 0x1_0000_0000 == n
  {
  }

  lemma ReadNothing(data: seq<byte>, at: nat)
    ensures ReadList(data, at, 0) == ListGot([], at)
  {
  }

  lemma {:induction false} ListRoundTrip(data: seq<byte>, at: nat, ps: seq<Property>)
    requires AllWritable(ps) && TotalSize(ps) < VBI_LIMIT
    requires HasAt(data, at, ListBytes(ps))
    ensures ReadList(data, at, TotalSize(ps)) == ListGot(RereadAll(ps), at + TotalSize(ps))
    decreases |ps|
  {
    hide PropertyBytes, ReadProperty, PropertySize, Reread, Writable, ReadList, HasAt;
    if ps == [] {
      ReadNothing(data, at);
    } else {
      var p, rest := ps[0], ps[1..];
      HasAtConcat(data, at, PropertyBytes(p), ListBytes(rest));
      PropertyRoundTrip(data, at, p);
      SizeIsLength(p);
      ListRoundTrip(data, at + PropertySize(p), rest);
      ReadOneMore(data, at, Reread(p), PropertySize(p), TotalSize(rest), RereadAll(rest), at + TotalSize(ps));
      assert RereadAll(ps) == [Reread(p)] + RereadAll(rest);
    }
  }

  /**
    Section 2.2.2 of MQTT 5.0: reading what was written, wherever it stands in a packet and whatever
    follows it, stops at the byte after it and gives back the same list, if and only if every
    four-byte integer in it is one that writeInt4 writes exactly.
  */
  lemma PropertiesRoundTripIff(data: seq<byte>, at: nat, ps: seq<Property>)
    requires AllWritable(ps) && TotalSize(ps) < VBI_LIMIT
    requires HasAt(data, at, PropertiesBytes(ps))
    ensures ReadProperties(data, at) == ListGot(RereadAll(ps), at + |PropertiesBytes(ps)|)
    ensures ReadProperties(data, at) == ListGot(ps, at + |PropertiesBytes(ps)|) <==> AllExact(ps)
  {
    hide ReadList, DecodedBuf, Vbi, TotalSize, ListBytes, AllExact;
    var n := TotalSize(ps);
    HasAtConcat(data, at, Vbi(n), ListBytes(ps));
    TotalIsLength(ps);
    DecodedBufInverts(data, at, n);
    ListRoundTrip(data, at + |Vbi(n)|, ps);
    RereadAllSameIff(ps);
  }

  lemma DecodedBufInverts(data: seq<byte>, at: nat, n: nat)
    requires n < VBI_LIMIT && HasAt(data, at, Vbi(n))
    ensures DecodedBuf(data, at) == BufValue(|Vbi(n)|, n)
  {
    ScanInvertsVbi(data, at, n);
    FourBytesIff(n);
  }

  // ---------- building and writing ----------

  const INVALID_PROPERTY_ID := -2

  /** The growing array of MQTTProperties. */
  class PropertyList {
    var items: seq<Property>
    var maxCount: nat
    var length: nat

    /** length is the sum of the encoded sizes. */
    ghost predicate Valid()
      reads this
    {
      AllWritable(items) && |items| <= maxCount && length == TotalSize(items)
    }

    constructor ()
      ensures Valid() && items == []
    {
      items, maxCount, length := [], 0, 0;
    }

    /** MQTTProperties_add; an unknown identifier is refused and nothing changes. */
    method Add(p: Property) returns (rc: int)
      requires Valid() && (Writable(p) || TypeOf(p.id) == Unknown)
      modifies this
      ensures Valid()
      ensures TypeOf(p.id) == Unknown ==> rc == INVALID_PROPERTY_ID && items == old(items) && maxCount == old(maxCount)
      ensures TypeOf(p.id) != Unknown ==> rc == 0 && items == old(items) + [p]
    {
      if TypeOf(p.id) == Unknown {
        return INVALID_PROPERTY_ID;
      }
      if maxCount == 0 {
        maxCount := 10;
      } else if |items| == maxCount {
        maxCount := maxCount + 10;
      }
      TotalAppend(items, p);
      items := items + [p];
      length := length + PropertySize(p);
      rc := 0;
    }

    /** MQTTProperties_copy: adding one by one gives the same list with the same length. */
    method Copy() returns (result: PropertyList)
      requires Valid()
      ensures result.Valid() && fresh(result)
      ensures result.items == items && result.length == length
    {
      result := new PropertyList();
      var i := 0;
      while i < |items|
        invariant 0 <= i <= |items| && result.Valid() && fresh(result)
        invariant result.items == items[..i]
      {
        var rc := result.Add(items[i]);
        i := i + 1;
      }
      assert items[..i] == items;
    }
  }

  method WriteNumber(w: Writer, p: Property) returns (rc: int)
    requires w.Valid() && Writable(p) && p.value.Number? && w.at + |ValueBytes(p)| <= w.buf.Length
    modifies w, w.buf
    ensures w.Valid() && w.Written() == old(w.Written()) + ValueBytes(p)
    ensures rc == |ValueBytes(p)|
  {
    match TypeOf(p.id) {
      case ByteValue => w.WriteChar(p.value.n); rc := 1;
      case TwoByteInteger => w.WriteInt(p.value.n); rc := 2;
      case FourByteInteger => w.WriteInt4(p.value.n); rc := 4;
      case VariableByteInteger => rc := w.WriteVbi(p.value.n);
    }
  }

  method WritePair(w: Writer, name: seq<byte>, value: seq<byte>) returns (rc: int)
    requires w.Valid() && |name| < 65536 && |value| < 65536 && w.at + 4 + |name| + |value| <= w.buf.Length
    modifies w, w.buf
    ensures w.Valid() && w.Written() == old(w.Written()) + (LenString(name) + LenString(value))
    ensures rc == |LenString(name) + LenString(value)|
  {
    w.WriteLenString(name);
    w.WriteLenString(value);
    rc := |name| + |value| + 4;
  }

  /** MQTTProperty_write. */
  method WriteProperty(w: Writer, p: Property) returns (rc: int)
    requires w.Valid() && Writable(p) && w.at + |PropertyBytes(p)| <= w.buf.Length
    modifies w, w.buf
    ensures w.Valid() && w.Written() == old(w.Written()) + PropertyBytes(p)
    ensures rc == |PropertyBytes(p)|
  {
    hide ValueBytes;
    w.WriteChar(p.id);
    rc := WriteValue(w, p);
    assert old(w.Written()) + [p.id] + ValueBytes(p) == old(w.Written()) + ([p.id] + ValueBytes(p));
    rc := rc + 1;
  }

  method WriteValue(w: Writer, p: Property) returns (rc: int)
    requires w.Valid() && Writable(p) && w.at + |ValueBytes(p)| <= w.buf.Length
    modifies w, w.buf
    ensures w.Valid() && w.Written() == old(w.Written()) + ValueBytes(p)
    ensures rc == |ValueBytes(p)|
  {
    hide Vbi, Int4;
    match p.value {
      case Number(_) => rc := WriteNumber(w, p);
      case TextPair(name, value) => rc := WritePair(w, name, value);
      case Text(data) =>
        w.WriteLenString(data);
        rc := |data| + 2;
    }
  }

  lemma {:induction false} ListBytesSplit(ps: seq<Property>, i: nat)
    requires AllWritable(ps) && i < |ps|
    ensures |ListBytes(ps[..i])| + |PropertyBytes(ps[i])| <= |ListBytes(ps)|
    ensures ListBytes(ps[..i + 1]) == ListBytes(ps[..i]) + PropertyBytes(ps[i])
  {
    assert ps[..i + 1] == ps[..i] + [ps[i]];
    TotalAppend(ps[..i], ps[i]);
    ListBytesPrefix(ps, i + 1);
  }

  lemma {:induction false} ListBytesPrefix(ps: seq<Property>, i: nat)
    requires AllWritable(ps) && i <= |ps|
    ensures |ListBytes(ps[..i])| <= |ListBytes(ps)|
    decreases |ps| - i
  {
    if i == |ps| {
      assert ps[..i] == ps;
    } else {
      assert ps[..i + 1] == ps[..i] + [ps[i]];
      TotalAppend(ps[..i], ps[i]);
      ListBytesPrefix(ps, i + 1);
    }
  }

  method WriteEach(w: Writer, ps: seq<Property>) returns (len: int)
    requires w.Valid() && AllWritable(ps) && w.at + |ListBytes(ps)| <= w.buf.Length
    modifies w, w.buf
    ensures w.Valid() && w.Written() == old(w.Written()) + ListBytes(ps)
    ensures len == 1 + |ListBytes(ps)|
  {
    hide PropertyBytes, PropertySize, Writable;
    len := 1;
    var i := 0;
    while i < |ps|
      invariant 0 <= i <= |ps| && w.Valid()
      invariant w.Written() == old(w.Written()) + ListBytes(ps[..i])
      invariant len == 1 + |ListBytes(ps[..i])|
    {
      ListBytesSplit(ps, i);
      var n := WriteProperty(w, ps[i]);
      assert w.Written() == old(w.Written()) + (ListBytes(ps[..i]) + PropertyBytes(ps[i]));
      len := len + n;
      i := i + 1;
    }
    assert ps[..i] == ps;
  }

  /** MQTTProperties_write: the pointer advances by exactly MQTTProperties_len; the value returned
      counts the length field as one byte. */
  method WriteProperties(w: Writer, ps: seq<Property>) returns (rc: int)
    requires w.Valid() && AllWritable(ps) && TotalSize(ps) < VBI_LIMIT
    requires w.at + PropertiesLen(TotalSize(ps)) <= w.buf.Length
    modifies w, w.buf
    ensures w.Valid() && w.Written() == old(w.Written()) + PropertiesBytes(ps)
    ensures w.at == old(w.at) + PropertiesLen(TotalSize(ps))
    ensures rc == 1 + TotalSize(ps)
  {
    hide Vbi, TotalSize, ListBytes;
    LenIsBytesWritten(ps);
    TotalIsLength(ps);
    var lenBytes := w.WriteVbi(TotalSize(ps));
    rc := WriteEach(w, ps);
    assert w.Written() == old(w.Written()) + (Vbi(TotalSize(ps)) + ListBytes(ps));
    assert |w.Written()| == w.at;
  }
}
