/**
  PUBLISH on the wire and in the store: MQTTPacket_send_publish against MQTTPacket_publish, read
  either by MQTTPacket_Factory from the network or by MQTTPersistence_restorePacket from a record.
  A record is the packet itself: MQTTPersistence_putPacket stores the buffers that are sent.
*/
module PublishPacket {
  import opened Wire
  import opened Properties

  const PUBLISH := 3
  const PUBREL := 6

  datatype Publish = Publish(
    dup: bool, qos: nat, retain: bool,
    topic: seq<byte>, msgId: nat, properties: seq<Property>, payload: seq<byte>)

  function Bit(b: bool): nat {
    if b then 1 else 0
  }

  /** The Header union: type in the upper nibble, then dup, two bits of QoS, retain. */
  function HeaderByte(kind: nat, dup: bool, qos: nat, retain: bool): byte
    requires kind < 16 && qos < 4
  {
    16 * kind + 8 * Bit(dup) + 2 * qos + Bit(retain)
  }

  function KindOf(h: byte): nat { h / 16 }

  function DupOf(h: byte): bool { h / 8 % 2 == 1 }

  function QosOf(h: byte): nat { h / 2 % 4 }

  function RetainOf(h: byte): bool { h % 2 == 1 }

  lemma HeaderRoundTrip(kind: nat, dup: bool, qos: nat, retain: bool)
    requires kind < 16 && qos < 4
    ensures var h := HeaderByte(kind, dup, qos, retain);
            KindOf(h) == kind && DupOf(h) == dup && QosOf(h) == qos && RetainOf(h) == retain
  {
  }

  /** What MQTTPacket_send_publish can carry.  The topic is a C string; a message id goes out only
      with QoS 1 and 2, properties only with version 5. */
  ghost predicate Sendable(v5: bool, p: Publish) {
    && p.qos < 4
    && |p.topic| < 65536 && (forall i :: 0 <= i < |p.topic| ==> p.topic[i] != 0)
    && p.msgId < 65536 && (p.qos == 0 ==> p.msgId == 0)
    && AllWritable(p.properties) && TotalSize(p.properties) < VBI_LIMIT
    && (!v5 ==> p.properties == [])
  }

  /** The middle buffer: message id and properties. */
  function VariablePart(v5: bool, p: Publish): seq<byte>
    requires p.msgId < 65536 && AllWritable(p.properties)
  {
    (if p.qos > 0 then Int2(p.msgId) else []) + (if v5 then PropertiesBytes(p.properties) else [])
  }

  function Body(v5: bool, p: Publish): seq<byte>
    requires p.msgId < 65536 && AllWritable(p.properties) && |p.topic| < 65536
  {
    LenString(p.topic) + (VariablePart(v5, p) + p.payload)
  }

  function PublishBytes(v5: bool, p: Publish): seq<byte>
    requires p.qos < 4 && p.msgId < 65536 && AllWritable(p.properties) && |p.topic| < 65536
  {
    [HeaderByte(PUBLISH, p.dup, p.qos, p.retain)] + (Vbi(|Body(v5, p)|) + Body(v5, p))
  }

  /** The buffer of exactly the computed length that holds message id and properties. */
  method VariableBuffer(v5: bool, p: Publish) returns (middle: seq<byte>)
    requires Sendable(v5, p)
    ensures middle == VariablePart(v5, p)
  {
    hide PropertiesBytes, Vbi, TotalSize, PropertiesLen;
    var idLen := if p.qos > 0 then 2 else 0;
    var w := new Writer(idLen + if v5 then PropertiesLen(TotalSize(p.properties)) else 0);
    if p.qos > 0 {
      w.WriteInt(p.msgId);
      assert w.at == |w.Written()| == 2;
    }
    assert w.at == idLen && w.Written() == if p.qos > 0 then Int2(p.msgId) else [];
    if v5 {
      var rc := WriteProperties(w, p.properties);
    }
    assert w.Written() == VariablePart(v5, p);
    assert w.buf[..] == w.Written();
    middle := w.buf[..];
  }

  method TopicLength(n: int) returns (b: seq<byte>)
    requires 0 <= n < 65536
    ensures b == Int2(n)
  {
    var w := new Writer(2);
    w.WriteInt(n);
    assert |w.Written()| == w.at == 2 && w.buf[..] == w.Written();
    b := w.buf[..];
  }

  /** MQTTPacket_send_publish and MQTTPacket_sends: the buffers in the order they go out. */
  method SendPublish(v5: bool, p: Publish) returns (packet: seq<byte>)
    requires Sendable(v5, p)
    ensures packet == PublishBytes(v5, p)
  {
    hide Vbi, VariablePart, Int2, HeaderByte;
    var topiclen := TopicLength(|p.topic|);
    var middle := VariableBuffer(v5, p);
    FlattenFour(topiclen, p.topic, middle, p.payload);
    assert topiclen + (p.topic + (middle + p.payload)) == Body(v5, p);
    packet := Assemble(HeaderByte(PUBLISH, p.dup, p.qos, p.retain), [topiclen, p.topic, middle, p.payload]);
  }

  function Flatten(bufs: seq<seq<byte>>): seq<byte> {
    if bufs == [] then [] else bufs[0] + Flatten(bufs[1..])
  }

  lemma FlattenFour(a: seq<byte>, b: seq<byte>, c: seq<byte>, d: seq<byte>)
    ensures Flatten([a, b, c, d]) == a + (b + (c + d))
  {
    assert [a, b, c, d][1..] == [b, c, d] && [b, c, d][1..] == [c, d] && [c, d][1..] == [d] && [d][1..] == [];
    assert Flatten([d]) == d + Flatten([]) == d;
    assert Flatten([c, d]) == c + d;
    assert Flatten([b, c, d]) == b + (c + d);
  }

  /** MQTTPacket_sends: the fixed header in front of the buffers. */
  method Assemble(header: byte, bufs: seq<seq<byte>>) returns (packet: seq<byte>)
    ensures packet == [header] + (Vbi(|Flatten(bufs)|) + Flatten(bufs))
  {
    var total, i := 0, 0;
    var all: seq<byte> := [];
    while i < |bufs|
      invariant 0 <= i <= |bufs| && total == |all| && all + Flatten(bufs[i..]) == Flatten(bufs)
    {
      assert bufs[i..][1..] == bufs[i + 1..];
      assert all + (bufs[i] + Flatten(bufs[i + 1..])) == all + bufs[i] + Flatten(bufs[i + 1..]);
      total := total + |bufs[i]|;
      all := all + bufs[i];
      i := i + 1;
    }
    assert bufs[i..] == [];
    assert all == Flatten(bufs);
    var w := new Writer(|Vbi(total)|);
    var n := w.WriteVbi(total);
    assert w.buf[..] == w.Written();
    packet := [header] + (w.buf[..] + all);
  }

  // ---------- parsing ----------

  datatype Parsed<T> = Packet(value: T) | Bad | Outside

  /** MQTTPacket_publish on the bytes after the fixed header. */
  function ParsePublish(v5: bool, header: byte, data: seq<byte>): Parsed<Publish> {
    match ReadLenString(data, 0)
    case NoLength => Bad
    case Overrun => Bad
    case Str(topic, at) =>
      var id := if QosOf(header) > 0 then ReadInt(data, at) else Got(0, at);
      match id
      case Short => Outside
      case Got(msgId, next) =>
        if !v5 then Packet(Publish(DupOf(header), QosOf(header), RetainOf(header), topic, msgId, [], data[next..]))
        else
          match ReadProperties(data, next)
          case Rejected => Bad
          case ListOutside => Outside
          case ListGot(props, end) =>
            if end > |data| then Outside
            else Packet(Publish(DupOf(header), QosOf(header), RetainOf(header), topic, msgId, props, data[end..]))
  }

  /** Section 3.3 of MQTT 3.1.1, byte by byte: a PUBLISH of QoS 1 or 2 with a topic and a payload of one byte. */
  lemma PublishOnTheWire(dup: bool, qos: nat, retain: bool, t: byte, i0: byte, i1: byte, p: byte)
    requires 1 <= qos <= 2
    ensures var h := 48 + (if dup then 8 else 0) + 2 * qos + if retain then 1 else 0;
            ParsePublish(false, h, [0, 1, t, i0, i1, p])
            == Packet(Publish(dup, qos, retain, [t], 256 * i0 + i1, [], [p])) && KindOf(h) == PUBLISH == 3
  {
    var data := [0, 1, t, i0, i1, p];
    assert data[2..3] == [t] && data[5..] == [p];
  }

  /** What is read where p was written: the same, unless a property holds an integer that writeInt4 garbles. */
  function Reparsed(p: Publish): (r: Publish)
    requires AllWritable(p.properties)
  {
    p.(properties := RereadAll(p.properties))
  }

  lemma ReparsedSameIff(p: Publish)
    requires AllWritable(p.properties)
    ensures Reparsed(p) == p <==> AllExact(p.properties)
  {
    hide AllExact;
    RereadAllSameIff(p.properties);
  }

  lemma ParseInvertsBody(v5: bool, p: Publish)
    requires Sendable(v5, p)
    ensures ParsePublish(v5, HeaderByte(PUBLISH, p.dup, p.qos, p.retain), Body(v5, p)) == Packet(Reparsed(p))
  {
    hide ReadLenString, ReadInt, ReadProperties, Vbi, TotalSize, ListBytes, PropertiesBytes, AllWritable,
      HeaderByte, QosOf, DupOf, RetainOf, KindOf;
    HeaderRoundTrip(PUBLISH, p.dup, p.qos, p.retain);
    var data := Body(v5, p);
    var var1 := if p.qos > 0 then Int2(p.msgId) else [];
    var var2 := if v5 then PropertiesBytes(p.properties) else [];
    var at := |LenString(p.topic)|;
    assert data == LenString(p.topic) + var1 + var2 + p.payload;
    assert HasAt(data, 0, LenString(p.topic));
    ReadLenStringInverts(data, 0, p.topic);
    assert data[at..at + |var1|] == var1;
    if p.qos > 0 {
      ReadIntInverts(data, at, p.msgId);
    }
    var next := at + |var1|;
    assert data[next..next + |var2|] == var2;
    assert data[next + |var2|..] == p.payload;
    if v5 {
      PropertiesRoundTripIff(data, next, p.properties);
    } else {
      assert RereadAll(p.properties) == [];
    }
  }

  /** One packet off the network: MQTTPacket_Factory, given that all its bytes have arrived. */
  function ReceivePublish(v5: bool, data: seq<byte>): Parsed<(Publish, nat)> {
    if data == [] then Outside
    else
      match Decode4(data, 1)
      case TooLong => Bad
      case Interrupted => Outside
      case Value(length, next) =>
        if next + length > |data| then Outside
        else if KindOf(data[0]) != PUBLISH then Bad
        else
          match ParsePublish(v5, data[0], data[next..next + length])
          case Packet(p) => Packet((p, next + length))
          case Bad => Bad
          case Outside => Outside
  }

  /** A stored record: MQTTPersistence_restorePacket on a PUBLISH; a record of the wrong length is bad. */
  function RestorePublish(v5: bool, record: seq<byte>): Parsed<Publish> {
    if record == [] then Outside
    else
      match Scan(record, 1)
      case Short => Outside
      case Got(length, next) =>
        if next > |record| || next + length != |record| || KindOf(record[0]) != PUBLISH then Bad
        else ParsePublish(v5, record[0], record[next..])
  }

  lemma PacketShape(v5: bool, p: Publish, rest: seq<byte>)
    requires Sendable(v5, p)
    ensures var data := PublishBytes(v5, p) + rest; var n := |Body(v5, p)|;
            && data[0] == HeaderByte(PUBLISH, p.dup, p.qos, p.retain)
            && HasAt(data, 1, Vbi(n))
            && HasAt(data, 1 + |Vbi(n)|, Body(v5, p))
            && |data| == 1 + |Vbi(n)| + n + |rest|
  {
    hide Body, Vbi, HeaderByte;
    var n := |Body(v5, p)|;
    var data := PublishBytes(v5, p) + rest;
    assert data == [HeaderByte(PUBLISH, p.dup, p.qos, p.retain)] + Vbi(n) + Body(v5, p) + rest;
    HasAtMiddle([HeaderByte(PUBLISH, p.dup, p.qos, p.retain)], Vbi(n), Body(v5, p) + rest);
    HasAtMiddle([HeaderByte(PUBLISH, p.dup, p.qos, p.retain)] + Vbi(n), Body(v5, p), rest);
    assert [HeaderByte(PUBLISH, p.dup, p.qos, p.retain)] + Vbi(n) + (Body(v5, p) + rest) == data;
  }

  /**
    Sections 2.2.3 and 3.3 of MQTT 3.1.1: the receiver of what send_publish writes recovers topic,
    id, flags, properties and payload and leaves whatever follows unread - for every QoS and
    version, exactly when the body fits the four length bytes and every four-byte property is one
    that writeInt4 writes exactly.
  */
  lemma WireRoundTripIff(v5: bool, p: Publish, rest: seq<byte>)
    requires Sendable(v5, p)
    ensures ReceivePublish(v5, PublishBytes(v5, p) + rest) == Packet((p, |PublishBytes(v5, p)|))
            <==> |Body(v5, p)| < VBI_LIMIT && AllExact(p.properties)
  {
    hide Body, Vbi, HeaderByte, ParsePublish, Scan, AllExact, Reparsed;
    var n := |Body(v5, p)|;
    var data := PublishBytes(v5, p) + rest;
    PacketShape(v5, p, rest);
    ScanInvertsVbi(data, 1, n);
    FourBytesIff(n);
    HeaderRoundTrip(PUBLISH, p.dup, p.qos, p.retain);
    ParseInvertsBody(v5, p);
    ReparsedSameIff(p);
  }

  /** A packet as the store keeps it, whether it was sent or received: header, length, the rest. */
  function StoredPacket(header: byte, body: seq<byte>): seq<byte> {
    [header] + (Vbi(|body|) + body)
  }

  /** Through the store there is no limit on the length: a record is parsed as its packet was. */
  lemma RestoreIsParse(v5: bool, header: byte, body: seq<byte>)
    requires KindOf(header) == PUBLISH
    ensures RestorePublish(v5, StoredPacket(header, body)) == ParsePublish(v5, header, body)
  {
    hide ParsePublish, Vbi, Scan;
    var data := StoredPacket(header, body);
    HasAtConcat(data, 1, Vbi(|body|), body);
    assert data[1..1 + |Vbi(|body|) + body|] == Vbi(|body|) + body;
    ScanInvertsVbi(data, 1, |body|);
    assert data[1 + |Vbi(|body|)|..] == body;
  }

  /** Every record of a message that was sent comes back as that message, exactly when its four-byte
      properties are exact. */
  lemma StoreRoundTripIff(v5: bool, p: Publish)
    requires Sendable(v5, p)
    ensures RestorePublish(v5, PublishBytes(v5, p)) == Packet(Reparsed(p))
    ensures RestorePublish(v5, PublishBytes(v5, p)) == Packet(p) <==> AllExact(p.properties)
  {
    hide Body, Vbi, HeaderByte, ParsePublish, Scan, AllExact, Reparsed, RestorePublish;
    HeaderRoundTrip(PUBLISH, p.dup, p.qos, p.retain);
    RestoreIsParse(v5, HeaderByte(PUBLISH, p.dup, p.qos, p.retain), Body(v5, p));
    ParseInvertsBody(v5, p);
    ReparsedSameIff(p);
  }

  // ---------- PUBREL ----------

  function PubrelBytes(id: int): seq<byte>
    requires 0 <= id < 65536
  {
    [HeaderByte(PUBREL, false, 1, false)] + (Vbi(2) + Int2(id))
  }

  /** MQTTPersistence_restorePacket on a PUBREL record: MQTTPacket_ack reads the id. */
  function RestorePubrel(record: seq<byte>): Parsed<nat> {
    if record == [] then Outside
    else
      match Scan(record, 1)
      case Short => Outside
      case Got(length, next) =>
        if next > |record| || next + length != |record| || KindOf(record[0]) != PUBREL then Bad
        else
          match ReadInt(record, next)
          case Got(id, _) => Packet(id)
          case Short => Outside
  }

  lemma PubrelRoundTrip(id: int)
    requires 0 <= id < 65536
    ensures RestorePubrel(PubrelBytes(id)) == Packet(id)
  {
    var r := PubrelBytes(id);
    assert Vbi(2) == [2];
    assert r == [HeaderByte(PUBREL, false, 1, false), 2, id / 256, id % 256];
    assert Scan(r, 1) == Got(2, 2);
  }
}
