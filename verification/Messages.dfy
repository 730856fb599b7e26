/** The messages the scenegraph and the RPC manager exchange, as lists of packet fields. */
module Messages {
  import opened Bits
  import opened PacketStream
  import opened PacketClass
  import opened Codec
  import opened Quantise
  import opened Transport
  import opened Fields
  import opened Entities

  // ----- fixed-width integers

  function EncodeInt32(x: int32): (b: seq<byte>)
    ensures |b| == 4
  {
    EncodeLE(if x < 0 then x + 0x1_0000_0000 else x, 4)
  }

  function DecodeInt32(b: seq<byte>): int32
    requires |b| == 4
  {
    DecodeLEBound(b);
    ToInt32(DecodeLE(b))
  }

  lemma Int32RoundTrip(x: int32)
    ensures DecodeInt32(EncodeInt32(x)) == x
  {
    Word32RoundTrip(if x < 0 then x + 0x1_0000_0000 else x);
  }

  lemma Word32RoundTrip(w: nat)
    requires w < 0x1_0000_0000
    ensures DecodeLE(EncodeLE(w, 4)) == w
  {
    assert Pow256(4) == 0x1_0000_0000;
    DecodeEncodeLE(w, 4);
  }

  // ----- EntityInfo

  /** The values that the C++ field types can hold */
  predicate Encodable(info: EntityInfo) {
    && IsInt32(info.ID) && IsInt32(info.parentID) && info.ownerID < 0x1_0000_0000
    && IsSize(|info.kind|) && IsSize(|info.name|)
  }

  predicate IsInt32(x: int) {
    -0x8000_0000 <= x < 0x8000_0000
  }

  function InfoFields(info: EntityInfo): (fs: seq<Field>)
    requires Encodable(info)
    ensures AllWellTyped(fs) && Shapes(fs) == INFO_SHAPES
  {
    [ Field(Raw(4), ByteValue(EncodeInt32(info.ID))),
      Field(Raw(4), ByteValue(EncodeLE(info.ownerID, 4))),
      Field(Text, ByteValue(info.kind)),
      Field(Text, ByteValue(info.name)),
      Field(Raw(4), ByteValue(EncodeInt32(info.parentID))) ]
  }

  const INFO_SHAPES: seq<Shape> := [Raw(4), Raw(4), Text, Text, Raw(4)]

  predicate InfoValues(vs: seq<Value>) {
    && |vs| == 5 && (forall i :: 0 <= i < 5 ==> vs[i].ByteValue?)
    && |vs[0].data| == 4 && |vs[1].data| == 4 && |vs[4].data| == 4
  }

  function DecodeInfo(vs: seq<Value>): EntityInfo
    requires InfoValues(vs)
  {
    EntityInfo(vs[2].data, vs[3].data, DecodeInt32(vs[0].data), DecodeLE(vs[1].data), DecodeInt32(vs[4].data))
  }

  lemma InfoDelivered(info: EntityInfo)
    requires Encodable(info)
    ensures AllFaithful(InfoFields(info))
    ensures InfoValues(AllDelivered(InfoFields(info)))
    ensures DecodeInfo(AllDelivered(InfoFields(info))) == info
  {
    Int32RoundTrip(info.ID);
    Word32RoundTrip(info.ownerID);
    Int32RoundTrip(info.parentID);
    var vs := AllDelivered(InfoFields(info));
    assert vs[0].data == EncodeInt32(info.ID);
  }

  /** An EntityInfo sent anywhere in a packet is decoded to itself. */
  lemma InfoRoundTrip(s: Stream, info: EntityInfo, r: Stream)
    requires s.Valid() && Encodable(info) && r.Valid() && r.reader == s.writer
    requires var w := WriteAll(s, InfoFields(info)).after;
             Agree(w.bytes, r.bytes, s.writer.Position(), w.writer.Position())
    ensures var read := ReadAll(r, INFO_SHAPES);
            && read.Got? && InfoValues(read.value) && DecodeInfo(read.value) == info
            && read.after.reader == WriteAll(s, InfoFields(info)).after.writer
  {
    InfoDelivered(info);
    RoundTrip(s, InfoFields(info), r);
  }

  /** operator<< of EntityInfo */
  method WriteInfo(p: Packet, info: EntityInfo)
    requires p.Valid() && Encodable(info)
    modifies p
    ensures p.Valid() && WriteAll(old(p.State()), InfoFields(info)) == Done(p.State())
  {
    InfoDelivered(info);
    AllDone(p.State(), InfoFields(info));
    var ok := PutFields(p, InfoFields(info));
  }

  // ----- RPC arguments

  function Reverse<T>(xs: seq<T>): (r: seq<T>)
    ensures |r| == |xs| && forall i :: 0 <= i < |xs| ==> r[i] == xs[|xs| - 1 - i]
  {
    seq(|xs|, i requires 0 <= i < |xs| => xs[|xs| - 1 - i])
  }

  /** fillPacket: all later arguments first, then this one */
  function FillPacket(s: Stream, args: seq<Field>): (r: Write)
    requires s.Valid() && AllWellTyped(args)
    ensures r.after.Valid()
    decreases |args|
  {
    if args == [] then Done(s)
    else
      match FillPacket(s, args[1..])
      case Failed(after) => Failed(after)
      case Done(after) => WriteField(after, args[0])
  }

  /** The reads in the call of a wrapped function, evaluated from the last parameter to the first */
  function ReadArguments(s: Stream, shapes: seq<Shape>): (r: Read<seq<Value>>)
    requires s.Valid() && forall i :: 0 <= i < |shapes| ==> Readable(shapes[i])
    ensures r.after.Valid()
    decreases |shapes|
  {
    if shapes == [] then Got([], s)
    else
      var n := |shapes| - 1;
      match ReadField(s, shapes[n])
      case Threw(after) => Threw(after)
      case PastEnd(after) => PastEnd(after)
      case Got(last, after) =>
        match ReadArguments(after, shapes[..n])
        case Threw(end) => Threw(end)
        case PastEnd(end) => PastEnd(end)
        case Got(firsts, end) => Got(firsts + [last], end)
  }

  lemma {:induction false} FillPacketReverses(s: Stream, args: seq<Field>)
    requires s.Valid() && AllWellTyped(args)
    ensures FillPacket(s, args) == WriteAll(s, Reverse(args))
    decreases |args|
  {
    if args == [] {
    } else {
      FillPacketReverses(s, args[1..]);
      WriteAllSnoc(s, Reverse(args[1..]), args[0]);
      assert Reverse(args) == Reverse(args[1..]) + [args[0]];
    }
  }

  lemma {:induction false} ReadArgumentsReverses(s: Stream, shapes: seq<Shape>)
    requires s.Valid() && forall i :: 0 <= i < |shapes| ==> Readable(shapes[i])
    requires ReadAll(s, Reverse(shapes)).Got?
    ensures var read := ReadAll(s, Reverse(shapes));
            ReadArguments(s, shapes) == Got(Reverse(read.value), read.after)
    decreases |shapes|
  {
    if shapes == [] {
      assert ReadAll(s, Reverse(shapes)) == Got([], s);
    } else {
      var n := |shapes| - 1;
      assert Reverse(shapes)[1..] == Reverse(shapes[..n]);
      var last := ReadField(s, shapes[n]);
      ReadArgumentsReverses(last.after, shapes[..n]);
      var rest := ReadAll(last.after, Reverse(shapes[..n])).value;
      assert Reverse([last.value] + rest) == Reverse(rest) + [last.value];
    }
  }

  lemma ReverseFields(args: seq<Field>)
    requires AllWellTyped(args)
    ensures AllWellTyped(Reverse(args)) && Shapes(Reverse(args)) == Reverse(Shapes(args))
    ensures AllDelivered(Reverse(args)) == Reverse(AllDelivered(args))
    ensures AllFaithful(args) ==> AllFaithful(Reverse(args))
  {
  }

  /** Any list of arguments reaches the wrapped function in the order of the call. */
  lemma ArgumentsRoundTrip(s: Stream, args: seq<Field>, r: Stream)
    requires s.Valid() && AllWellTyped(args) && AllFaithful(args) && r.Valid() && r.reader == s.writer
    requires var w := FillPacket(s, args).after; Agree(w.bytes, r.bytes, s.writer.Position(), w.writer.Position())
    ensures FillPacket(s, args).Done?
    ensures ReadArguments(r, Shapes(args)) == Got(AllDelivered(args), r.(reader := FillPacket(s, args).after.writer))
  {
    ReverseFields(args);
    FillPacketReverses(s, args);
    RoundTrip(s, Reverse(args), r);
    ReadArgumentsReverses(r, Shapes(args));
    assert Reverse(Reverse(AllDelivered(args))) == AllDelivered(args);
  }

  /** The order of evaluation matters: a compiler that read the parameters from left to right would hand
      over the arguments of a call with equal shapes in reverse, so correctly only if that is the same. */
  lemma LeftToRightReverses(s: Stream, args: seq<Field>, r: Stream)
    requires s.Valid() && AllWellTyped(args) && AllFaithful(args) && r.Valid() && r.reader == s.writer
    requires var w := FillPacket(s, args).after; Agree(w.bytes, r.bytes, s.writer.Position(), w.writer.Position())
    requires Shapes(args) == Reverse(Shapes(args))
    ensures ReadAll(r, Shapes(args)).Got?
    ensures ReadAll(r, Shapes(args)).value == Reverse(AllDelivered(args))
  {
    ReverseFields(args);
    FillPacketReverses(s, args);
    RoundTrip(s, Reverse(args), r);
  }

  /** A whole entity RPC packet: info and name in front, arguments behind, written by the caller and read
      by RPCManager.receive and the wrapper */
  lemma {:induction false} RpcRoundTrip(s: Stream, info: EntityInfo, name: Str, args: seq<Field>, r: Stream)
    requires s.Valid() && Encodable(info) && IsSize(|name|) && AllWellTyped(args) && AllFaithful(args)
    requires r.Valid() && r.reader == s.writer
    requires var head := WriteAll(s, InfoFields(info) + [Field(Text, ByteValue(name))]).after;
             var w := FillPacket(head, args).after;
             Agree(w.bytes, r.bytes, s.writer.Position(), w.writer.Position())
    ensures var head := ReadAll(r, INFO_SHAPES + [Text]);
            && head.Got? && |head.value| == 6
            && InfoValues(head.value[..5]) && DecodeInfo(head.value[..5]) == info
            && head.value[5] == ByteValue(name)
            && var rest := ReadArguments(head.after, Shapes(args));
               rest.Got? && rest.value == AllDelivered(args)
  {
    var front := InfoFields(info) + [Field(Text, ByteValue(name))];
    InfoDelivered(info);
    FrontOf(info, name);
    ReverseFields(args);
    FillPacketReverses(WriteAll(s, front).after, args);
    AllDone(s, front);
    WriteAllSplits(s, front, Reverse(args));
    HeadOf(s, front, Reverse(args), r);
    ReadArgumentsReverses(ReadAll(r, Shapes(front)).after, Shapes(args));
    assert Reverse(Reverse(AllDelivered(args))) == AllDelivered(args);
  }

  lemma FrontOf(info: EntityInfo, name: Str)
    requires Encodable(info) && IsSize(|name|)
    ensures var front := InfoFields(info) + [Field(Text, ByteValue(name))];
            && AllWellTyped(front) && AllFaithful(front)
            && Shapes(front) == INFO_SHAPES + [Text]
            && |AllDelivered(front)| == 6
            && AllDelivered(front)[..5] == AllDelivered(InfoFields(info))
            && AllDelivered(front)[5] == ByteValue(name)
  {
    InfoDelivered(info);
  }

  /** The front part of a list of fields is read as if it had been written alone, and the rest after it. */
  lemma HeadOf(s: Stream, front: seq<Field>, back: seq<Field>, r: Stream)
    requires s.Valid() && AllWellTyped(front) && AllWellTyped(back) && AllFaithful(front) && AllFaithful(back)
    requires front != [] && r.Valid() && r.reader == s.writer
    requires var w := WriteAll(s, front + back).after; Agree(w.bytes, r.bytes, s.writer.Position(), w.writer.Position())
    ensures var head := ReadAll(r, Shapes(front));
            && head == Got(AllDelivered(front), r.(reader := WriteAll(s, front).after.writer))
            && ReadAll(head.after, Shapes(back)).Got?
            && ReadAll(head.after, Shapes(back)).value == AllDelivered(back)
  {
    WriteAllSplits(s, front, back);
    AllDone(s, front);
    AllAdvance(s, front);
    var mid := WriteAll(s, front).after;
    var w := WriteAll(mid, back).after;
    AllPreserve(mid, back);
    AgreeTransitive(mid.bytes, w.bytes, r.bytes, s.writer.Position(), mid.writer.Position(), w.writer.Position());
    RoundTrip(s, front, r);
    RoundTrip(mid, back, r.(reader := mid.writer));
  }

  lemma {:induction false} AllAdvance(s: Stream, fs: seq<Field>)
    requires s.Valid() && AllWellTyped(fs)
    ensures s.writer.Position() <= WriteAll(s, fs).after.writer.Position()
    decreases |fs|
  {
    if fs == [] {
    } else {
      FieldAdvances(s, fs[0]);
      AllAdvance(WriteField(s, fs[0]).after, fs[1..]);
    }
  }

  // ----- entity creation, which carries a packet inside a packet

  function CreationFields(info: EntityInfo, spawn: Stream): (fs: seq<Field>)
    requires Encodable(info) && IsSize(|spawn.bytes|)
    ensures AllWellTyped(fs)
  {
    InfoFields(info) + [Field(Vector(1), ByteValue(spawn.bytes))]
  }

  /** Reading looks at the buffer and the read cursor only. */
  function Elsewhere<T>(r: Read<T>, h: PacketHeader, writer: Cursor): Read<T> {
    match r
    case Got(value, after) => Got(value, after.(header := h, writer := writer))
    case Threw(after) => Threw(after.(header := h, writer := writer))
    case PastEnd(after) => PastEnd(after.(header := h, writer := writer))
  }

  lemma ReadBitsElsewhere(s: Stream, n: nat, h: PacketHeader, writer: Cursor)
    requires s.Valid() && n <= 32 && h.Valid() && writer.Valid()
    ensures ReadBits(s.(header := h, writer := writer), n, 0) == Elsewhere(ReadBits(s, n, 0), h, writer)
  {
  }

  lemma DeserializeElsewhere(s: Stream, size: nat, isNull: bool, h: PacketHeader, writer: Cursor)
    requires s.Valid() && h.Valid() && writer.Valid()
    ensures Deserialize(s.(header := h, writer := writer), size, isNull)
            == Elsewhere(Deserialize(s, size, isNull), h, writer)
  {
  }

  lemma CountedElsewhere(s: Stream, h: PacketHeader, writer: Cursor)
    requires s.Valid() && h.Valid() && writer.Valid()
    ensures ReadText(s.(header := h, writer := writer)) == Elsewhere(ReadText(s), h, writer)
    ensures forall size: nat :: size > 0 ==>
              ReadVector(s.(header := h, writer := writer), size) == Elsewhere(ReadVector(s, size), h, writer)
  {
    DeserializeElsewhere(s, SIZE_BYTES, false, h, writer);
    var count := Deserialize(s, SIZE_BYTES, false);
    if count.Got? {
      DeserializeElsewhere(count.after, DecodeLE(count.value), false, h, writer);
      forall size: nat | size > 0
        ensures ReadVector(s.(header := h, writer := writer), size) == Elsewhere(ReadVector(s, size), h, writer)
      {
        DeserializeElsewhere(count.after, size * DecodeLE(count.value), DecodeLE(count.value) == 0, h, writer);
      }
    }
  }

  lemma ReadFieldElsewhere(s: Stream, shape: Shape, h: PacketHeader, writer: Cursor)
    requires s.Valid() && Readable(shape) && h.Valid() && writer.Valid()
    ensures ReadField(s.(header := h, writer := writer), shape) == Elsewhere(ReadField(s, shape), h, writer)
  {
    match shape
    case BitField(width) => ReadBitsElsewhere(s, width, h, writer);
    case Raw(size) => DeserializeElsewhere(s, size, false, h, writer);
    case Text => CountedElsewhere(s, h, writer);
    case Vector(size) => CountedElsewhere(s, h, writer);
    case Quantised(range) =>
      WidthBound(range);
      ReadBitsElsewhere(s, range.Width(), h, writer);
  }

  lemma {:induction false} ReadAllElsewhere(s: Stream, shapes: seq<Shape>, h: PacketHeader, writer: Cursor)
    requires s.Valid() && (forall i :: 0 <= i < |shapes| ==> Readable(shapes[i])) && h.Valid() && writer.Valid()
    ensures ReadAll(s.(header := h, writer := writer), shapes) == Elsewhere(ReadAll(s, shapes), h, writer)
    decreases |shapes|
  {
    if shapes == [] {
    } else {
      ReadFieldElsewhere(s, shapes[0], h, writer);
      var first := ReadField(s, shapes[0]);
      if first.Got? {
        ReadAllElsewhere(first.after, shapes[1..], h, writer);
      }
    }
  }

  /** The header is in front of the buffer. */
  predicate Stamped(s: Stream) {
    s.header.Valid() && |s.bytes| >= HEADER_SIZE && s.bytes[..HEADER_SIZE] == EncodeHeader(s.header)
  }

  /** Any packet, itself rebuilt from bytes perhaps, that is sent as a vector of its whole buffer, unused space and all,
      reads at the other end just as it does here from its start: the same values, exceptions and cursors. */
  lemma SpawnReads(spawn: Stream, shapes: seq<Shape>)
    requires spawn.Valid() && |spawn.bytes| >= HEADER_SIZE && forall i :: 0 <= i < |shapes| ==> Readable(shapes[i])
    ensures var nested := FromData(spawn.bytes);
            && ReadAll(nested, shapes) == Elsewhere(ReadAll(Rewound(spawn), shapes), nested.header, nested.writer)
            && (Stamped(spawn) ==> nested.header == spawn.header)
  {
    var nested := FromData(spawn.bytes);
    assert nested == Rewound(spawn).(header := nested.header, writer := nested.writer);
    ReadAllElsewhere(Rewound(spawn), shapes, nested.header, nested.writer);
    if Stamped(spawn) {
      HeaderRoundTrip(spawn.header);
      assert spawn.bytes[4..8] == EncodeHeader(spawn.header)[4..8]
             && spawn.bytes[1..4] == EncodeHeader(spawn.header)[1..4];
    }
  }

  /** In particular it reads what was written to it, if that was written from the start. */
  lemma SpawnDelivers(s: Stream, fs: seq<Field>)
    requires AtStart(s) && (fs != [] || s.Backed()) && AllWellTyped(fs) && AllFaithful(fs)
    ensures var spawn := WriteAll(s, fs).after;
            && |spawn.bytes| >= HEADER_SIZE
            && ReadAll(FromData(spawn.bytes), Shapes(fs)).Got?
            && ReadAll(FromData(spawn.bytes), Shapes(fs)).value == AllDelivered(fs)
  {
    var spawn := WriteAll(s, fs).after;
    WriterPastHeader(s, fs);
    RoundTripInPlace(s, fs);
    SpawnReads(spawn, Shapes(fs));
  }

  /** An ENTITY_CREATION delivers the info, and a spawn packet that reads like the original. */
  lemma CreationRoundTrip(s: Stream, info: EntityInfo, spawn: Stream, shapes: seq<Shape>, r: Stream)
    requires s.Valid() && Encodable(info) && spawn.Valid() && HEADER_SIZE <= |spawn.bytes| && IsSize(|spawn.bytes|)
    requires (forall i :: 0 <= i < |shapes| ==> Readable(shapes[i])) && r.Valid() && r.reader == s.writer
    requires var w := WriteAll(s, CreationFields(info, spawn)).after;
             Agree(w.bytes, r.bytes, s.writer.Position(), w.writer.Position())
    ensures var read := ReadAll(r, INFO_SHAPES + [Vector(1)]);
            && read.Got? && |read.value| == 6
            && InfoValues(read.value[..5]) && DecodeInfo(read.value[..5]) == info
            && read.value[5] == ByteValue(spawn.bytes)
            && var nested := FromData(spawn.bytes);
               ReadAll(nested, shapes) == Elsewhere(ReadAll(Rewound(spawn), shapes), nested.header, nested.writer)
  {
    var all := CreationFields(info, spawn);
    SpawnReads(spawn, shapes);
    InfoDelivered(info);
    CreationDelivered(info, spawn);
    RoundTrip(s, all, r);
  }

  lemma CreationDelivered(info: EntityInfo, spawn: Stream)
    requires Encodable(info) && IsSize(|spawn.bytes|) && spawn.bytes != []
    ensures var all := CreationFields(info, spawn);
            && AllFaithful(all)
            && Shapes(all) == INFO_SHAPES + [Vector(1)]
            && |AllDelivered(all)| == 6
            && AllDelivered(all)[..5] == AllDelivered(InfoFields(info))
            && AllDelivered(all)[5] == ByteValue(spawn.bytes)
  {
    InfoDelivered(info);
  }
}
