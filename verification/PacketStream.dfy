/** The state of a packet and what each stream operation does to it, as functions on values.

    A cursor is the pair the C++ keeps: `bytes` counts the bytes begun, `bits` the bits used in
    the last of them; 8 means that byte is closed, 0 that it has been claimed but not used. */
module PacketStream {
  import opened Bits

  const HEADER_SIZE: nat := 8
  const SIZE_BYTES: nat := 8 // sizeof(std::size_t)

  /** PacketHeader with its object representation: one type byte, three padding bytes that memcpy
      carries along, and the 32-bit send time. */
  datatype PacketHeader = PacketHeader(kind: byte, padding: seq<byte>, timeSent: nat) {
    predicate Valid() {
      |padding| == 3 && timeSent < 0x1_0000_0000
    }
  }

  function EncodeHeader(h: PacketHeader): (r: seq<byte>)
    requires h.Valid()
    ensures |r| == HEADER_SIZE
  {
    [h.kind] + h.padding + EncodeLE(h.timeSent, 4)
  }

  function DecodeHeader(b: seq<byte>): (h: PacketHeader)
    requires |b| >= HEADER_SIZE
    ensures h.Valid()
  {
    DecodeLEBound(b[4..8]);
    PacketHeader(b[0], b[1..4], DecodeLE(b[4..8]))
  }

  lemma {:induction false} DecodeLEBound(b: seq<byte>)
    ensures DecodeLE(b) < Pow256(|b|)
    ensures |b| == 4 ==> DecodeLE(b) < 0x1_0000_0000
  {
    if b == [] {
    } else {
      DecodeLEBound(b[1..]);
    }
    if |b| == 4 {
      assert Pow256(|b|) == 0x1_0000_0000;
    }
  }

  lemma HeaderRoundTrip(h: PacketHeader)
    requires h.Valid()
    ensures DecodeHeader(EncodeHeader(h)) == h
  {
    var b := EncodeHeader(h);
    assert b[4..8] == EncodeLE(h.timeSent, 4);
    assert b[1..4] == h.padding;
    assert Pow256(4) == 0x1_0000_0000;
    DecodeEncodeLE(h.timeSent, 4);
  }

  // ----- cursors

  datatype Cursor = Cursor(bytes: nat, bits: nat) {
    predicate Valid() {
      bytes >= HEADER_SIZE && bits <= 8
    }

    /** The bit address the cursor stands at */
    function Position(): int {
      8 * (bytes - 1) + bits
    }
  }

  const START := Cursor(HEADER_SIZE, 8)

  /** A closed byte makes way for a fresh, claimed one. */
  function Opened(c: Cursor): Cursor {
    if c.bits >= 8 then Cursor(c.bytes + c.bits / 8, c.bits % 8) else c
  }

  /** How many bits an n-bit transfer really moves: when it meets a partly used byte it takes all
      the room left there, even when that is more than n. */
  function Span(c: Cursor, n: nat): nat
    requires c.bits <= 8
  {
    var room := 8 - Opened(c).bits;
    if 0 < n < room && room < 8 then room else n
  }

  /** The cursor that claims the byte of bit address p */
  function AtPosition(p: nat): Cursor {
    Cursor(p / 8 + 1, p % 8)
  }

  lemma AtPositionOf(c: Cursor)
    requires c.bytes >= 1 && c.bits < 8
    ensures AtPosition(c.Position()) == c
  {
  }

  function PastBits(c: Cursor, n: nat): Cursor
    requires c.Valid()
  {
    AtPosition(Opened(c).Position() + Span(c, n))
  }

  function PastBytes(c: Cursor, size: nat): Cursor {
    Cursor(c.bytes + size, 8)
  }

  function CeilDiv8(x: int): int {
    -((-x) / 8)
  }

  /** Bytes the buffer must have before n bits move at c */
  function BytesNeeded(c: Cursor, n: nat): (r: nat)
    requires c.Valid()
    ensures Opened(c).Position() + Span(c, n) <= 8 * r
  {
    Opened(c).bytes + CeilDiv8(n - (8 - Opened(c).bits))
  }

  // ----- the packet

  datatype Stream = Stream(header: PacketHeader, bytes: seq<byte>, writer: Cursor, reader: Cursor) {
    predicate Valid() {
      header.Valid() && writer.Valid() && reader.Valid()
    }

    /** Everything written so far is inside the buffer. Only clear() leaves a packet that is not. */
    predicate Backed() {
      writer.Position() <= 8 * |bytes|
    }
  }

  /** std::vector::resize upwards */
  function Grown(b: seq<byte>, size: nat): (r: seq<byte>)
    ensures |r| == if size > |b| then size else |b|
  {
    if size > |b| then b + seq(size - |b|, _ => 0) else b
  }

  /** memcpy of the header to the front of the vector; bytes past its size are lost */
  function StampHeader(b: seq<byte>, h: PacketHeader): (r: seq<byte>)
    requires h.Valid()
    ensures |r| == |b|
  {
    if |b| >= HEADER_SIZE then EncodeHeader(h) + b[HEADER_SIZE..] else EncodeHeader(h)[..|b|]
  }

  function Fresh(h: PacketHeader): (s: Stream)
    requires h.Valid()
    ensures s.Valid() && s.Backed()
  {
    Stream(h, EncodeHeader(h), START, START)
  }

  function FromData(data: seq<byte>): (s: Stream)
    requires |data| >= HEADER_SIZE
    ensures s.Valid() && s.Backed()
  {
    Stream(DecodeHeader(data), data, Cursor(|data|, 8), START)
  }

  function Rewound(s: Stream): Stream {
    s.(reader := START)
  }

  function Cleared(s: Stream): Stream {
    s.(bytes := [], writer := START, reader := START)
  }

  function WithHeader(s: Stream, h: PacketHeader): Stream
    requires h.Valid()
  {
    s.(header := h, bytes := StampHeader(s.bytes, h))
  }

  /** The check at the top of writeBits and readBits */
  predicate BitsFit(n: nat, o: nat) {
    n + o <= 32
  }

  /** C++ leaves a shift past bit 31 undefined. */
  predicate ShiftsDefined(c: Cursor, n: nat, o: nat)
    requires c.bits <= 8
  {
    BitsFit(n, o) ==> o + Span(c, n) <= 32
  }

  /** writeBits on data; when the width check throws only the cursor has been brought up to date. */
  function WriteBits(s: Stream, data: int32, n: nat, o: nat): (r: Stream)
    requires s.Valid() && ShiftsDefined(s.writer, n, o)
    ensures r.Valid() && (BitsFit(n, o) ==> r.Backed())
  {
    var c := Opened(s.writer);
    if !BitsFit(n, o) then s.(writer := c)
    else
      var room := Grown(s.bytes, BytesNeeded(s.writer, n));
      s.(bytes := PutBits(room, c.Position(), data, o, Span(s.writer, n)), writer := PastBits(s.writer, n))
  }

  /** What a read does: a value, an exception, or bytes taken from past the end of the vector,
      which C++ leaves undefined. */
  datatype Read<+T> = Got(value: T, after: Stream) | Threw(after: Stream) | PastEnd(after: Stream)

  /** The bounds check of readBits */
  predicate GuardPasses(s: Stream, n: nat)
    requires s.reader.Valid()
  {
    BytesNeeded(s.reader, n) - 1 <= |s.bytes|
  }

  /** Every bit readBits looks at is in the buffer */
  predicate BitsPresent(s: Stream, n: nat)
    requires s.reader.Valid()
  {
    Opened(s.reader).Position() + Span(s.reader, n) <= 8 * |s.bytes|
  }

  function ReadBits(s: Stream, n: nat, o: nat): (r: Read<int32>)
    requires s.Valid() && ShiftsDefined(s.reader, n, o)
    ensures r.after.Valid()
  {
    var c := Opened(s.reader);
    if !BitsFit(n, o) || !GuardPasses(s, n) then Threw(s.(reader := c))
    else if !BitsPresent(s, n) then PastEnd(s.(reader := PastBits(s.reader, n)))
    else
      GetBitsWord(s.bytes, c.Position(), Span(s.reader, n), o);
      Got(ToInt32(GetBits(s.bytes, c.Position(), Span(s.reader, n), o)), s.(reader := PastBits(s.reader, n)))
  }

  /** The guard of readBits is one byte too generous: the reads it lets run past the end are exactly
      those whose last byte would be the first one beyond the buffer. */
  lemma GuardGap(s: Stream, n: nat, o: nat)
    requires s.Valid() && n > 0 && ShiftsDefined(s.reader, n, o) && BitsFit(n, o)
    ensures ReadBits(s, n, o).PastEnd? <==> BytesNeeded(s.reader, n) == |s.bytes| + 1
    ensures ReadBits(s, n, o).Got? <==> BytesNeeded(s.reader, n) <= |s.bytes|
  {
  }

  /** It happens with a packet that has nothing in it but its header: reading up to eight bits of it runs past
      the end. */
  lemma GuardGapReached(h: PacketHeader, n: nat)
    requires h.Valid() && 1 <= n <= 8
    ensures ReadBits(Fresh(h), n, 0).PastEnd?
  {
  }

  /** serialize of data that is not null */
  function Serialize(s: Stream, data: seq<byte>): (r: Stream)
    requires s.Valid()
    ensures r.Valid() && r.Backed()
  {
    var end := s.writer.bytes + |data|;
    var room := if end > |s.bytes| then Grown(s.bytes, end * 2) else s.bytes;
    s.(bytes := room[..s.writer.bytes] + data + room[end..], writer := PastBytes(s.writer, |data|))
  }

  /** deserialize of size bytes; the bounds check comes before the check for a null destination. */
  function Deserialize(s: Stream, size: nat, isNull: bool): (r: Read<seq<byte>>)
    requires s.Valid()
    ensures r.after.Valid()
    ensures !r.PastEnd? && (r.Got? ==> |r.value| == size)
  {
    if s.reader.bytes + size > |s.bytes| || isNull then Threw(s)
    else Got(s.bytes[s.reader.bytes..s.reader.bytes + size], s.(reader := PastBytes(s.reader, size)))
  }

  datatype Write = Done(after: Stream) | Failed(after: Stream)

  predicate IsSize(n: nat) {
    n < Pow256(SIZE_BYTES)
  }

  /** std::string: the length, then the characters */
  function WriteText(s: Stream, data: seq<byte>): (r: Stream)
    requires s.Valid() && IsSize(|data|)
    ensures r.Valid() && r.Backed()
  {
    Serialize(Serialize(s, EncodeLE(|data|, SIZE_BYTES)), data)
  }

  function ReadText(s: Stream): (r: Read<seq<byte>>)
    requires s.Valid()
    ensures r.after.Valid()
  {
    match Deserialize(s, SIZE_BYTES, false)
    case Threw(after) => Threw(after)
    case PastEnd(after) => PastEnd(after)
    case Got(size, after) => Deserialize(after, DecodeLE(size), false)
  }

  /** std::vector: the element count, then the elements. data() of an empty vector is null, so
      serialize throws after the count has been written. */
  function WriteVector(s: Stream, elementSize: nat, data: seq<byte>): (r: Write)
    requires s.Valid() && elementSize > 0 && |data| % elementSize == 0 && IsSize(|data| / elementSize)
    ensures r.after.Valid() && r.after.Backed()
    ensures r.Done? <==> data != []
  {
    var counted := Serialize(s, EncodeLE(|data| / elementSize, SIZE_BYTES));
    if data == [] then Failed(counted) else Done(Serialize(counted, data))
  }

  function ReadVector(s: Stream, elementSize: nat): (r: Read<seq<byte>>)
    requires s.Valid() && elementSize > 0
    ensures r.after.Valid()
  {
    match Deserialize(s, SIZE_BYTES, false)
    case Threw(after) => Threw(after)
    case PastEnd(after) => PastEnd(after)
    case Got(size, after) => Deserialize(after, elementSize * DecodeLE(size), DecodeLE(size) == 0)
  }
}
