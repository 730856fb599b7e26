/** Whole packets: any list of fields that is written is read back, from the packet itself or from
    any buffer that agrees with it on the bits written. */
module Codec {
  import opened Bits
  import opened PacketStream
  import opened Quantise

  /** What the reader must know about a field */
  datatype Shape =
    | BitField(width: nat)
    | Raw(size: nat)
    | Text
    | Vector(elementSize: nat)
    | Quantised(range: Range)

  datatype Value =
    | IntValue(n: int)
    | ByteValue(data: seq<byte>)
    | RealValue(x: real)

  datatype Field = Field(shape: Shape, value: Value)

  predicate Readable(shape: Shape) {
    match shape
    case BitField(width) => width <= 32
    case Raw(size) => size > 0
    case Text => true
    case Vector(elementSize) => elementSize > 0
    case Quantised(range) => range.Valid()
  }

  /** The value is one that the C++ types of the write operation allow. */
  predicate WellTyped(f: Field) {
    && Readable(f.shape)
    && match f.shape
       case BitField(_) => f.value.IntValue? && -0x8000_0000 <= f.value.n < 0x8000_0000
       case Raw(size) => f.value.ByteValue? && |f.value.data| == size
       case Text => f.value.ByteValue? && IsSize(|f.value.data|)
       case Vector(size) => f.value.ByteValue? && |f.value.data| % size == 0 && IsSize(|f.value.data| / size)
       case Quantised(_) => f.value.RealValue?
  }

  /** A bit field must hold its value, a vector must not be empty, and a quantised range must not have
      a power of two of steps. */
  ghost predicate Faithful(f: Field)
    requires WellTyped(f)
  {
    match f.shape
    case BitField(width) => width == 32 || 0 <= f.value.n < Pow2(width)
    case Raw(_) => true
    case Text => true
    case Vector(_) => f.value.data != []
    case Quantised(range) => !IsPowerOfTwo(range.Steps())
  }

  /** What the reader is promised: the value, or for a quantised one the nearest representable */
  function Delivered(f: Field): Value
    requires WellTyped(f)
  {
    match f.shape
    case Quantised(range) => RealValue(range.Decode(range.Code(f.value.x)))
    case _ => f.value
  }

  function WriteField(s: Stream, f: Field): (r: Write)
    requires s.Valid() && WellTyped(f)
    ensures r.after.Valid() && r.after.Backed()
  {
    match f.shape
    case BitField(width) => Done(WriteBits(s, f.value.n, width, 0))
    case Raw(_) => Done(Serialize(s, f.value.data))
    case Text => Done(WriteText(s, f.value.data))
    case Vector(elementSize) => WriteVector(s, elementSize, f.value.data)
    case Quantised(range) =>
      CodeRange(range, f.value.x);
      WidthBound(range);
      Done(WriteBits(s, range.Code(f.value.x), range.Width(), 0))
  }

  function ReadField(s: Stream, shape: Shape): (r: Read<Value>)
    requires s.Valid() && Readable(shape)
    ensures r.after.Valid()
  {
    match shape
    case BitField(width) =>
      (match ReadBits(s, width, 0)
       case Got(n, after) => Got(IntValue(n), after)
       case Threw(after) => Threw(after)
       case PastEnd(after) => PastEnd(after))
    case Raw(size) => Bytes(Deserialize(s, size, false))
    case Text => Bytes(ReadText(s))
    case Vector(elementSize) => Bytes(ReadVector(s, elementSize))
    case Quantised(range) =>
      WidthBound(range);
      match ReadBits(s, range.Width(), 0)
      case Got(n, after) => Got(RealValue(range.Decode(n)), after)
      case Threw(after) => Threw(after)
      case PastEnd(after) => PastEnd(after)
  }

  function Bytes(r: Read<seq<byte>>): Read<Value> {
    match r
    case Got(data, after) => Got(ByteValue(data), after)
    case Threw(after) => Threw(after)
    case PastEnd(after) => PastEnd(after)
  }

  // ----- lists of fields

  predicate AllWellTyped(fs: seq<Field>) {
    forall i :: 0 <= i < |fs| ==> WellTyped(fs[i])
  }

  ghost predicate AllFaithful(fs: seq<Field>)
    requires AllWellTyped(fs)
  {
    forall i :: 0 <= i < |fs| ==> Faithful(fs[i])
  }

  function Shapes(fs: seq<Field>): (shapes: seq<Shape>)
    ensures |shapes| == |fs| && forall i :: 0 <= i < |fs| ==> shapes[i] == fs[i].shape
  {
    seq(|fs|, i requires 0 <= i < |fs| => fs[i].shape)
  }

  function AllDelivered(fs: seq<Field>): (values: seq<Value>)
    requires AllWellTyped(fs)
    ensures |values| == |fs| && forall i :: 0 <= i < |fs| ==> values[i] == Delivered(fs[i])
  {
    seq(|fs|, i requires 0 <= i < |fs| => Delivered(fs[i]))
  }

  function WriteAll(s: Stream, fs: seq<Field>): (r: Write)
    requires s.Valid() && AllWellTyped(fs)
    ensures r.after.Valid() && (fs != [] || s.Backed() ==> r.after.Backed())
    decreases |fs|
  {
    if fs == [] then Done(s)
    else
      match WriteField(s, fs[0])
      case Failed(after) => Failed(after)
      case Done(after) => WriteAll(after, fs[1..])
  }

  function ReadAll(s: Stream, shapes: seq<Shape>): (r: Read<seq<Value>>)
    requires s.Valid() && forall i :: 0 <= i < |shapes| ==> Readable(shapes[i])
    ensures r.after.Valid()
    decreases |shapes|
  {
    if shapes == [] then Got([], s)
    else
      match ReadField(s, shapes[0])
      case Threw(after) => Threw(after)
      case PastEnd(after) => PastEnd(after)
      case Got(first, after) =>
        match ReadAll(after, shapes[1..])
        case Threw(after) => Threw(after)
        case PastEnd(after) => PastEnd(after)
        case Got(rest, after) => Got([first] + rest, after)
  }

  // ----- what a write leaves alone

  lemma GrowPreserves(b: seq<byte>, size: nat, p: nat)
    requires p <= 8 * |b|
    ensures Agree(b, Grown(b, size), 0, p)
  {
  }

  lemma BitsPreserve(s: Stream, data: int32, n: nat)
    requires s.Valid() && s.Backed() && n <= 32
    ensures Agree(s.bytes, WriteBits(s, data, n, 0).bytes, 0, s.writer.Position())
    ensures s.writer.Position() <= WriteBits(s, data, n, 0).writer.Position()
  {
    var w := WriteBits(s, data, n, 0);
    var room := Grown(s.bytes, BytesNeeded(s.writer, n));
    var start := Opened(s.writer).Position();
    GrowPreserves(s.bytes, BytesNeeded(s.writer, n), start);
    forall a | 0 <= a < start
      ensures BitAt(s.bytes, a) == BitAt(w.bytes, a)
    {
      PutBitsAt(room, start, data, 0, Span(s.writer, n), a);
    }
    AtPositionAt(start + Span(s.writer, n));
  }

  lemma AtPositionAt(p: nat)
    ensures AtPosition(p).Position() == p
  {
  }

  lemma SerializePreserves(s: Stream, data: seq<byte>)
    requires s.Valid() && s.Backed()
    ensures Agree(s.bytes, Serialize(s, data).bytes, 0, s.writer.Position())
    ensures s.writer.Position() <= Serialize(s, data).writer.Position()
  {
    var w := Serialize(s, data);
    forall a: nat | a < s.writer.Position()
      ensures a < 8 * |s.bytes| && BitAt(s.bytes, a) == BitAt(w.bytes, a)
    {
      assert a / 8 < s.writer.bytes;
    }
  }

  /** No field disturbs a bit written before it. */
  lemma FieldPreserves(s: Stream, f: Field)
    requires s.Valid() && s.Backed() && WellTyped(f)
    ensures Agree(s.bytes, WriteField(s, f).after.bytes, 0, s.writer.Position())
    ensures s.writer.Position() <= WriteField(s, f).after.writer.Position()
  {
    match f.shape
    case BitField(width) => BitsPreserve(s, f.value.n, width);
    case Raw(_) => SerializePreserves(s, f.value.data);
    case Text => CountedPreserves(s, EncodeLE(|f.value.data|, SIZE_BYTES), f.value.data);
    case Vector(size) => CountedPreserves(s, EncodeLE(|f.value.data| / size, SIZE_BYTES), f.value.data);
    case Quantised(range) =>
      CodeRange(range, f.value.x);
      WidthBound(range);
      BitsPreserve(s, range.Code(f.value.x), range.Width());
  }

  lemma CountedPreserves(s: Stream, count: seq<byte>, data: seq<byte>)
    requires s.Valid() && s.Backed()
    ensures var c := Serialize(s, count);
            var w := Serialize(c, data);
            && Agree(s.bytes, c.bytes, 0, s.writer.Position())
            && s.writer.Position() <= c.writer.Position() <= w.writer.Position()
            && Agree(s.bytes, w.bytes, 0, s.writer.Position())
            && Agree(c.bytes, w.bytes, 0, c.writer.Position())
  {
    SerializePreserves(s, count);
    SerializePreserves(Serialize(s, count), data);
  }

  lemma FieldAdvances(s: Stream, f: Field)
    requires s.Valid() && WellTyped(f)
    ensures s.writer.Position() <= WriteField(s, f).after.writer.Position()
  {
    match f.shape
    case BitField(width) => AtPositionAt(Opened(s.writer).Position() + Span(s.writer, width));
    case Raw(_) =>
    case Text =>
    case Vector(_) =>
    case Quantised(range) =>
      WidthBound(range);
      AtPositionAt(Opened(s.writer).Position() + Span(s.writer, range.Width()));
  }

  lemma {:induction false} AllPreserve(s: Stream, fs: seq<Field>)
    requires s.Valid() && s.Backed() && AllWellTyped(fs)
    ensures Agree(s.bytes, WriteAll(s, fs).after.bytes, 0, s.writer.Position())
    ensures s.writer.Position() <= WriteAll(s, fs).after.writer.Position()
    decreases |fs|
  {
    if fs == [] {
    } else {
      FieldPreserves(s, fs[0]);
      var w := WriteField(s, fs[0]);
      if w.Done? {
        AllPreserve(w.after, fs[1..]);
      }
    }
  }

  // ----- one field, written and read

  /** The value a bit transfer delivers: the source, cut to the bits really moved */
  function Carried(data: int32, span: nat): int32
    requires span <= 32
  {
    Pow2Values();
    Pow2Monotone(span, 32);
    ToInt32(Low(data, span))
  }

  /** A bit transfer is exact for all ints when it moves 32 bits, and otherwise exactly for the values
      that fit the bits really moved, which may be more than were asked for. */
  lemma CarriedExact(data: int32, span: nat)
    requires span <= 32
    ensures Carried(data, span) == data <==> span == 32 || 0 <= data < Pow2(span)
  {
    if span == 32 {
      Int32FromBits(data, span);
    } else {
      Pow2Values();
      Pow2Monotone(span, 31);
      LowExact(data, span);
    }
  }

  /** A reader in step with the writer reads what was written and stays in step. */
  lemma BitsRoundTrip(s: Stream, data: int32, n: nat, r: Stream)
    requires s.Valid() && n <= 32 && r.Valid() && r.reader == s.writer
    requires var w := WriteBits(s, data, n, 0); Agree(w.bytes, r.bytes, s.writer.Position(), w.writer.Position())
    ensures ReadBits(r, n, 0) == Got(Carried(data, Span(s.writer, n)), r.(reader := WriteBits(s, data, n, 0).writer))
  {
    var start := Opened(s.writer).Position();
    var span := Span(s.writer, n);
    AtPositionAt(start + span);
    GetAfterPut(Grown(s.bytes, BytesNeeded(s.writer, n)), start, data, span, r.bytes);
  }

  /** Bit k of the word holds bit k + o - o2 of the source if that was moved, and otherwise 0. */
  predicate Shifted(word: int32, data: int32, o: nat, o2: nat, span: nat, k: nat) {
    Bit(word, k) <==> o2 <= k < o2 + span && Bit(data, o + (k - o2))
  }

  /** With offsets: a reader in step with the writer finds, from bit o2 of its word on, the bits of the source
      from bit o on, as many as were moved, and otherwise zeros. */
  lemma OffsetRoundTrip(s: Stream, data: int32, n: nat, o: nat, r: Stream, o2: nat)
    requires s.Valid() && r.Valid() && r.reader == s.writer && BitsFit(n, o) && BitsFit(n, o2)
    requires ShiftsDefined(s.writer, n, o) && ShiftsDefined(r.reader, n, o2)
    requires var w := WriteBits(s, data, n, o); Agree(w.bytes, r.bytes, s.writer.Position(), w.writer.Position())
    ensures var read := ReadBits(r, n, o2);
            && read.Got? && read.after == r.(reader := WriteBits(s, data, n, o).writer)
            && forall k: nat :: k < 32 ==> Shifted(read.value, data, o, o2, Span(s.writer, n), k)
  {
    var start := Opened(s.writer).Position();
    var span := Span(s.writer, n);
    AtPositionAt(start + span);
    GetBitsWord(r.bytes, start, span, o2);
    forall k: nat | k < 32
      ensures Shifted(ToInt32(GetBits(r.bytes, start, span, o2)), data, o, o2, span, k)
    {
      ShiftedBit(Grown(s.bytes, BytesNeeded(s.writer, n)), start, data, o, span, r.bytes, o2, k);
    }
  }

  lemma MovedBit(room: seq<byte>, start: nat, data: int32, o: nat, span: nat, t: seq<byte>, i: nat, x: nat)
    requires start + span <= 8 * |room| && Agree(PutBits(room, start, data, o, span), t, start, start + span)
    requires i < span && x == start + i
    ensures BitAt(t, x) == Bit(data, o + i)
  {
    PutBitsAt(room, start, data, o, span, x);
    assert BitAt(PutBits(room, start, data, o, span), x) == BitAt(t, x);
    assert o + x - start == o + i;
  }

  lemma WordBit(t: seq<byte>, start: nat, span: nat, o2: nat, k: nat)
    requires start + span <= 8 * |t| && o2 + span <= 32 && k < 32
    ensures 0 <= GetBits(t, start, span, o2) < 0x1_0000_0000
    ensures Bit(ToInt32(GetBits(t, start, span, o2)), k) == (o2 <= k < o2 + span && BitAt(t, start + k - o2))
  {
    var word := GetBits(t, start, span, o2);
    GetBitsWord(t, start, span, o2);
    ToInt32Bit(word, k, 32);
    GetBitsBit(t, start, span, o2, k);
  }

  lemma {:induction false} ShiftedBit(room: seq<byte>, start: nat, data: int32, o: nat, span: nat, t: seq<byte>,
      o2: nat, k: nat)
    requires start + span <= 8 * |room| && Agree(PutBits(room, start, data, o, span), t, start, start + span)
    requires o2 + span <= 32 && k < 32
    ensures 0 <= GetBits(t, start, span, o2) < 0x1_0000_0000
    ensures Shifted(ToInt32(GetBits(t, start, span, o2)), data, o, o2, span, k)
  {
    WordBit(t, start, span, o2, k);
    if o2 <= k < o2 + span {
      var i := k - o2;
      var x := start + k - o2;
      assert x == start + i;
      MovedBit(room, start, data, o, span, t, i, x);
    }
  }

  /** All the bits set lie between these. */
  predicate BitsWithin(data: int32, from: nat, to: nat) {
    forall k: nat :: k < 32 && Bit(data, k) ==> from <= k < to
  }

  /** So a value is delivered, under the same offset, exactly if all its bits are among those moved. */
  lemma OffsetExact(s: Stream, data: int32, n: nat, o: nat, r: Stream)
    requires s.Valid() && r.Valid() && r.reader == s.writer && BitsFit(n, o) && ShiftsDefined(s.writer, n, o)
    requires var w := WriteBits(s, data, n, o); Agree(w.bytes, r.bytes, s.writer.Position(), w.writer.Position())
    ensures ReadBits(r, n, o).Got?
    ensures ReadBits(r, n, o).value == data <==> BitsWithin(data, o, o + Span(s.writer, n))
  {
    OffsetRoundTrip(s, data, n, o, r, o);
    WindowExact(ReadBits(r, n, o).value, data, o, Span(s.writer, n), 32);
  }

  lemma WindowExact(read: int32, data: int32, o: nat, span: nat, n: nat)
    requires n == 32 && forall k: nat :: k < n ==> Shifted(read, data, o, o, span, k)
    ensures read == data <==> BitsWithin(data, o, o + span)
  {
    forall k: nat | k < n
      ensures Bit(read, k) <==> o <= k < o + span && Bit(data, k)
    {
      assert Shifted(read, data, o, o, span, k);
    }
    if BitsWithin(data, o, o + span) {
      SameInt32(read, data, n);
    }
  }

  lemma SerializeRoundTrip(s: Stream, data: seq<byte>, r: Stream)
    requires s.Valid() && r.Valid() && r.reader == s.writer
    requires var w := Serialize(s, data); Agree(w.bytes, r.bytes, s.writer.Position(), w.writer.Position())
    ensures Deserialize(r, |data|, false) == Got(data, r.(reader := Serialize(s, data).writer))
  {
    var w := Serialize(s, data);
    var lo, hi := s.writer.bytes, s.writer.bytes + |data|;
    AgreeSlice(w.bytes, r.bytes, s.writer.Position(), w.writer.Position(), lo, hi);
    assert w.bytes[lo..hi] == data;
  }

  lemma CountRoundTrip(n: nat)
    requires IsSize(n)
    ensures DecodeLE(EncodeLE(n, SIZE_BYTES)) == n
  {
    DecodeEncodeLE(n, SIZE_BYTES);
  }

  lemma CountedRoundTrip(s: Stream, count: nat, data: seq<byte>, r: Stream)
    requires s.Valid() && IsSize(count) && r.Valid() && r.reader == s.writer
    requires var w := Serialize(Serialize(s, EncodeLE(count, SIZE_BYTES)), data);
             Agree(w.bytes, r.bytes, s.writer.Position(), w.writer.Position())
    ensures var c := Serialize(s, EncodeLE(count, SIZE_BYTES));
            && Deserialize(r, SIZE_BYTES, false) == Got(EncodeLE(count, SIZE_BYTES), r.(reader := c.writer))
            && DecodeLE(EncodeLE(count, SIZE_BYTES)) == count
            && Deserialize(r.(reader := c.writer), |data|, false) == Got(data, r.(reader := Serialize(c, data).writer))
  {
    var code := EncodeLE(count, SIZE_BYTES);
    var c := Serialize(s, code);
    var w := Serialize(c, data);
    SerializePreserves(c, data);
    AgreeTransitive(c.bytes, w.bytes, r.bytes, s.writer.Position(), c.writer.Position(), w.writer.Position());
    SerializeRoundTrip(s, code, r);
    SerializeRoundTrip(c, data, r.(reader := c.writer));
    CountRoundTrip(count);
  }

  lemma SpanFits(c: Cursor, width: nat)
    requires c.bits <= 8
    ensures width <= 32 ==> Span(c, width) <= 32
    ensures width <= 31 ==> Span(c, width) <= 31
  {
  }

  /** The value that arrives for a field written at this cursor */
  function Received(c: Cursor, f: Field): Value
    requires c.Valid() && WellTyped(f)
  {
    match f.shape
    case BitField(width) => IntValue(Carried(f.value.n, Span(c, width)))
    case Quantised(range) =>
      CodeRange(range, f.value.x);
      WidthBound(range);
      RealValue(range.Decode(Carried(range.Code(f.value.x), Span(c, range.Width()))))
    case _ => f.value
  }

  /** The value, or its code, fits the bits really moved. */
  predicate Fits(c: Cursor, f: Field)
    requires c.Valid() && WellTyped(f)
  {
    match f.shape
    case BitField(width) => Span(c, width) == 32 || 0 <= f.value.n < Pow2(Span(c, width))
    case Quantised(range) => range.Code(f.value.x) < Pow2(Span(c, range.Width()))
    case _ => true
  }

  lemma ReceivedExactly(c: Cursor, f: Field)
    requires c.Valid() && WellTyped(f)
    ensures Received(c, f) == Delivered(f) <==> Fits(c, f)
  {
    match f.shape
    case BitField(width) => CarriedExact(f.value.n, Span(c, width));
    case Quantised(range) =>
      var code := range.Code(f.value.x);
      CodeRange(range, f.value.x);
      WidthBound(range);
      SpanFits(c, range.Width());
      CarriedExact(code, Span(c, range.Width()));
      Decodes(range, Carried(code, Span(c, range.Width())), code);
    case _ =>
  }

  /** Unless its write throws, a field arrives as what was received of it, and reader and writer stay in step. */
  lemma FieldReceived(s: Stream, f: Field, r: Stream)
    requires s.Valid() && WellTyped(f) && WriteField(s, f).Done? && r.Valid() && r.reader == s.writer
    requires var w := WriteField(s, f).after; Agree(w.bytes, r.bytes, s.writer.Position(), w.writer.Position())
    ensures ReadField(r, f.shape) == Got(Received(s.writer, f), r.(reader := WriteField(s, f).after.writer))
  {
    match f.shape
    case BitField(width) => BitsRoundTrip(s, f.value.n, width, r);
    case Raw(_) => SerializeRoundTrip(s, f.value.data, r);
    case Text => CountedRoundTrip(s, |f.value.data|, f.value.data, r);
    case Vector(size) => VectorRoundTrip(s, size, f.value.data, r);
    case Quantised(range) =>
      CodeRange(range, f.value.x);
      WidthBound(range);
      BitsRoundTrip(s, range.Code(f.value.x), range.Width(), r);
  }

  /** A value that fits the bits asked for fits those moved. */
  lemma FaithfulFits(c: Cursor, f: Field)
    requires c.Valid() && WellTyped(f) && Faithful(f)
    ensures Fits(c, f)
  {
    match f.shape
    case BitField(width) => Pow2Monotone(width, Span(c, width));
    case Quantised(range) =>
      CodeRange(range, f.value.x);
      TopCodeFits(range.Steps());
      Pow2Monotone(range.Width(), Span(c, range.Width()));
    case _ =>
  }

  lemma FieldRoundTrip(s: Stream, f: Field, r: Stream)
    requires s.Valid() && WellTyped(f) && Faithful(f) && r.Valid() && r.reader == s.writer
    requires var w := WriteField(s, f).after; Agree(w.bytes, r.bytes, s.writer.Position(), w.writer.Position())
    ensures WriteField(s, f).Done?
    ensures ReadField(r, f.shape) == Got(Delivered(f), r.(reader := WriteField(s, f).after.writer))
  {
    FieldReceived(s, f, r);
    FaithfulFits(s.writer, f);
    ReceivedExactly(s.writer, f);
  }

  lemma VectorRoundTrip(s: Stream, elementSize: nat, data: seq<byte>, r: Stream)
    requires elementSize > 0 && |data| % elementSize == 0 && IsSize(|data| / elementSize) && data != []
    requires s.Valid() && r.Valid() && r.reader == s.writer
    requires var w := WriteVector(s, elementSize, data).after;
             Agree(w.bytes, r.bytes, s.writer.Position(), w.writer.Position())
    ensures ReadVector(r, elementSize) == Got(data, r.(reader := WriteVector(s, elementSize, data).after.writer))
  {
    var count := |data| / elementSize;
    WholeElements(|data|, elementSize);
    CountedRoundTrip(s, count, data, r);
  }

  lemma WholeElements(n: nat, size: nat)
    requires size > 0 && n % size == 0
    ensures size * (n / size) == n
    ensures n > 0 ==> n / size > 0
  {
  }

  // ----- the whole packet

  predicate IsEmptyVector(f: Field)
    requires WellTyped(f)
  {
    f.shape.Vector? && f.value.data == []
  }

  predicate NoEmptyVector(fs: seq<Field>)
    requires AllWellTyped(fs)
  {
    forall i :: 0 <= i < |fs| ==> !IsEmptyVector(fs[i])
  }

  lemma NoEmptyCons(fs: seq<Field>)
    requires AllWellTyped(fs) && fs != []
    ensures NoEmptyVector(fs) <==> !IsEmptyVector(fs[0]) && NoEmptyVector(fs[1..])
  {
    if !IsEmptyVector(fs[0]) && NoEmptyVector(fs[1..]) {
      forall i | 0 <= i < |fs|
        ensures !IsEmptyVector(fs[i])
      {
        if i > 0 {
          assert fs[i] == fs[1..][i - 1];
        }
      }
    }
  }

  /** Writing a list throws exactly if there is an empty vector in it. */
  lemma {:induction false} DoneExactly(s: Stream, fs: seq<Field>)
    requires s.Valid() && AllWellTyped(fs)
    ensures WriteAll(s, fs).Done? <==> NoEmptyVector(fs)
    decreases |fs|
  {
    if fs == [] {
    } else {
      DoneExactly(WriteField(s, fs[0]).after, fs[1..]);
      NoEmptyCons(fs);
    }
  }

  lemma AllDone(s: Stream, fs: seq<Field>)
    requires s.Valid() && AllWellTyped(fs) && AllFaithful(fs)
    ensures WriteAll(s, fs).Done?
  {
    DoneExactly(s, fs);
    forall i | 0 <= i < |fs|
      ensures !IsEmptyVector(fs[i])
    {
      assert Faithful(fs[i]);
    }
  }

  lemma {:induction false} AgreesAfterFirst(s: Stream, fs: seq<Field>, r: Stream)
    requires s.Valid() && AllWellTyped(fs) && WriteAll(s, fs).Done? && fs != []
    requires var w := WriteAll(s, fs).after; Agree(w.bytes, r.bytes, s.writer.Position(), w.writer.Position())
    ensures var first := WriteField(s, fs[0]);
            && first.Done?
            && WriteAll(s, fs) == WriteAll(first.after, fs[1..])
            && s.writer.Position() <= first.after.writer.Position()
            && Agree(first.after.bytes, r.bytes, s.writer.Position(), first.after.writer.Position())
  {
    FieldAdvances(s, fs[0]);
    var first := WriteField(s, fs[0]).after;
    var w := WriteAll(first, fs[1..]).after;
    AllPreserve(first, fs[1..]);
    AgreeTransitive(first.bytes, w.bytes, r.bytes, s.writer.Position(), first.writer.Position(), w.writer.Position());
  }

  /** The values that arrive for a list of fields, each at its own cursor */
  function AllReceived(s: Stream, fs: seq<Field>): (values: seq<Value>)
    requires s.Valid() && AllWellTyped(fs)
    ensures |values| == |fs|
    decreases |fs|
  {
    if fs == [] then [] else [Received(s.writer, fs[0])] + AllReceived(WriteField(s, fs[0]).after, fs[1..])
  }

  predicate AllFit(s: Stream, fs: seq<Field>)
    requires s.Valid() && AllWellTyped(fs)
    decreases |fs|
  {
    fs == [] || (Fits(s.writer, fs[0]) && AllFit(WriteField(s, fs[0]).after, fs[1..]))
  }

  /** Main theorem: any list of fields that can be written is read, from any buffer holding the bits written for it, as
      what was received of it; no read throws, and the reader ends where the writer did. */
  lemma {:induction false} ListReceived(s: Stream, fs: seq<Field>, r: Stream)
    requires s.Valid() && AllWellTyped(fs) && WriteAll(s, fs).Done? && r.Valid() && r.reader == s.writer
    requires var w := WriteAll(s, fs).after; Agree(w.bytes, r.bytes, s.writer.Position(), w.writer.Position())
    ensures ReadAll(r, Shapes(fs)) == Got(AllReceived(s, fs), r.(reader := WriteAll(s, fs).after.writer))
    decreases |fs|
  {
    if fs == [] {
    } else {
      var f, rest := fs[0], fs[1..];
      AgreesAfterFirst(s, fs, r);
      FieldReceived(s, f, r);
      var first := WriteField(s, f).after;
      ListReceived(first, rest, r.(reader := first.writer));
      assert Shapes(fs)[1..] == Shapes(rest);
    }
  }

  /** And it is delivered unchanged if and only if every value fits the bits really moved where it was written. */
  lemma {:induction false} DeliveredExactly(s: Stream, fs: seq<Field>)
    requires s.Valid() && AllWellTyped(fs)
    ensures AllReceived(s, fs) == AllDelivered(fs) <==> AllFit(s, fs)
    decreases |fs|
  {
    if fs == [] {
      assert AllDelivered(fs) == [];
    } else {
      ReceivedExactly(s.writer, fs[0]);
      DeliveredExactly(WriteField(s, fs[0]).after, fs[1..]);
      DeliveredCons(fs);
      SameCons(Received(s.writer, fs[0]), AllReceived(WriteField(s, fs[0]).after, fs[1..]), Delivered(fs[0]),
          AllDelivered(fs[1..]));
    }
  }

  lemma DeliveredCons(fs: seq<Field>)
    requires AllWellTyped(fs) && fs != []
    ensures AllDelivered(fs) == [Delivered(fs[0])] + AllDelivered(fs[1..])
  {
  }

  lemma SameCons<T>(a: T, x: seq<T>, b: T, y: seq<T>)
    ensures [a] + x == [b] + y <==> a == b && x == y
  {
    assert ([a] + x)[1..] == x && ([b] + y)[1..] == y;
    assert ([a] + x)[0] == a && ([b] + y)[0] == b;
  }

  lemma {:induction false} AllFaithfulFit(s: Stream, fs: seq<Field>)
    requires s.Valid() && AllWellTyped(fs) && AllFaithful(fs)
    ensures AllFit(s, fs)
    decreases |fs|
  {
    if fs == [] {
    } else {
      assert Faithful(fs[0]);
      FaithfulFits(s.writer, fs[0]);
      AllFaithfulFit(WriteField(s, fs[0]).after, fs[1..]);
    }
  }

  /** Main theorem: any list of fields whose values fit the bits asked for is read back, wherever it was written. */
  lemma RoundTrip(s: Stream, fs: seq<Field>, r: Stream)
    requires s.Valid() && AllWellTyped(fs) && AllFaithful(fs) && r.Valid() && r.reader == s.writer
    requires var w := WriteAll(s, fs).after; Agree(w.bytes, r.bytes, s.writer.Position(), w.writer.Position())
    ensures WriteAll(s, fs).Done?
    ensures ReadAll(r, Shapes(fs)) == Got(AllDelivered(fs), r.(reader := WriteAll(s, fs).after.writer))
  {
    AllDone(s, fs);
    ListReceived(s, fs, r);
    AllFaithfulFit(s, fs);
    DeliveredExactly(s, fs);
  }

  /** The value is within half a step, and so within half the resolution, of the source, clamped. */
  predicate Near(f: Field, v: Value)
    requires WellTyped(f) && f.shape.Quantised?
  {
    var range := f.shape.range;
    var half := (range.hi - range.lo) / (2.0 * range.Steps() as real);
    && v.RealValue?
    && -half <= v.x - range.Clamp(f.value.x) <= half
    && half <= range.resolution / 2.0
  }

  lemma {:induction false} DeliveredNear(f: Field)
    requires WellTyped(f) && f.shape.Quantised?
    ensures Near(f, Delivered(f))
  {
    DecodeNear(f.shape.range, f.value.x);
  }

  predicate AllNear(fs: seq<Field>, vs: seq<Value>)
    requires AllWellTyped(fs) && |vs| == |fs|
  {
    forall i :: 0 <= i < |fs| && fs[i].shape.Quantised? ==> Near(fs[i], vs[i])
  }

  /** Of a list that fits, each quantised value is read within half a step of its source. */
  lemma {:induction false} QuantisedNear(s: Stream, fs: seq<Field>, r: Stream)
    requires s.Valid() && AllWellTyped(fs) && WriteAll(s, fs).Done? && AllFit(s, fs) && r.Valid()
             && r.reader == s.writer
    requires var w := WriteAll(s, fs).after; Agree(w.bytes, r.bytes, s.writer.Position(), w.writer.Position())
    ensures ReadAll(r, Shapes(fs)) == Got(AllDelivered(fs), r.(reader := WriteAll(s, fs).after.writer))
    ensures AllNear(fs, AllDelivered(fs))
  {
    ListReceived(s, fs, r);
    DeliveredExactly(s, fs);
    AllDeliveredNear(fs);
  }

  lemma {:induction false} AllDeliveredNear(fs: seq<Field>)
    requires AllWellTyped(fs)
    ensures AllNear(fs, AllDelivered(fs))
  {
    forall i | 0 <= i < |fs| && fs[i].shape.Quantised?
      ensures Near(fs[i], AllDelivered(fs)[i])
    {
      DeliveredNear(fs[i]);
    }
  }

  /** Reading in the packet it was written to, from any point where reader and writer were level */
  lemma RoundTripInPlace(s: Stream, fs: seq<Field>)
    requires s.Valid() && (fs != [] || s.Backed()) && AllWellTyped(fs) && AllFaithful(fs)
    ensures var w := WriteAll(s, fs);
            && w.Done?
            && ReadAll(w.after.(reader := s.writer), Shapes(fs))
                == Got(AllDelivered(fs), w.after.(reader := w.after.writer))
  {
    var w := WriteAll(s, fs).after;
    RoundTrip(s, fs, w.(reader := s.writer));
  }

  /** The same for any list that can be written */
  lemma ReceivedInPlace(s: Stream, fs: seq<Field>)
    requires s.Valid() && (fs != [] || s.Backed()) && AllWellTyped(fs) && WriteAll(s, fs).Done?
    ensures var w := WriteAll(s, fs).after;
            ReadAll(w.(reader := s.writer), Shapes(fs)) == Got(AllReceived(s, fs), w.(reader := w.writer))
  {
    var w := WriteAll(s, fs).after;
    ListReceived(s, fs, w.(reader := s.writer));
  }

  /** One quantised value: it arrives as the nearest representable one exactly when its code fits the
      bits really moved. */
  lemma QuantisedExactly(s: Stream, range: Range, x: real, r: Stream)
    requires s.Valid() && range.Valid() && r.Valid() && r.reader == s.writer
    requires var w := WriteField(s, Field(Quantised(range), RealValue(x))).after;
             Agree(w.bytes, r.bytes, s.writer.Position(), w.writer.Position())
    ensures var read := ReadField(r, Quantised(range));
            && read.Got?
            && (read.value == RealValue(range.Decode(range.Code(x)))
                <==> range.Code(x) < Pow2(Span(s.writer, range.Width())))
  {
    var code := range.Code(x);
    CodeRange(range, x);
    WidthBound(range);
    BitsRoundTrip(s, code, range.Width(), r);
    CarriedExact(code, Span(s.writer, range.Width()));
    Decodes(range, Carried(code, Span(s.writer, range.Width())), code);
  }

  lemma Decodes(range: Range, c: int, d: int)
    requires range.Valid()
    ensures range.Decode(c) == range.Decode(d) <==> c == d
  {
    if range.Decode(c) == range.Decode(d) {
      var m, delta := range.Steps() as real, range.hi - range.lo;
      DivUnique(c as real / m * delta, delta, c as real / m);
      DivUnique(d as real / m * delta, delta, d as real / m);
      DivMul(c as real, m);
      DivMul(d as real, m);
    }
  }

  /** With a power of two of steps and whole bytes before it, the top of the range arrives as the
      bottom: its code needs one bit more than was sent. */
  lemma TopOfRangeLost(s: Stream, range: Range, r: Stream)
    requires s.Valid() && range.Valid() && IsPowerOfTwo(range.Steps()) && Opened(s.writer).bits == 0
    requires r.Valid() && r.reader == s.writer
    requires var w := WriteField(s, Field(Quantised(range), RealValue(range.hi))).after;
             Agree(w.bytes, r.bytes, s.writer.Position(), w.writer.Position())
    ensures ReadField(r, Quantised(range)).Got?
    ensures ReadField(r, Quantised(range)).value == RealValue(range.lo)
  {
    var n := range.Width();
    EndpointsExact(range);
    TopCodeFits(range.Steps());
    WidthBound(range);
    CodeRange(range, range.hi);
    BitsRoundTrip(s, range.Steps(), n, r);
    assert range.Steps() == Pow2(n);
    LowOfPower(n);
  }

  lemma {:induction false} LowOfPower(n: nat)
    ensures Low(Pow2(n), n) == 0
  {
    if n == 0 {
    } else {
      LowOfPower(n - 1);
    }
  }

  // ----- arithmetic values that canDeserialize vouches for

  function Sum(sizes: seq<nat>): nat {
    if sizes == [] then 0 else sizes[0] + Sum(sizes[1..])
  }

  /** canDeserialize for types of these sizes */
  predicate CanDeserialize(s: Stream, sizes: seq<nat>) {
    s.reader.bytes + Sum(sizes) <= |s.bytes|
  }

  function RawShapes(sizes: seq<nat>): (shapes: seq<Shape>)
    ensures |shapes| == |sizes| && forall i :: 0 <= i < |sizes| ==> shapes[i] == Raw(sizes[i])
  {
    seq(|sizes|, i requires 0 <= i < |sizes| => Raw(sizes[i]))
  }

  /** The promise of canDeserialize, in both directions */
  lemma {:induction false} CanDeserializeExactly(s: Stream, sizes: seq<nat>)
    requires s.Valid() && (sizes != [] || s.reader.bytes <= |s.bytes|) && forall i :: 0 <= i < |sizes| ==> sizes[i] > 0
    ensures CanDeserialize(s, sizes) <==> ReadAll(s, RawShapes(sizes)).Got?
    decreases |sizes|
  {
    if sizes == [] {
    } else {
      assert RawShapes(sizes)[0] == Raw(sizes[0]);
      assert RawShapes(sizes)[1..] == RawShapes(sizes[1..]);
      if s.reader.bytes + sizes[0] <= |s.bytes| {
        CanDeserializeExactly(s.(reader := PastBytes(s.reader, sizes[0])), sizes[1..]);
      }
    }
  }
}
