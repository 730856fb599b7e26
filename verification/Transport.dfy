/** Sending a packet: a header is stamped on the front, and as many bytes as the writer has begun go
    out; the receiver builds a packet from them. */
module Transport {
  import opened Bits
  import opened PacketStream
  import opened Codec
  import opened Quantise

  /** The bytes sent. When the writer has just filled a byte, the byte it has claimed next may not be in
      the vector yet; what is sent for it, `stray`, is then arbitrary. */
  function Sent(s: Stream, stray: seq<byte>): (data: seq<byte>)
    requires s.Valid()
    ensures |data| >= HEADER_SIZE
  {
    var n := s.writer.bytes;
    if n <= |s.bytes| then s.bytes[..n]
    else if |s.bytes| + |stray| == n then s.bytes + stray
    else s.bytes + seq(n - |s.bytes|, _ => 0)
  }

  /** A backed packet sends at most one byte that is not in its vector. */
  lemma AtMostOneStray(s: Stream)
    requires s.Valid() && s.Backed()
    ensures s.writer.bytes <= |s.bytes| + 1
    ensures s.writer.bytes == |s.bytes| + 1 ==> s.writer.bits == 0
  {
  }

  lemma StampKeepsRest(s: Stream, h: PacketHeader, p: nat)
    requires h.Valid() && p <= 8 * |s.bytes|
    ensures Agree(s.bytes, WithHeader(s, h).bytes, 8 * HEADER_SIZE, p)
  {
    forall a | 8 * HEADER_SIZE <= a < p
      ensures BitAt(s.bytes, a) == BitAt(WithHeader(s, h).bytes, a)
    {
      assert a / 8 >= HEADER_SIZE;
    }
  }

  /** The bytes sent hold every bit past the header that was written. */
  lemma SentAgrees(w: Stream, h: PacketHeader, stray: seq<byte>)
    requires w.Valid() && w.Backed() && h.Valid()
    ensures Agree(w.bytes, Sent(WithHeader(w, h), stray), 8 * HEADER_SIZE, w.writer.Position())
  {
    var p := w.writer.Position();
    StampKeepsRest(w, h, p);
    var stamped := WithHeader(w, h);
    var data := Sent(stamped, stray);
    forall a | 8 * HEADER_SIZE <= a < p
      ensures BitAt(w.bytes, a) == BitAt(data, a)
    {
      assert BitAt(w.bytes, a) == BitAt(stamped.bytes, a);
    }
  }

  lemma HeaderArrives(w: Stream, h: PacketHeader, stray: seq<byte>)
    requires w.Valid() && |w.bytes| >= HEADER_SIZE && h.Valid()
    ensures DecodeHeader(Sent(WithHeader(w, h), stray)) == h
  {
    var data := Sent(WithHeader(w, h), stray);
    assert data[..HEADER_SIZE] == EncodeHeader(h);
    HeaderRoundTrip(h);
    assert data[4..8] == EncodeHeader(h)[4..8];
    assert data[1..4] == EncodeHeader(h)[1..4];
  }

  /** A packet whose writer is at its starting point: new, or just cleared */
  predicate AtStart(s: Stream) {
    s.Valid() && s.writer == START
  }

  lemma WriterPastHeader(s: Stream, fs: seq<Field>)
    requires AtStart(s) && (fs != [] || s.Backed()) && AllWellTyped(fs)
    ensures var w := WriteAll(s, fs).after; 8 * HEADER_SIZE <= w.writer.Position() && |w.bytes| >= HEADER_SIZE
  {
    if fs != [] {
      FieldAdvances(s, fs[0]);
      var first := WriteField(s, fs[0]);
      if first.Done? {
        AllPreserve(first.after, fs[1..]);
      }
    }
  }

  /** Main theorem: whatever list of fields can be written to a new or a cleared packet, the receiver finds the
      header it was sent under and reads each value as it was received where it was written: all of them
      unchanged if and only if all fit the bits really moved. */
  lemma {:induction false} TransportSurvival(s: Stream, fs: seq<Field>, h: PacketHeader, stray: seq<byte>)
    requires AtStart(s) && (fs != [] || s.Backed()) && AllWellTyped(fs) && NoEmptyVector(fs) && h.Valid()
    ensures WriteAll(s, fs).Done?
    ensures var received := FromData(Sent(WithHeader(WriteAll(s, fs).after, h), stray));
            && received.header == h
            && ReadAll(received, Shapes(fs))
                == Got(AllReceived(s, fs), received.(reader := WriteAll(s, fs).after.writer))
    ensures AllReceived(s, fs) == AllDelivered(fs) <==> AllFit(s, fs)
  {
    DoneExactly(s, fs);
    var w := WriteAll(s, fs).after;
    WriterPastHeader(s, fs);
    SentAgrees(w, h, stray);
    HeaderArrives(w, h, stray);
    ListReceived(s, fs, FromData(Sent(WithHeader(w, h), stray)));
    DeliveredExactly(s, fs);
  }

  /** In particular a list whose values all fit the bits asked for survives. */
  lemma FaithfulSurvives(s: Stream, fs: seq<Field>, h: PacketHeader, stray: seq<byte>)
    requires AtStart(s) && (fs != [] || s.Backed()) && AllWellTyped(fs) && AllFaithful(fs) && h.Valid()
    ensures WriteAll(s, fs).Done?
    ensures var received := FromData(Sent(WithHeader(WriteAll(s, fs).after, h), stray));
            && received.header == h
            && ReadAll(received, Shapes(fs)) == Got(AllDelivered(fs), received.(reader := WriteAll(s, fs).after.writer))
  {
    AllDone(s, fs);
    DoneExactly(s, fs);
    AllFaithfulFit(s, fs);
    TransportSurvival(s, fs, h, stray);
  }

  // ----- how much is sent

  /** As many bytes go out as the writer has begun, and they are the first ones of the buffer. */
  lemma {:induction false} SentExactly(s: Stream, stray: seq<byte>)
    requires s.Valid()
    ensures |Sent(s, stray)| == s.writer.bytes
    ensures forall i :: 0 <= i < s.writer.bytes && i < |s.bytes| ==> Sent(s, stray)[i] == s.bytes[i]
  {
  }

  /** A new packet sends its header, and a received one all that was received. */
  lemma {:induction false} SentWhole(h: PacketHeader, data: seq<byte>, stray: seq<byte>)
    requires h.Valid() && |data| >= HEADER_SIZE
    ensures AtStart(Fresh(h)) && Sent(Fresh(h), stray) == EncodeHeader(h)
    ensures Sent(FromData(data), stray) == data && FromData(data).reader == START
  {
  }

  /** Stamping a header puts it on the front of the buffer, as far as that goes, and changes neither the rest of
      it nor where anybody stands. */
  lemma {:induction false} StampExact(s: Stream, h: PacketHeader, i: nat)
    requires s.Valid() && h.Valid()
    ensures var t := WithHeader(s, h);
            && t.header == h && t.writer == s.writer && t.reader == s.reader && |t.bytes| == |s.bytes|
            && (i < |s.bytes| ==> t.bytes[i] == if i < HEADER_SIZE then EncodeHeader(h)[i] else s.bytes[i])
  {
  }

  /** A packet received, stamped anew and sent on goes out as it came in, but for the header. */
  lemma {:induction false} RelayExact(data: seq<byte>, h: PacketHeader, stray: seq<byte>)
    requires |data| >= HEADER_SIZE && h.Valid()
    ensures Sent(WithHeader(FromData(data), h), stray) == EncodeHeader(h) + data[HEADER_SIZE..]
  {
  }

  lemma {:induction false} RelayAgrees(b: seq<byte>, data: seq<byte>, h: PacketHeader, p: nat)
    requires |data| >= HEADER_SIZE && h.Valid() && Agree(b, data, 8 * HEADER_SIZE, p)
    ensures Agree(b, EncodeHeader(h) + data[HEADER_SIZE..], 8 * HEADER_SIZE, p)
  {
    var relayed := EncodeHeader(h) + data[HEADER_SIZE..];
    forall a | 8 * HEADER_SIZE <= a < p
      ensures BitAt(b, a) == BitAt(relayed, a)
    {
      assert BitAt(b, a) == BitAt(data, a);
      assert relayed[a / 8] == data[a / 8];
    }
  }

  /** Main theorem: what a packet delivers survives being relayed. */
  lemma {:induction false} RelaySurvival(s: Stream, fs: seq<Field>, h: PacketHeader, stray: seq<byte>, h2: PacketHeader)
    requires AtStart(s) && (fs != [] || s.Backed()) && AllWellTyped(fs) && NoEmptyVector(fs) && h.Valid() && h2.Valid()
    ensures WriteAll(s, fs).Done?
    ensures var received := FromData(Sent(WithHeader(WriteAll(s, fs).after, h), stray));
            var relayed := FromData(Sent(WithHeader(received, h2), []));
            && relayed.header == h2 && |relayed.bytes| == |received.bytes|
            && ReadAll(relayed, Shapes(fs)) == Got(AllReceived(s, fs), relayed.(reader := WriteAll(s, fs).after.writer))
  {
    DoneExactly(s, fs);
    var w := WriteAll(s, fs).after;
    WriterPastHeader(s, fs);
    SentAgrees(w, h, stray);
    var data := Sent(WithHeader(w, h), stray);
    RelayExact(data, h2, []);
    RelayAgrees(w.bytes, data, h2, w.writer.Position());
    HeaderArrives(FromData(data), h2, []);
    ListReceived(s, fs, FromData(EncodeHeader(h2) + data[HEADER_SIZE..]));
  }

  // ----- after clear

  predicate IsEmpty(s: Stream) {
    |s.bytes| == HEADER_SIZE
  }

  /** A cleared packet keeps its header and has nothing to read; yet isEmpty is true of a new packet only. */
  lemma {:induction false} ClearedExact(s: Stream, size: nat, isNull: bool, n: nat)
    requires s.Valid() && 1 <= n <= 32
    ensures var c := Cleared(s);
            && AtStart(c) && c.reader == START && c.header == s.header
            && Deserialize(c, size, isNull) == Threw(c) && !ReadBits(c, n, 0).Got?
            && !IsEmpty(c) && IsEmpty(Fresh(s.header))
  {
  }

  /** What arrives depends on where the writer stood, not on what was in the buffer. */
  lemma {:induction false} SameWriter(s: Stream, t: Stream, fs: seq<Field>)
    requires s.Valid() && t.Valid() && s.writer == t.writer && AllWellTyped(fs)
    ensures AllReceived(s, fs) == AllReceived(t, fs) && WriteAll(s, fs).after.writer == WriteAll(t, fs).after.writer
    decreases |fs|
  {
    if fs == [] {
    } else {
      SameWriterField(s, t, fs[0]);
      SameWriter(WriteField(s, fs[0]).after, WriteField(t, fs[0]).after, fs[1..]);
    }
  }

  lemma {:induction false} SameWriterField(s: Stream, t: Stream, f: Field)
    requires s.Valid() && t.Valid() && s.writer == t.writer && WellTyped(f)
    ensures WriteField(s, f).after.writer == WriteField(t, f).after.writer
    ensures WriteField(s, f).Done? == WriteField(t, f).Done?
  {
    if f.shape.Quantised? {
      CodeRange(f.shape.range, f.value.x);
      WidthBound(f.shape.range);
    }
  }

  /** A cleared packet can be written to like a new one. */
  lemma {:induction false} ClearedLikeNew(s: Stream, fs: seq<Field>)
    requires s.Valid() && AllWellTyped(fs)
    ensures AllReceived(Cleared(s), fs) == AllReceived(Fresh(s.header), fs)
    ensures WriteAll(Cleared(s), fs).after.writer == WriteAll(Fresh(s.header), fs).after.writer
  {
    SameWriter(Cleared(s), Fresh(s.header), fs);
  }

  function Zeros(n: nat): (b: seq<byte>)
    ensures |b| == n && forall i :: 0 <= i < n ==> b[i] == 0
  {
    seq(n, _ => 0)
  }

  lemma {:induction false} ClearedGrows(size: nat)
    requires size >= HEADER_SIZE
    ensures Grown([], size) == Grown(Zeros(HEADER_SIZE), size)
  {
  }

  lemma {:induction false} ClearedField(s: Stream, f: Field)
    requires s.Valid() && WellTyped(f)
    ensures WriteField(Cleared(s), f) == WriteField(Cleared(s).(bytes := Zeros(HEADER_SIZE)), f)
  {
    var c := Cleared(s);
    match f.shape
    case BitField(width) => ClearedGrows(BytesNeeded(c.writer, width));
    case Raw(size) => ClearedGrows((HEADER_SIZE + size) * 2);
    case Text => ClearedGrows((HEADER_SIZE + SIZE_BYTES) * 2);
    case Vector(_) => ClearedGrows((HEADER_SIZE + SIZE_BYTES) * 2);
    case Quantised(range) =>
      CodeRange(range, f.value.x);
      WidthBound(range);
      ClearedGrows(BytesNeeded(c.writer, range.Width()));
  }

  /** Its header is not in the buffer any more: writes leave zeros there until one is stamped. */
  lemma {:induction false} ClearedHeaderZero(s: Stream, fs: seq<Field>, i: nat)
    requires s.Valid() && AllWellTyped(fs) && fs != [] && i < HEADER_SIZE
    ensures |WriteAll(Cleared(s), fs).after.bytes| >= HEADER_SIZE && WriteAll(Cleared(s), fs).after.bytes[i] == 0
  {
    var zero := Cleared(s).(bytes := Zeros(HEADER_SIZE));
    ClearedField(s, fs[0]);
    AllPreserve(zero, fs);
    AgreeBytes(zero.bytes, WriteAll(zero, fs).after.bytes, 0, 8 * HEADER_SIZE, i);
  }
}
