/** The bytes on the wire: what other implementations would have to send and expect. */
module Wire {
  import opened Bits
  import opened PacketStream
  import opened Codec
  import opened Entities
  import opened Messages

  // ----- numbers

  /** Little-endian: byte i holds the digit of weight 256 to the i. */
  lemma {:induction false} LittleEndian(v: nat, n: nat, i: nat)
    requires i < n
    ensures EncodeLE(v, n)[i] == v / Pow256(i) % 256
    decreases i
  {
    if i == 0 {
    } else {
      LittleEndian(v / 256, n - 1, i - 1);
      DivDiv(v, Pow256(i - 1));
    }
  }

  lemma {:induction false} DivDiv(v: nat, p: nat)
    requires p > 0
    ensures v / 256 / p == v / (256 * p)
  {
    var q := v / (256 * p);
    var r := v - q * (256 * p);
    DivRange(v, 256 * p);
    var u := v / 256;
    assert q * p <= u < (q + 1) * p by {
      assert (q * p) * 256 <= v < ((q + 1) * p) * 256;
    }
    DivUnique(u, p, q);
  }

  lemma DivRange(v: nat, d: nat)
    requires d > 0
    ensures v / d * d <= v < (v / d + 1) * d
  {
  }

  lemma DivUnique(u: nat, p: nat, q: nat)
    requires p > 0 && q * p <= u < (q + 1) * p
    ensures u / p == q
  {
    DivRange(u, p);
    var d := u / p;
    if d < q {
      Times(d + 1, q, p);
    } else if d > q {
      Times(q + 1, d, p);
    }
  }

  lemma Times(a: nat, b: nat, p: nat)
    requires a <= b
    ensures a * p <= b * p
  {
  }

  /** Signed IDs are sent in two's complement: the bits sent are those of the number. */
  lemma {:induction false} TwosComplement(x: int32, k: nat)
    requires k < 32
    ensures DecodeLE(EncodeInt32(x)) < 0x1_0000_0000 && Bit(DecodeLE(EncodeInt32(x)), k) == Bit(x, k)
  {
    Int32RoundTrip(x);
    DecodeLEBound(EncodeInt32(x));
    ToInt32Bit(DecodeLE(EncodeInt32(x)), k, 32);
  }

  // ----- fields made of whole bytes

  predicate IsBytes(f: Field) {
    f.shape.Raw? || f.shape.Text? || f.shape.Vector?
  }

  /** Raw values are sent as they are, strings and vectors behind their length, counted in elements. */
  function Bytes(f: Field): seq<byte>
    requires WellTyped(f) && IsBytes(f)
  {
    match f.shape
    case Raw(_) => f.value.data
    case Text => EncodeLE(|f.value.data|, 8) + f.value.data
    case Vector(size) => EncodeLE(|f.value.data| / size, 8) + f.value.data
  }

  predicate AllBytes(fs: seq<Field>) {
    forall i :: 0 <= i < |fs| ==> IsBytes(fs[i])
  }

  function ListBytes(fs: seq<Field>): seq<byte>
    requires AllWellTyped(fs) && AllBytes(fs)
  {
    if fs == [] then [] else Bytes(fs[0]) + ListBytes(fs[1..])
  }

  lemma {:induction false} SerializeBytes(s: Stream, data: seq<byte>)
    requires s.Valid()
    ensures var t := Serialize(s, data);
            && t.writer == Cursor(s.writer.bytes + |data|, 8) && t.writer.bytes <= |t.bytes|
            && t.bytes[s.writer.bytes..t.writer.bytes] == data
            && (s.writer.bytes <= |s.bytes| ==> t.bytes[..s.writer.bytes] == s.bytes[..s.writer.bytes])
  {
  }

  lemma {:induction false} TwoPieces(b: seq<byte>, t: seq<byte>, i: nat, j: nat, k: nat)
    requires i <= j <= k <= |t| && j <= |b| && t[..j] == b[..j]
    ensures t[i..k] == b[i..j] + t[j..k]
  {
    assert t[i..j] == t[..j][i..] && b[i..j] == b[..j][i..];
  }

  lemma {:induction false} FieldBytes(s: Stream, f: Field)
    requires s.Valid() && WellTyped(f) && IsBytes(f) && WriteField(s, f).Done?
    ensures var t := WriteField(s, f).after;
            && t.writer == Cursor(s.writer.bytes + |Bytes(f)|, 8) && t.writer.bytes <= |t.bytes|
            && t.bytes[s.writer.bytes..t.writer.bytes] == Bytes(f)
            && (s.writer.bytes <= |s.bytes| ==> t.bytes[..s.writer.bytes] == s.bytes[..s.writer.bytes])
  {
    match f.shape
    case Raw(_) => SerializeBytes(s, f.value.data);
    case Text => CountedBytes(s, EncodeLE(|f.value.data|, 8), f.value.data);
    case Vector(size) => CountedBytes(s, EncodeLE(|f.value.data| / size, 8), f.value.data);
  }

  lemma {:induction false} CountedBytes(s: Stream, count: seq<byte>, data: seq<byte>)
    requires s.Valid()
    ensures var t := Serialize(Serialize(s, count), data);
            && t.writer == Cursor(s.writer.bytes + |count + data|, 8) && t.writer.bytes <= |t.bytes|
            && t.bytes[s.writer.bytes..t.writer.bytes] == count + data
            && (s.writer.bytes <= |s.bytes| ==> t.bytes[..s.writer.bytes] == s.bytes[..s.writer.bytes])
  {
    var c := Serialize(s, count);
    var t := Serialize(c, data);
    SerializeBytes(s, count);
    SerializeBytes(c, data);
    TwoPieces(c.bytes, t.bytes, s.writer.bytes, c.writer.bytes, t.writer.bytes);
    if s.writer.bytes <= |s.bytes| {
      assert t.bytes[..s.writer.bytes] == t.bytes[..c.writer.bytes][..s.writer.bytes];
      assert c.bytes[..s.writer.bytes] == c.bytes[..c.writer.bytes][..s.writer.bytes];
    }
  }

  /** Main theorem: a list of such fields is sent as the bytes of each, one behind the other and from the next
      whole byte on, and whatever was in front stays. */
  lemma {:induction false} ListOnWire(s: Stream, fs: seq<Field>)
    requires s.Valid() && AllWellTyped(fs) && AllBytes(fs) && WriteAll(s, fs).Done? && s.writer.bytes <= |s.bytes|
    ensures var t := WriteAll(s, fs).after;
            && t.writer.bytes == s.writer.bytes + |ListBytes(fs)| && t.writer.bytes <= |t.bytes|
            && t.bytes[s.writer.bytes..t.writer.bytes] == ListBytes(fs)
            && t.bytes[..s.writer.bytes] == s.bytes[..s.writer.bytes]
    decreases |fs|
  {
    if fs == [] {
    } else {
      var first := WriteField(s, fs[0]).after;
      FieldBytes(s, fs[0]);
      ListOnWire(first, fs[1..]);
      var t := WriteAll(s, fs).after;
      OneBehindTheOther(s.bytes, first.bytes, t.bytes, s.writer.bytes, first.writer.bytes, t.writer.bytes);
    }
  }

  lemma {:induction false} OneBehindTheOther(a: seq<byte>, b: seq<byte>, c: seq<byte>, i: nat, j: nat, k: nat)
    requires i <= j <= k <= |c| && j <= |b| && i <= |a| && c[..j] == b[..j] && b[..i] == a[..i]
    ensures c[i..k] == b[i..j] + c[j..k] && c[..i] == a[..i]
  {
    TwoPieces(b, c, i, j, k);
    assert c[..i] == c[..j][..i] && b[..i] == b[..j][..i];
  }

  /** An entity info on the wire: ID, owner, type, name and parent */
  function InfoBytes(info: EntityInfo): seq<byte>
    requires Encodable(info)
  {
    EncodeInt32(info.ID) + (EncodeLE(info.ownerID, 4)
    + (EncodeLE(|info.kind|, 8) + info.kind + (EncodeLE(|info.name|, 8) + info.name + EncodeInt32(info.parentID))))
  }

  lemma {:induction false} InfoOnWire(s: Stream, info: EntityInfo)
    requires s.Valid() && Encodable(info) && s.writer.bytes <= |s.bytes|
    ensures WriteAll(s, InfoFields(info)).Done?
    ensures var t := WriteAll(s, InfoFields(info)).after;
            && t.writer.bytes <= |t.bytes| && t.writer.bytes == s.writer.bytes + |InfoBytes(info)|
            && t.bytes[s.writer.bytes..t.writer.bytes] == InfoBytes(info)
  {
    var fs := InfoFields(info);
    InfoDelivered(info);
    AllDone(s, fs);
    InfoIsList(info);
    ListOnWire(s, fs);
  }

  lemma {:induction false} InfoIsList(info: EntityInfo)
    requires Encodable(info)
    ensures AllBytes(InfoFields(info)) && ListBytes(InfoFields(info)) == InfoBytes(info)
  {
    var fs := InfoFields(info);
    assert fs[1..][1..][1..][1..][1..] == [];
    assert ListBytes(fs[1..][1..][1..][1..]) == EncodeInt32(info.parentID) + [];
    assert ListBytes(fs[1..][1..][1..]) == (EncodeLE(|info.name|, 8) + info.name) + ListBytes(fs[1..][1..][1..][1..]);
    assert ListBytes(fs[1..][1..]) == (EncodeLE(|info.kind|, 8) + info.kind) + ListBytes(fs[1..][1..][1..]);
    assert ListBytes(fs[1..]) == EncodeLE(info.ownerID, 4) + ListBytes(fs[1..][1..]);
  }

  // ----- bits

  /** How many bits a transfer of n that starts at bit address p moves: a byte begun is filled, whatever n is. */
  function Moved(p: nat, n: nat): nat {
    if 0 < n < 8 - p % 8 && p % 8 != 0 then 8 - p % 8 else n
  }

  /** Buffer t has the bits of v from o on at the m addresses from p on, and elsewhere what b has, or zeros. */
  ghost predicate BitsPut(b: seq<byte>, t: seq<byte>, p: nat, m: nat, v: int, o: nat) {
    forall a: nat :: a < 8 * |t| ==>
      BitAt(t, a) == if p <= a < p + m then Bit(v, o + a - p) else a < 8 * |b| && BitAt(b, a)
  }

  /** Main theorem: writeBits puts the bits of the value from its offset on, lowest first, behind those written
      before, leaves all others alone, and grows the vector, by zeros, no further than the bits asked for need.
      */
  lemma {:induction false} BitsOnWire(s: Stream, data: int32, n: nat, o: nat)
    requires s.Valid() && BitsFit(n, o) && ShiftsDefined(s.writer, n, o)
    ensures var p, t := s.writer.Position(), WriteBits(s, data, n, o);
            var m := Moved(p, n);
            && t == s.(bytes := t.bytes, writer := t.writer)
            && t.writer.Position() == p + m <= 8 * |t.bytes|
            && |t.bytes| == (if 8 * |s.bytes| < p + n then (p + n + 7) / 8 else |s.bytes|)
            && BitsPut(s.bytes, t.bytes, p, m, data, o)
  {
    SpanIsMoved(s.writer, n);
    PutInGrown(s.bytes, BytesNeeded(s.writer, n), s.writer.Position(), data, o, Span(s.writer, n));
  }

  lemma {:induction false} PutInGrown(b: seq<byte>, size: nat, p: nat, v: int, o: nat, m: nat)
    requires p + m <= 8 * |Grown(b, size)|
    ensures BitsPut(b, PutBits(Grown(b, size), p, v, o, m), p, m, v, o)
  {
    var room := Grown(b, size);
    var t := PutBits(room, p, v, o, m);
    forall a: nat | a < 8 * |t|
      ensures BitAt(t, a) == if p <= a < p + m then Bit(v, o + a - p) else a < 8 * |b| && BitAt(b, a)
    {
      PutBitsAt(room, p, v, o, m, a);
      GrownBits(b, size, a);
    }
  }

  lemma GrownBits(b: seq<byte>, size: nat, a: nat)
    requires a < 8 * |Grown(b, size)|
    ensures BitAt(Grown(b, size), a) == (a < 8 * |b| && BitAt(b, a))
  {
    ZeroBit(a % 8);
  }

  lemma {:induction false} LowIsMod(v: int, n: nat)
    ensures Low(v, n) == v % Pow2(n)
    decreases n
  {
    if n == 0 {
    } else {
      LowIsMod(v / 2, n - 1);
      ModDouble(v, Pow2(n - 1));
    }
  }

  lemma ModDouble(v: int, p: nat)
    requires p > 0
    ensures v % (2 * p) == v / 2 % p * 2 + v % 2
  {
    var q, r := v / 2 / p, v / 2 % p;
    assert v == q * (2 * p) + (r * 2 + v % 2);
    ModUnique(v, 2 * p, q, r * 2 + v % 2);
  }

  lemma ModUnique(v: int, d: nat, q: int, r: int)
    requires d > 0 && v == q * d + r && 0 <= r < d
    ensures v % d == r
  {
    var k, left := v / d, v % d;
    assert v == k * d + left;
    SameRest(k, q, d, left, r);
  }

  lemma SameRest(k: int, q: int, d: nat, left: int, r: int)
    requires k * d + left == q * d + r && 0 <= left < d && 0 <= r < d
    ensures left == r
  {
    if k < q {
      Multiple(q - k, d);
    } else if q < k {
      Multiple(k - q, d);
    }
  }

  lemma Multiple(k: nat, d: nat)
    requires k >= 1
    ensures k * d >= d
  {
  }

  /** Eight bits written behind whole bytes are one more byte: the number modulo 256. */
  lemma {:induction false} ByteOnWire(s: Stream, data: int32, n: nat)
    requires s.Valid() && s.writer.bits == 8 && n == 8
    ensures var i, t := s.writer.bytes, WriteBits(s, data, n, 0);
            t.writer.Position() == 8 * (i + 1) && i < |t.bytes| && t.bytes[i] == data % 256
  {
    var i, t := s.writer.bytes, WriteBits(s, data, n, 0);
    BitsOnWire(s, data, n, 0);
    MovedWhole(i, n);
    assert s.writer.Position() == 8 * i;
    ByteIsThere(s.bytes, t.bytes, i, data, n);
  }

  lemma MovedWhole(i: nat, n: nat)
    ensures Moved(8 * i, n) == n
  {
  }

  lemma {:induction false} ByteIsThere(b: seq<byte>, t: seq<byte>, i: nat, data: int32, n: nat)
    requires n == 8 && i < |t| && BitsPut(b, t, 8 * i, n, data, 0)
    ensures t[i] == data % 256
  {
    forall k: nat | k < n
      ensures BitAt(t, 8 * i + k) == Bit(data, k)
    {
      var a := 8 * i + k;
      assert a < 8 * |t|;
    }
    ByteOfBits(t, i, data, n);
  }

  lemma {:induction false} ByteOfBits(b: seq<byte>, i: nat, v: int, n: nat)
    requires i < |b| && n == 8 && forall k: nat :: k < n ==> BitAt(b, 8 * i + k) == Bit(v, k)
    ensures b[i] == v % 256
  {
    forall k: nat | k < n
      ensures Bit(b[i], k) == Bit(Low(v, n), k)
    {
      ByteAddress(i, k);
      assert BitAt(b, 8 * i + k) == Bit(b[i], k);
      LowBit(v, n, k);
    }
    EightBits(n);
    SameBits(b[i], Low(v, n), n);
    LowIsMod(v, n);
  }

  lemma EightBits(n: nat)
    requires n == 8
    ensures Pow2(n) == 256
  {
    Pow2Values();
  }

  /** readBits takes the bits from the next one on into the value, from its offset on; all its other bits are zero. It
      throws exactly if an int has not room for them or they need two bytes more than there are. */
  lemma {:induction false} BitsOffWire(s: Stream, n: nat, o: nat, w: nat)
    requires s.Valid() && ShiftsDefined(s.reader, n, o) && w == 32
    ensures var p, r := s.reader.Position(), ReadBits(s, n, o);
            && (r.Threw? <==> n + o > w || (p + n + 7) / 8 > |s.bytes| + 1)
            && (!r.Threw? ==> r.after == s.(reader := r.after.reader)
                              && r.after.reader.Position() == p + Moved(p, n))
            && (r.Got? <==> n + o <= w && p + Moved(p, n) <= 8 * |s.bytes|)
            && (r.Got? ==> forall k: nat :: k < w ==>
                  Bit(r.value, k) == (o <= k < o + Moved(p, n) && BitAt(s.bytes, p + k - o)))
  {
    var p, r := s.reader.Position(), ReadBits(s, n, o);
    SpanIsMoved(s.reader, n);
    if r.Got? {
      forall k: nat | k < w
        ensures Bit(r.value, k) == (o <= k < o + Moved(p, n) && BitAt(s.bytes, p + k - o))
      {
        var m := Span(s.reader, n);
        GetBitsWord(s.bytes, p, m, o);
        GetBitsBit(s.bytes, p, m, o, k);
        ToInt32Bit(GetBits(s.bytes, p, m, o), k, w);
      }
    }
  }

  lemma {:induction false} SpanIsMoved(c: Cursor, n: nat)
    requires c.Valid()
    ensures Span(c, n) == Moved(c.Position(), n) && Opened(c).Position() == c.Position()
    ensures PastBits(c, n).Position() == c.Position() + Span(c, n)
    ensures BytesNeeded(c, n) == (c.Position() + n + 7) / 8
  {
  }

  // ----- what throwing leaves behind

  /** An empty vector throws when its count of 0 is in the packet already. */
  lemma {:induction false} EmptyVectorLeavesCount(s: Stream, size: nat)
    requires s.Valid() && size > 0
    ensures var w := WriteVector(s, size, []);
            && w.Failed? && w.after.writer == Cursor(s.writer.bytes + 8, 8)
            && Deserialize(w.after.(reader := s.writer), 8, false)
               == Got(EncodeLE(0, 8), w.after.(reader := w.after.writer))
            && ReadVector(w.after.(reader := s.writer), size).Threw?
  {
    SerializeBytes(s, EncodeLE(0, 8));
    assert Pow256(8) > 0;
    DecodeEncodeLE(0, 8);
  }

  /** A raw read that throws leaves the packet as it was. One of a string or vector may have read the length,
      and leaves all else. A bit read or write changes nothing but how the place it stands at is put, and never
      the place. */
  lemma {:induction false} ThrowsLeave(s: Stream, size: nat, isNull: bool)
    requires s.Valid()
    ensures Deserialize(s, size, isNull).Threw? ==> Deserialize(s, size, isNull).after == s
    ensures ReadText(s).Threw? ==> ReadText(s).after == s || ReadText(s).after == s.(reader := PastBytes(s.reader, 8))
    ensures size > 0 && ReadVector(s, size).Threw? ==>
              ReadVector(s, size).after == s || ReadVector(s, size).after == s.(reader := PastBytes(s.reader, 8))
  {
  }

  lemma {:induction false} BitThrowsLeave(s: Stream, data: int32, n: nat, o: nat)
    requires s.Valid() && ShiftsDefined(s.reader, n, o) && ShiftsDefined(s.writer, n, o)
    ensures var r := ReadBits(s, n, o);
            r.Threw? ==> r.after == s.(reader := r.after.reader) && r.after.reader.Position() == s.reader.Position()
    ensures var w := WriteBits(s, data, n, o);
            !BitsFit(n, o) ==> w == s.(writer := w.writer) && w.writer.Position() == s.writer.Position()
    ensures !BitsFit(n, o) ==> ReadBits(s, n, o).Threw?
  {
  }

  /** How the vector grows: a write that fits leaves its size, and one that does not doubles what it needs. */
  lemma {:induction false} GrowsByDoubling(s: Stream, data: seq<byte>)
    requires s.Valid()
    ensures var end := s.writer.bytes + |data|;
            |Serialize(s, data).bytes| == if end <= |s.bytes| then |s.bytes| else 2 * end
  {
  }
}
