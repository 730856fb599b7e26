/** The packet class: a growable byte buffer with a write cursor and a read cursor, updated in
    place. Each method is tied to the function of PacketStream that says what it does. */
module PacketClass {
  import opened Bits
  import opened PacketStream
  import opened Quantise

  /** The inner loop of writeBits: `count` bits of data, from bit `shift` on, into byte `at` of the
      buffer, from its bit `used` on. That continues a transfer of which `done` bits, starting at
      address `start` with bit `o` of data, have been stored. */
  method WriteRun(buffer: seq<byte>, at: nat, used: nat, data: int32, count: nat, shift: nat,
                  ghost room: seq<byte>, ghost start: nat, ghost o: nat, ghost done: nat)
      returns (out: seq<byte>, ghost moved: nat)
    requires at < |buffer| && used + count <= 8 && shift == o + done
    requires start + done == 8 * at + used && start + done + count <= 8 * |room|
    requires buffer == PutBits(room, start, data, o, done)
    ensures moved == done + count && out == PutBits(room, start, data, o, moved)
  {
    out, moved := buffer, done;
    for i := 0 to count
      invariant moved == done + i && |out| == |buffer|
      invariant out == PutBits(room, start, data, o, moved)
    {
      PutBitsStep(room, start, data, o, moved, at, i + used, i + shift);
      out := out[at := SetByteBit(out[at], i + used, Bit(data, i + shift))];
      moved := moved + 1;
    }
  }

  /** The inner loop of readBits: `count` bits of byte `at`, from its bit `used` on, into the word,
      from bit `shift` on. */
  method ReadRun(buffer: seq<byte>, at: nat, used: nat, data: int, count: nat, shift: nat,
                 ghost start: nat, ghost o: nat, ghost done: nat)
      returns (word: int, ghost moved: nat)
    requires at < |buffer| && used + count <= 8 && shift == o + done
    requires start + done == 8 * at + used && data == GetBits(buffer, start, done, o)
    ensures moved == done + count && word == GetBits(buffer, start, moved, o)
  {
    word, moved := data, done;
    for i := 0 to count
      invariant moved == done + i && word == GetBits(buffer, start, moved, o)
    {
      GetBitsStep(buffer, start, moved, o, at, used + i, i + shift);
      word := SetBit(word, i + shift, Bit(buffer[at], used + i));
      moved := moved + 1;
    }
  }

  class Packet {
    var header: PacketHeader
    var bytes: seq<byte>
    var bytesWritten: nat
    var bytesRead: nat
    var bitsWritten: nat
    var bitsRead: nat

    ghost predicate Valid()
      reads this
    {
      State().Valid()
    }

    function State(): Stream
      reads this
    {
      Stream(header, bytes, Cursor(bytesWritten, bitsWritten), Cursor(bytesRead, bitsRead))
    }

    constructor (h: PacketHeader)
      requires h.Valid()
      ensures Valid() && State() == Fresh(h)
    {
      header := h;
      bytes := EncodeHeader(h);
      bytesWritten, bytesRead := HEADER_SIZE, HEADER_SIZE;
      bitsWritten, bitsRead := 8, 8;
    }

    constructor FromBytes(data: seq<byte>)
      requires |data| >= HEADER_SIZE
      ensures Valid() && State() == FromData(data)
    {
      header := DecodeHeader(data);
      bytes := data;
      bytesWritten, bytesRead := |data|, HEADER_SIZE;
      bitsWritten, bitsRead := 8, 8;
    }

    /** One branch of the loop of writeBits: a run of bits, and the cursor past it. A run that
        `closes` its byte claims the next one. */
    method MoveWriter(data: int32, count: nat, shift: nat, closes: bool,
                      ghost room: seq<byte>, ghost start: nat, ghost o: nat, ghost done: nat)
        returns (ghost moved: nat)
      requires 1 <= bytesWritten <= |bytes| && bitsWritten + count <= 8 && shift == o + done
      requires if closes then bitsWritten + count == 8 else bitsWritten + count < 8
      requires start + done == 8 * (bytesWritten - 1) + bitsWritten && start + done + count <= 8 * |room|
      requires bytes == PutBits(room, start, data, o, done)
      modifies this`bytes, this`bytesWritten, this`bitsWritten
      ensures moved == done + count && bytes == PutBits(room, start, data, o, moved)
      ensures bytesWritten >= old(bytesWritten) && bitsWritten <= 7 && (closes ==> bitsWritten == 0)
      ensures start + moved == 8 * (bytesWritten - 1) + bitsWritten
    {
      bytes, moved := WriteRun(bytes, bytesWritten - 1, bitsWritten, data, count, shift, room, start, o, done);
      if closes {
        bytesWritten := bytesWritten + 1;
        bitsWritten := 0;
      } else {
        bitsWritten := bitsWritten + count;
      }
    }

    /** The three-branch loop of writeBits, entered with the buffer resized. It moves `span` bits,
        which is more than asked for when the first branch closes a byte with room to spare. */
    method WriteAcross(data: int32, bitsToWrite: nat, offset: nat, ghost start: nat, ghost span: nat)
      requires 1 <= bytesWritten && bitsWritten <= 7 && start == 8 * (bytesWritten - 1) + bitsWritten
      requires span == if 0 < bitsToWrite < 8 - bitsWritten < 8 then 8 - bitsWritten else bitsToWrite
      requires start + span <= 8 * |bytes|
      modifies this`bytes, this`bytesWritten, this`bitsWritten
      ensures bytes == PutBits(old(bytes), start, data, offset, span)
      ensures bytesWritten >= old(bytesWritten)
      ensures bitsWritten <= 7 && start + span == 8 * (bytesWritten - 1) + bitsWritten
    {
      var bitsAvailable: int := 8 - bitsWritten;
      ghost var room := bytes;
      ghost var moved: nat := 0;
      var bitsLeft: int := bitsToWrite;
      while bitsLeft > 0
        invariant old(bytesWritten) <= bytesWritten && bitsWritten <= 7
        invariant start + moved == 8 * (bytesWritten - 1) + bitsWritten
        invariant moved + bitsLeft == bitsToWrite
                  && (if bitsLeft > 0 && moved > 0 then span == bitsToWrite else bitsLeft > 0 || moved == span)
        invariant bitsLeft > 0 ==>
                    bitsAvailable == 8 - bitsWritten && bitsWritten == if moved > 0 then 0 else old(bitsWritten)
        invariant moved <= span && bytes == PutBits(room, start, data, offset, moved)
      {
        if bitsAvailable < 8 {
          moved := MoveWriter(data, bitsAvailable, offset + 0, true, room, start, offset, moved);
          bitsLeft := bitsLeft - bitsAvailable;
          bitsAvailable := 8;
        } else if bitsLeft / 8 >= 1 {
          moved := MoveWriter(data, 8, offset + (bitsToWrite - bitsLeft), true, room, start, offset, moved);
          bitsLeft := bitsLeft - 8;
        } else {
          ShortTail(bitsLeft);
          moved := MoveWriter(data, bitsLeft % 8, offset + (bitsToWrite - bitsLeft), false, room, start, offset, moved);
          bitsLeft := 0;
        }
      }
    }

    method Reserve(size: nat)
      modifies this`bytes
      ensures bytes == Grown(old(bytes), size)
    {
      if size > |bytes| {
        bytes := Grown(bytes, size);
      }
    }

    method WriteBits(data: int32, bitsToWrite: nat, offset: nat) returns (ok: bool)
      requires Valid() && ShiftsDefined(State().writer, bitsToWrite, offset)
      modifies this
      ensures Valid() && State() == PacketStream.WriteBits(old(State()), data, bitsToWrite, offset)
      ensures ok == BitsFit(bitsToWrite, offset)
    {
      ghost var s := State();
      if bitsWritten >= 8 {
        bytesWritten := bytesWritten + bitsWritten / 8;
        bitsWritten := bitsWritten % 8;
      }
      if 32 < bitsToWrite + offset {
        return false;
      }
      assert Cursor(bytesWritten, bitsWritten) == Opened(s.writer);
      var bitsAvailable := 8 - bitsWritten;
      var bitsNeeded := bitsToWrite - bitsAvailable;
      var bytesNeeded := CeilDiv8(bitsNeeded);
      assert bytesWritten + bytesNeeded == BytesNeeded(s.writer, bitsToWrite);
      Reserve(bytesWritten + bytesNeeded);
      ghost var start := Opened(s.writer).Position();
      ghost var span := Span(s.writer, bitsToWrite);
      assert start + span <= 8 * |bytes|;
      WriteAcross(data, bitsToWrite, offset, start, span);
      Wrote(s, data, bitsToWrite, offset, bytes, Cursor(bytesWritten, bitsWritten));
      return true;
    }

    lemma Wrote(s: Stream, data: int32, n: nat, o: nat, after: seq<byte>, writer: Cursor)
      requires s.Valid() && BitsFit(n, o) && ShiftsDefined(s.writer, n, o) && writer.bytes >= 1 && writer.bits <= 7
      requires writer.Position() == Opened(s.writer).Position() + Span(s.writer, n)
      requires after == PutBits(Grown(s.bytes, BytesNeeded(s.writer, n)), Opened(s.writer).Position(), data, o,
               Span(s.writer, n))
      ensures PacketStream.WriteBits(s, data, n, o) == s.(bytes := after, writer := writer)
    {
      AtPositionOf(writer);
    }

    /** One branch of the loop of readBits */
    method MoveReader(data: int, count: nat, shift: nat, closes: bool, ghost start: nat, ghost o: nat, ghost done: nat)
        returns (word: int, ghost moved: nat)
      requires 1 <= bytesRead <= |bytes| && bitsRead + count <= 8 && shift == o + done
      requires if closes then bitsRead + count == 8 else bitsRead + count < 8
      requires start + done == 8 * (bytesRead - 1) + bitsRead && start + done + count <= 8 * |bytes|
      requires data == GetBits(bytes, start, done, o)
      modifies this`bytesRead, this`bitsRead
      ensures moved == done + count && word == GetBits(bytes, start, moved, o)
      ensures bytesRead >= old(bytesRead) && bitsRead <= 7 && (closes ==> bitsRead == 0)
      ensures start + moved == 8 * (bytesRead - 1) + bitsRead
    {
      word, moved := ReadRun(bytes, bytesRead - 1, bitsRead, data, count, shift, start, o, done);
      if closes {
        bytesRead := bytesRead + 1;
        bitsRead := 0;
      } else {
        bitsRead := bitsRead + count;
      }
    }

    /** The three-branch loop of readBits */
    method ReadAcross(bitsToRead: nat, offset: nat, ghost start: nat, ghost span: nat) returns (data: int)
      requires 1 <= bytesRead && bitsRead <= 7 && start == 8 * (bytesRead - 1) + bitsRead
      requires span == if 0 < bitsToRead < 8 - bitsRead < 8 then 8 - bitsRead else bitsToRead
      requires start + span <= 8 * |bytes|
      modifies this`bytesRead, this`bitsRead
      ensures data == GetBits(bytes, start, span, offset)
      ensures bytesRead >= old(bytesRead)
      ensures bitsRead <= 7 && start + span == 8 * (bytesRead - 1) + bitsRead
    {
      var bitsAvailable: int := 8 - bitsRead;
      ghost var moved: nat := 0;
      data := 0;
      var bitsLeft: int := bitsToRead;
      while bitsLeft > 0
        invariant old(bytesRead) <= bytesRead && bitsRead <= 7
        invariant start + moved == 8 * (bytesRead - 1) + bitsRead
        invariant moved + bitsLeft == bitsToRead
                  && (if bitsLeft > 0 && moved > 0 then span == bitsToRead else bitsLeft > 0 || moved == span)
        invariant bitsLeft > 0 ==> bitsAvailable == 8 - bitsRead && bitsRead == if moved > 0 then 0 else old(bitsRead)
        invariant moved <= span && data == GetBits(bytes, start, moved, offset)
      {
        if bitsAvailable < 8 {
          data, moved := MoveReader(data, bitsAvailable, offset + 0, true, start, offset, moved);
          bitsLeft := bitsLeft - bitsAvailable;
          bitsAvailable := 8;
        } else if bitsLeft / 8 >= 1 {
          data, moved := MoveReader(data, 8, offset + (bitsToRead - bitsLeft), true, start, offset, moved);
          bitsLeft := bitsLeft - 8;
        } else {
          ShortTail(bitsLeft);
          data, moved := MoveReader(data, bitsLeft % 8, offset + (bitsToRead - bitsLeft), false, start, offset, moved);
          bitsLeft := 0;
        }
      }
    }

    /** A caller must not read past the end where the bounds check fails to stop it; see GuardGap. */
    method ReadBits(bitsToRead: nat, offset: nat) returns (ok: bool, value: int32)
      requires Valid() && ShiftsDefined(State().reader, bitsToRead, offset)
      requires !PacketStream.ReadBits(State(), bitsToRead, offset).PastEnd?
      modifies this
      ensures Valid() && State() == PacketStream.ReadBits(old(State()), bitsToRead, offset).after
      ensures ok == PacketStream.ReadBits(old(State()), bitsToRead, offset).Got?
      ensures ok ==> value == PacketStream.ReadBits(old(State()), bitsToRead, offset).value
    {
      ghost var s := State();
      if bitsRead >= 8 {
        bytesRead := bytesRead + bitsRead / 8;
        bitsRead := bitsRead % 8;
      }
      assert Cursor(bytesRead, bitsRead) == Opened(s.reader);
      var bitsAvailable := 8 - bitsRead;
      var bitsNeeded := bitsToRead - bitsAvailable;
      var bytesNeeded := CeilDiv8(bitsNeeded);
      if 32 < bitsToRead + offset {
        return false, 0;
      }
      assert bytesRead + bytesNeeded == BytesNeeded(s.reader, bitsToRead);
      if bytesRead + bytesNeeded - 1 > |bytes| {
        return false, 0;
      }
      ghost var start := Opened(s.reader).Position();
      ghost var span := Span(s.reader, bitsToRead);
      var data := ReadAcross(bitsToRead, offset, start, span);
      AtPositionOf(Cursor(bytesRead, bitsRead));
      GetBitsWord(bytes, start, span, offset);
      return true, ToInt32(data);
    }

    method WriteCompressedFloat(x: real, range: Range) returns (ok: bool)
      requires Valid() && range.Valid()
      modifies this
      ensures 0 <= range.Code(x) < 0x8000_0000 && range.Width() <= 31
      ensures ok && Valid() && State() == PacketStream.WriteBits(old(State()), range.Code(x), range.Width(), 0)
    {
      CodeRange(range, x);
      WidthBound(range);
      ok := WriteBits(range.Code(x), range.Width(), 0);
    }

    method ReadCompressedFloat(range: Range) returns (ok: bool, x: real)
      requires Valid() && range.Valid() && range.Width() <= 31
      requires !PacketStream.ReadBits(State(), range.Width(), 0).PastEnd?
      modifies this
      ensures var read := PacketStream.ReadBits(old(State()), range.Width(), 0);
              Valid() && State() == read.after && ok == read.Got? && (ok ==> x == range.Decode(read.value))
    {
      var code;
      ok, code := ReadBits(range.Width(), 0);
      x := range.Decode(code);
    }

    method Serialize(data: seq<byte>)
      requires Valid()
      modifies this
      ensures Valid() && State() == PacketStream.Serialize(old(State()), data)
    {
      if bytesWritten + |data| > |bytes| {
        bytes := Grown(bytes, (bytesWritten + |data|) * 2);
      }
      bytes := bytes[..bytesWritten] + data + bytes[bytesWritten + |data|..];
      bytesWritten := bytesWritten + |data|;
      bitsWritten := 8;
    }

    method Deserialize(size: nat, isNull: bool) returns (ok: bool, data: seq<byte>)
      requires Valid()
      modifies this
      ensures Valid() && State() == PacketStream.Deserialize(old(State()), size, isNull).after
      ensures ok == PacketStream.Deserialize(old(State()), size, isNull).Got?
      ensures ok ==> data == PacketStream.Deserialize(old(State()), size, isNull).value
    {
      if bytesRead + size > |bytes| {
        return false, [];
      }
      if isNull {
        return false, [];
      }
      data := bytes[bytesRead..bytesRead + size];
      bytesRead := bytesRead + size;
      bitsRead := 8;
      ok := true;
    }

    method WriteText(data: seq<byte>)
      requires Valid() && IsSize(|data|)
      modifies this
      ensures Valid() && State() == PacketStream.WriteText(old(State()), data)
    {
      Serialize(EncodeLE(|data|, SIZE_BYTES));
      Serialize(data);
    }

    method ReadText() returns (ok: bool, data: seq<byte>)
      requires Valid()
      modifies this
      ensures Valid() && State() == PacketStream.ReadText(old(State())).after
      ensures ok == PacketStream.ReadText(old(State())).Got?
      ensures ok ==> data == PacketStream.ReadText(old(State())).value
    {
      var length;
      ok, length := Deserialize(SIZE_BYTES, false);
      if !ok {
        return false, [];
      }
      ok, data := Deserialize(DecodeLE(length), false);
    }

    method WriteVector(elementSize: nat, data: seq<byte>) returns (ok: bool)
      requires Valid() && elementSize > 0 && |data| % elementSize == 0 && IsSize(|data| / elementSize)
      modifies this
      ensures Valid() && State() == PacketStream.WriteVector(old(State()), elementSize, data).after
      ensures ok == PacketStream.WriteVector(old(State()), elementSize, data).Done?
    {
      Serialize(EncodeLE(|data| / elementSize, SIZE_BYTES));
      if data == [] {
        return false;
      }
      Serialize(data);
      return true;
    }

    method ReadVector(elementSize: nat) returns (ok: bool, data: seq<byte>)
      requires Valid() && elementSize > 0
      modifies this
      ensures Valid() && State() == PacketStream.ReadVector(old(State()), elementSize).after
      ensures ok == PacketStream.ReadVector(old(State()), elementSize).Got?
      ensures ok ==> data == PacketStream.ReadVector(old(State()), elementSize).value
    {
      var size;
      ok, size := Deserialize(SIZE_BYTES, false);
      if !ok {
        return false, [];
      }
      ok, data := Deserialize(elementSize * DecodeLE(size), DecodeLE(size) == 0);
    }

    method ResetReadPosition()
      requires Valid()
      modifies this
      ensures Valid() && State() == Rewound(old(State()))
    {
      bytesRead := HEADER_SIZE;
      bitsRead := 8;
    }

    /** The header that clear() copies lands beyond the emptied vector, so it is not part of it. */
    method Clear()
      requires Valid()
      modifies this
      ensures Valid() && State() == Cleared(old(State()))
    {
      bytes := [];
      bytesRead := HEADER_SIZE;
      bitsRead := 8;
      bytesWritten := HEADER_SIZE;
      bitsWritten := 8;
    }

    method SetHeader(h: PacketHeader)
      requires Valid() && h.Valid()
      modifies this
      ensures Valid() && State() == WithHeader(old(State()), h)
    {
      header := h;
      bytes := StampHeader(bytes, h);
    }
  }
}
