/** Lists of fields against the packet class, and how such lists compose. */
module Fields {
  import opened PacketStream
  import opened PacketClass
  import opened Codec
  import opened Quantise

  method PutField(p: Packet, f: Field) returns (ok: bool)
    requires p.Valid() && WellTyped(f)
    modifies p
    ensures p.Valid() && WriteField(old(p.State()), f) == if ok then Done(p.State()) else Failed(p.State())
  {
    match f.shape
    case BitField(width) => ok := p.WriteBits(f.value.n, width, 0);
    case Raw(_) => p.Serialize(f.value.data); ok := true;
    case Text => p.WriteText(f.value.data); ok := true;
    case Vector(elementSize) => ok := p.WriteVector(elementSize, f.value.data);
    case Quantised(range) => ok := p.WriteCompressedFloat(f.value.x, range);
  }

  /** A chain of << operators */
  method PutFields(p: Packet, fs: seq<Field>) returns (ok: bool)
    requires p.Valid() && AllWellTyped(fs)
    modifies p
    ensures p.Valid() && WriteAll(old(p.State()), fs) == if ok then Done(p.State()) else Failed(p.State())
  {
    ghost var s := p.State();
    for i := 0 to |fs|
      invariant p.Valid() && WriteAll(s, fs[..i]) == Done(p.State())
    {
      SplitAround(fs, i);
      OneMoreField(s, fs[..i], fs[i], fs[i + 1..]);
      ok := PutField(p, fs[i]);
      if !ok {
        return false;
      }
    }
    assert fs[..|fs|] == fs;
    return true;
  }

  method TakeField(p: Packet, shape: Shape) returns (ok: bool, value: Value)
    requires p.Valid() && Readable(shape) && !ReadField(p.State(), shape).PastEnd?
    modifies p
    ensures var read := ReadField(old(p.State()), shape);
            p.Valid() && p.State() == read.after && ok == read.Got? && (ok ==> value == read.value)
  {
    var n, data, x := 0, [], 0.0;
    match shape {
      case BitField(width) => ok, n := p.ReadBits(width, 0); value := IntValue(n);
      case Raw(size) => ok, data := p.Deserialize(size, false); value := ByteValue(data);
      case Text => ok, data := p.ReadText(); value := ByteValue(data);
      case Vector(elementSize) => ok, data := p.ReadVector(elementSize); value := ByteValue(data);
      case Quantised(range) =>
        WidthBound(range);
        ok, x := p.ReadCompressedFloat(range);
        value := RealValue(x);
    }
  }

  /** A chain of >> operators that the packet can satisfy */
  method TakeFields(p: Packet, shapes: seq<Shape>) returns (values: seq<Value>)
    requires p.Valid() && (forall i :: 0 <= i < |shapes| ==> Readable(shapes[i])) && ReadAll(p.State(), shapes).Got?
    modifies p
    ensures p.Valid() && Got(values, p.State()) == ReadAll(old(p.State()), shapes)
  {
    ghost var all := ReadAll(p.State(), shapes);
    values := [];
    RestNone(all);
    assert shapes[0..] == shapes;
    for i := 0 to |shapes|
      invariant p.Valid() && Rest(ReadAll(p.State(), shapes[i..]), values) == all
    {
      ReadAllCons(p.State(), shapes, i);
      var ok, value := TakeField(p, shapes[i]);
      RestStep(ReadAll(p.State(), shapes[i + 1..]), value, values);
      values := values + [value];
    }
    assert values + [] == values;
  }

  lemma RestNone(r: Read<seq<Value>>)
    ensures Rest(r, []) == r
  {
    if r.Got? {
      assert [] + r.value == r.value;
    }
  }

  lemma ReadAllCons(s: Stream, shapes: seq<Shape>, i: nat)
    requires s.Valid() && i < |shapes| && forall j :: 0 <= j < |shapes| ==> Readable(shapes[j])
    requires ReadAll(s, shapes[i..]).Got?
    ensures var first := ReadField(s, shapes[i]);
            first.Got? && ReadAll(s, shapes[i..]) == Rest(ReadAll(first.after, shapes[i + 1..]), [first.value])
  {
    assert shapes[i..][1..] == shapes[i + 1..];
  }

  /** Whatever list can be written to one packet object is read back from it, each value as it was received where it
      was written, and reader and writer end level; a list that holds an empty vector throws. */
  method RoundTripInObject(p: Packet, fs: seq<Field>) returns (ok: bool, values: seq<Value>)
    requires p.Valid() && p.State().writer == START && (fs != [] || p.State().Backed()) && AllWellTyped(fs)
    modifies p
    ensures p.Valid() && (ok <==> NoEmptyVector(fs))
    ensures ok ==> values == AllReceived(old(p.State()), fs) && p.State().reader == p.State().writer
    ensures ok ==> (values == AllDelivered(fs) <==> AllFit(old(p.State()), fs))
  {
    ghost var s := p.State();
    DoneExactly(s, fs);
    DeliveredExactly(s, fs);
    ok := PutFields(p, fs);
    if !ok {
      return false, [];
    }
    ReceivedInPlace(s, fs);
    p.ResetReadPosition();
    values := TakeFields(p, Shapes(fs));
  }

  /** What a read amounts to when these values have been read before it */
  function Rest(r: Read<seq<Value>>, before: seq<Value>): Read<seq<Value>> {
    match r
    case Got(values, after) => Got(before + values, after)
    case Threw(after) => Threw(after)
    case PastEnd(after) => PastEnd(after)
  }

  lemma RestStep(r: Read<seq<Value>>, value: Value, before: seq<Value>)
    ensures Rest(Rest(r, [value]), before) == Rest(r, before + [value])
  {
    if r.Got? {
      assert before + ([value] + r.value) == before + [value] + r.value;
    }
  }

  // ----- lists of fields compose

  /** Carry on writing unless a write has thrown. */
  function Then(w: Write, rest: seq<Field>): Write
    requires w.after.Valid() && AllWellTyped(rest)
  {
    match w
    case Failed(after) => Failed(after)
    case Done(after) => WriteAll(after, rest)
  }

  lemma {:induction false} WriteAllSplits(s: Stream, fs: seq<Field>, gs: seq<Field>)
    requires s.Valid() && AllWellTyped(fs) && AllWellTyped(gs)
    ensures WriteAll(s, fs + gs) == Then(WriteAll(s, fs), gs)
    decreases |fs|
  {
    if fs == [] {
      assert fs + gs == gs;
    } else {
      assert (fs + gs)[1..] == fs[1..] + gs;
      WriteAllSplits(WriteField(s, fs[0]).after, fs[1..], gs);
    }
  }

  lemma WriteAllSnoc(s: Stream, fs: seq<Field>, f: Field)
    requires s.Valid() && AllWellTyped(fs) && WellTyped(f)
    ensures WriteAll(s, fs + [f]) == match WriteAll(s, fs)
                                     case Failed(after) => Failed(after)
                                     case Done(after) => WriteField(after, f)
  {
    WriteAllSplits(s, fs, [f]);
    var w := WriteAll(s, fs);
    if w.Done? {
      OneField(w.after, f);
    }
  }

  /** A write that throws ends the chain. */
  lemma OneMoreField(s: Stream, done: seq<Field>, f: Field, rest: seq<Field>)
    requires s.Valid() && AllWellTyped(done) && WellTyped(f) && AllWellTyped(rest) && WriteAll(s, done).Done?
    ensures var w := WriteField(WriteAll(s, done).after, f);
            WriteAll(s, done + [f]) == w && (w.Failed? ==> WriteAll(s, (done + [f]) + rest) == w)
  {
    WriteAllSnoc(s, done, f);
    ThrowEnds(s, done + [f], rest);
  }

  lemma SplitAround(fs: seq<Field>, i: nat)
    requires i < |fs|
    ensures fs[..i + 1] == fs[..i] + [fs[i]]
    ensures fs == (fs[..i] + [fs[i]]) + fs[i + 1..]
  {
  }

  lemma ThrowEnds(s: Stream, fs: seq<Field>, gs: seq<Field>)
    requires s.Valid() && AllWellTyped(fs) && AllWellTyped(gs)
    ensures WriteAll(s, fs).Failed? ==> WriteAll(s, fs + gs) == WriteAll(s, fs)
  {
    WriteAllSplits(s, fs, gs);
  }

  lemma OneField(s: Stream, f: Field)
    requires s.Valid() && WellTyped(f)
    ensures WriteAll(s, [f]) == WriteField(s, f)
  {
    assert [f][1..] == [];
  }
}
