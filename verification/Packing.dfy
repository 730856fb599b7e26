/** How tightly bit fields pack: what a run of them really uses up. */
module Packing {
  import opened Bits
  import opened PacketStream
  import opened Codec

  /** The cursor after fields of these widths, one writeBits each */
  function PastAll(c: Cursor, widths: seq<nat>): (r: Cursor)
    requires c.Valid()
    ensures r.Valid()
    decreases |widths|
  {
    if widths == [] then c else PastAll(PastBits(c, widths[0]), widths[1..])
  }

  function Total(widths: seq<nat>): nat {
    if widths == [] then 0 else widths[0] + Total(widths[1..])
  }

  /** The field is strictly narrower than what is left of a partly used byte, and takes it all. */
  predicate Overruns(c: Cursor, width: nat)
    requires c.Valid()
  {
    0 < Opened(c).bits && 0 < width < 8 - Opened(c).bits
  }

  /** Some field of the run overruns where it starts. */
  predicate SomeOverruns(c: Cursor, widths: seq<nat>)
    requires c.Valid()
    decreases |widths|
  {
    widths != [] && (Overruns(c, widths[0]) || SomeOverruns(PastBits(c, widths[0]), widths[1..]))
  }

  predicate AllPositive(widths: seq<nat>) {
    forall i :: 0 <= i < |widths| ==> widths[i] > 0
  }

  function Partly(c: Cursor): nat {
    if Opened(c).bits == 0 then 0 else 1
  }

  lemma StepMoves(c: Cursor, width: nat)
    requires c.Valid() && width > 0
    ensures PastBits(c, width).Position() == c.Position() + Span(c, width)
    ensures Overruns(c, width) ==> width < Span(c, width) <= width + 6 && Partly(PastBits(c, width)) < Partly(c)
    ensures !Overruns(c, width) ==> Span(c, width) == width
  {
    AtPositionAt(Opened(c).Position() + Span(c, width));
  }

  /** Fields a run can waste bits on, counted from a cursor in a partly used byte or not */
  function Wasteful(count: nat, partly: nat): nat {
    (count + partly) / 2
  }

  lemma WastefulStep(count: nat, partly: nat, after: nat)
    requires count > 0 && partly <= 1 && after <= 1
    ensures Wasteful(count - 1, after) <= Wasteful(count, partly)
    ensures after < partly ==> Wasteful(count - 1, after) + 1 <= Wasteful(count, partly)
  {
  }

  /** k fields of total width n use at least n bits, and exactly n when none overruns. An overrun wastes
      up to six bits and ends on a byte boundary, where the next field cannot overrun, so at most every
      other field wastes any. */
  lemma {:induction false} PackingBound(c: Cursor, widths: seq<nat>)
    requires c.Valid() && AllPositive(widths)
    ensures var used := PastAll(c, widths).Position() - c.Position();
            && Total(widths) <= used <= Total(widths) + 6 * Wasteful(|widths|, Partly(c))
            && (used == Total(widths) <==> !SomeOverruns(c, widths))
    decreases |widths|
  {
    if widths == [] {
    } else {
      var next := PastBits(c, widths[0]);
      StepMoves(c, widths[0]);
      WastefulStep(|widths|, Partly(c), Partly(next));
      PackingBound(next, widths[1..]);
    }
  }

  function Ones(k: nat): (widths: seq<nat>)
    ensures |widths| == k && AllPositive(widths)
  {
    seq(k, _ => 1)
  }

  /** The bound is reached: single bits written one by one from a byte boundary take a byte a pair. */
  lemma {:induction false} PackingBoundTight(c: Cursor, pairs: nat)
    requires c.Valid() && Opened(c).bits == 0
    ensures PastAll(c, Ones(2 * pairs)).Position() - c.Position() == 2 * pairs + 6 * pairs
    decreases pairs
  {
    if pairs == 0 {
    } else {
      var twice := PairOfOnes(c);
      PackingBoundTight(twice, pairs - 1);
      TwoOnes(c, 2 * pairs);
    }
  }

  lemma PairOfOnes(c: Cursor) returns (twice: Cursor)
    requires c.Valid() && Opened(c).bits == 0
    ensures twice == PastBits(PastBits(c, 1), 1)
    ensures twice.Position() == c.Position() + 8 && Opened(twice).bits == 0
  {
    var b := Opened(c).bytes;
    AtPositionOf(Cursor(b, 1));
    assert PastBits(c, 1) == Cursor(b, 1);
    AtPositionOf(Cursor(b + 1, 0));
    assert PastBits(Cursor(b, 1), 1) == Cursor(b + 1, 0);
    twice := PastBits(PastBits(c, 1), 1);
  }

  lemma TwoOnes(c: Cursor, k: nat)
    requires c.Valid() && k >= 2
    ensures PastAll(c, Ones(k)) == PastAll(PastBits(PastBits(c, 1), 1), Ones(k - 2))
  {
    assert Ones(k)[1..] == Ones(k - 1);
    assert Ones(k - 1)[1..] == Ones(k - 2);
  }

  function BitFields(values: seq<int32>, widths: seq<nat>): (fs: seq<Field>)
    requires |values| == |widths| && forall i :: 0 <= i < |widths| ==> widths[i] <= 32
    ensures |fs| == |widths| && AllWellTyped(fs)
    ensures forall i :: 0 <= i < |widths| ==> fs[i] == Field(BitField(widths[i]), IntValue(values[i]))
  {
    seq(|widths|, i requires 0 <= i < |widths| => Field(BitField(widths[i]), IntValue(values[i])))
  }

  /** The bound speaks about packets: writing the fields leaves the write cursor at PastAll. */
  lemma {:induction false} WriteAllPacks(s: Stream, values: seq<int32>, widths: seq<nat>)
    requires s.Valid() && |values| == |widths| && forall i :: 0 <= i < |widths| ==> widths[i] <= 32
    ensures WriteAll(s, BitFields(values, widths)).Done?
    ensures WriteAll(s, BitFields(values, widths)).after.writer == PastAll(s.writer, widths)
    decreases |widths|
  {
    if widths == [] {
    } else {
      var fs := BitFields(values, widths);
      assert fs[1..] == BitFields(values[1..], widths[1..]);
      WriteAllPacks(WriteField(s, fs[0]).after, values[1..], widths[1..]);
    }
  }
}
