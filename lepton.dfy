/**
 * The original `Lepton` class of lepton/Lepton.py: `capture(a)` synchronises one 60-line
 * VoSPI segment directly into the caller's array (or a fresh (60, 82, 1) one), reading the
 * discard test from `a[0, 0]`, and returns the array together with its sum as the frame id.
 * The raw lines are returned as received: their ID and CRC words stay in the array and are
 * counted by the id.
 */
module LegacyLepton {
  import opened VoSpi
  import opened Bus
  import opened Sync
  import opened NdArrays

  /** `a[0, 0]` is one element, so the loop's test can read it: the array has rank 2, or a
      higher rank whose trailing axes hold a single element. */
  predicate ProbeIsScalar(shape: seq<nat>) {
    |shape| >= 2 && Prod(shape[2..]) == 1
  }

  /** `a[0, 0]` of an array of rank 2 or more is the block over the trailing axes: the array's
      elements fall into shape[0] * shape[1] such blocks of Prod(shape[2..]) elements each. */
  lemma {:induction false} ProbeBlock(shape: seq<nat>)
    requires |shape| >= 2
    ensures Prod(shape) == shape[0] * shape[1] * Prod(shape[2..])
  {
    assert shape == [shape[0], shape[1]] + shape[2..];
    ProdAppend([shape[0], shape[1]], shape[2..]);
    ProdOfTwo(shape[0], shape[1]);
  }

  /** In a non-empty array of rank 2 or more, `a[0, 0]` is one element exactly when the first
      two axes account for all of the array's elements. */
  lemma ProbeScalarBySize(shape: seq<nat>)
    requires |shape| >= 2 && Prod(shape) > 0
    ensures ProbeIsScalar(shape) <==> Prod(shape) == shape[0] * shape[1]
  {
    ProbeBlock(shape);
    var m, p := shape[0] * shape[1], Prod(shape[2..]);
    assert m > 0;
    if p >= 2 {
      MulLe(2, p, m);
    }
  }

  /** The exception numpy raises on the loop's first test when `a[0, 0]` is not one element:
      IndexError when the array has fewer than two axes, and otherwise, for a non-empty array,
      the truth-value error of an array whose elements are not all on its first two axes. */
  function ProbeFailure(shape: seq<nat>): (e: Error)
    requires !ProbeIsScalar(shape)
    ensures e == TooManyIndices <==> |shape| < 2
    ensures Prod(shape) > 0 ==>
      (e == AmbiguousTruth <==> 2 <= |shape| && Prod(shape) != shape[0] * shape[1])
  {
    if |shape| < 2 then TooManyIndices
    else if Prod(shape) > 0 then ProbeScalarBySize(shape); AmbiguousTruth
    else AmbiguousTruth
  }

  /** The ID and CRC words of the lines, added up. */
  function HeaderSum(lines: seq<Packet>): nat
  {
    if lines == [] then 0
    else HeaderSum(lines[..|lines| - 1]) + lines[|lines| - 1][0] as nat + lines[|lines| - 1][1] as nat
  }

  /** One line's sum is its two header words plus its payload. */
  lemma LineSum(p: Packet)
    ensures Sum(p) == p[0] as nat + p[1] as nat + Sum(p[2..])
  {
    assert p == [p[0], p[1]] + p[2..];
    SumAppend([p[0], p[1]], p[2..]);
    assert [p[0], p[1]][..1] == [p[0]] && [p[0]][..0] == [];
    assert Sum([p[0]]) == p[0] as nat;
    assert Sum([p[0], p[1]]) == p[0] as nat + p[1] as nat;
  }

  /** The frame id of the returned raw lines is the sum of their pixels, which the other
      drivers return as the id, plus every line's ID and CRC words. */
  lemma {:induction false} IdCountsHeaders(lines: seq<Packet>)
    ensures Sum(Flatten(lines)) == Sum(StripHeaders(Flatten(lines))) + HeaderSum(lines)
    decreases |lines|
  {
    if lines == [] {
      assert StripHeaders(Flatten(lines)) == [];
    } else {
      var a, p := lines[..|lines| - 1], lines[|lines| - 1];
      IdCountsHeaders(a);
      assert Flatten(lines) == Flatten(a) + p;
      StripAppend(Flatten(a), p);
      SumAppend(Flatten(a), p);
      SumAppend(StripHeaders(Flatten(a)), p[2..]);
      LineSum(p);
    }
  }

  /** A frame whose pixels are all zero still has a non-zero id when a header word is not. */
  lemma IdOfDarkFrame(lines: seq<Packet>)
    requires forall i :: 0 <= i < |StripHeaders(Flatten(lines))| ==> StripHeaders(Flatten(lines))[i] == 0
    ensures Sum(Flatten(lines)) == HeaderSum(lines)
  {
    IdCountsHeaders(lines);
    SumZero(StripHeaders(Flatten(lines)));
  }

  class Lepton {
    /** The opened SPI device. */
    const bus: SpiBus

    constructor (bus: SpiBus)
      ensures this.bus == bus
    {
      this.bus := bus;
    }

    /** The loop of `capture` on an array of at least 9840 bytes, then the sum. */
    method Acquire(buf: NdArray) returns (r: Result<Frame>)
      requires buf.Valid() && buf.NBytes() >= ROWS * VOSPI_FRAME_SIZE_BYTES
      modifies bus, buf.data
      ensures buf.itemSize != 2 ==>
        r == Err(UnsupportedLayout) && bus.packets == old(bus.packets) && bus.log == old(bus.log)
        && buf.data[..] == old(buf.data[..])
      ensures buf.itemSize == 2 && !ProbeIsScalar(buf.shape) ==>
        && (old(bus.packets) == [] ==> r == Err(StreamExhausted) && bus.packets == [])
        && (old(bus.packets) != [] ==>
              && r == Err(ProbeFailure(buf.shape))
              && bus.packets == old(bus.packets)[1..] && bus.log == old(bus.log) + [Xfer(LineTransfer(0))]
              && buf.data[..] == Splice(old(buf.data[..]), 0, old(bus.packets)[0]))
      ensures buf.itemSize == 2 && ProbeIsScalar(buf.shape) ==>
        && (r.Ok? <==> Fills(old(bus.packets)))
        && (!r.Ok? ==> r == Err(StreamExhausted) && bus.packets == [])
      ensures r.Ok? ==>
        var ps, n := old(bus.packets), LeadingDiscards(old(bus.packets));
        && Fills(ps)
        && bus.packets == ps[n + ROWS..]
        && bus.log == old(bus.log) + SyncLog(LineTransfer(0), 0, n, n + ROWS)
        && r.value.buffer == buf && buf.Valid()
        && buf.data[..] == Flatten(SegmentLines(ps)) + old(buf.data[..])[ROWS * VOSPI_FRAME_SIZE..]
        && r.value.id == Sum(buf.data[..])
    {
      if buf.itemSize != 2 {
        r := Err(UnsupportedLayout);
      } else if !ProbeIsScalar(buf.shape) {
        var ok := bus.Exchange(LineTransfer(0), buf.data);
        r := if ok then Err(ProbeFailure(buf.shape)) else Err(StreamExhausted);
      } else {
        var ok := SyncAndFill(bus, buf.data, 0, LineTransfer(0));
        if ok {
          r := Ok(Frame(buf, buf.Total()));
        } else {
          r := Err(StreamExhausted);
        }
      }
    }

    /** `capture(a)`. A missing array is allocated as (60, 82, 1) uint16 holding `uninit`, the
        memory numpy leaves uninitialised; a supplied one must hold at least 9840 bytes. The
        loop's transfers write the segment over the first 4920 words of the array's memory,
        whatever its shape. */
    method Capture(a: NdArray?, uninit: seq<Word>) returns (r: Result<Frame>)
      requires |uninit| == ROWS * VOSPI_FRAME_SIZE
      requires a != null ==> a.Valid()
      modifies bus, if a == null then {} else {a.data}
      ensures a != null && a.NBytes() < ROWS * VOSPI_FRAME_SIZE_BYTES ==>
        r == Err(BufferTooSmall) && bus.packets == old(bus.packets) && bus.log == old(bus.log)
        && a.data[..] == old(a.data[..])
      ensures a != null && a.NBytes() >= ROWS * VOSPI_FRAME_SIZE_BYTES && a.itemSize != 2 ==>
        r == Err(UnsupportedLayout) && bus.packets == old(bus.packets) && bus.log == old(bus.log)
        && a.data[..] == old(a.data[..])
      ensures a != null && a.NBytes() >= ROWS * VOSPI_FRAME_SIZE_BYTES && a.itemSize == 2
              && !ProbeIsScalar(a.shape) ==>
        && (old(bus.packets) == [] ==> r == Err(StreamExhausted) && bus.packets == [])
        && (old(bus.packets) != [] ==>
              && r == Err(ProbeFailure(a.shape))
              && bus.packets == old(bus.packets)[1..] && bus.log == old(bus.log) + [Xfer(LineTransfer(0))]
              && a.data[..] == Splice(old(a.data[..]), 0, old(bus.packets)[0]))
      ensures a == null || (a.NBytes() >= ROWS * VOSPI_FRAME_SIZE_BYTES && a.itemSize == 2 && ProbeIsScalar(a.shape)) ==>
        && (r.Ok? <==> Fills(old(bus.packets)))
        && (!r.Ok? ==> r == Err(StreamExhausted) && bus.packets == [])
      ensures r.Ok? ==>
        var ps, n, out := old(bus.packets), LeadingDiscards(old(bus.packets)), r.value.buffer;
        && Fills(ps)
        && bus.packets == ps[n + ROWS..]
        && bus.log == old(bus.log) + SyncLog(LineTransfer(0), 0, n, n + ROWS)
        && out.Valid()
        && r.value.id == Sum(out.data[..])
        && (a == null ==>
              fresh(out) && out.shape == [ROWS, VOSPI_FRAME_SIZE, 1] && out.itemSize == 2
              && out.data[..] == Flatten(SegmentLines(ps)))
        && (a != null ==>
              out == a
              && out.data[..] == Flatten(SegmentLines(ps)) + old(a.data[..])[ROWS * VOSPI_FRAME_SIZE..])
    {
      if a == null {
        ProdOfThree(ROWS, VOSPI_FRAME_SIZE, 1);
        var buf := new NdArray([ROWS, VOSPI_FRAME_SIZE, 1], 2, uninit);
        assert ProbeIsScalar(buf.shape) by {
          assert buf.shape[2..] == [1] && [1][1..] == [];
        }
        r := Acquire(buf);
        if r.Ok? {
          assert uninit[ROWS * VOSPI_FRAME_SIZE..] == [];
          assert Flatten(SegmentLines(old(bus.packets))) + [] == Flatten(SegmentLines(old(bus.packets)));
        }
      } else if a.NBytes() < ROWS * VOSPI_FRAME_SIZE_BYTES {
        r := Err(BufferTooSmall);
      } else {
        r := Acquire(a);
      }
    }
  }
}
