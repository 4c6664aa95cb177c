/**
 * pylepton's `Lepton` class: one 60-line VoSPI segment is synchronised into the private
 * (60, 82, 1) capture buffer, its payload is copied into the caller's buffer, the caller's
 * buffer is byte-swapped in place and its sum is returned as the frame id.
 *
 * `Capture` is the method as its documentation describes it; the members named `AsWritten`
 * model three places where the code as written departs from that.
 */
module PyLepton {
  import opened VoSpi
  import opened Bus
  import opened Sync
  import opened NdArrays

  /** The size test of `capture` as intended: a supplied buffer must have rank 2 or more, at
      least 60 rows and 80 columns, and items of at least 2 bytes. */
  predicate TooSmall(shape: seq<nat>, itemSize: nat)
  {
    |shape| < 2 || shape[0] < ROWS || shape[1] < COLS || itemSize < 2
  }

  /** The size test as written: once the three shape tests pass it reads `elemsize`, which a
      numpy array does not have, so every supplied buffer raises. */
  function GuardAsWritten(shape: seq<nat>): Error
  {
    if |shape| < 2 || shape[0] < ROWS || shape[1] < COLS then BufferTooSmall else NoSuchAttribute
  }

  /** No supplied buffer gets past the test as written; the documented (60, 80, 1) uint16
      buffer, which the intended test accepts, raises AttributeError. */
  lemma GuardAsWrittenRejects(shape: seq<nat>, itemSize: nat)
    ensures !TooSmall(shape, itemSize) ==> GuardAsWritten(shape) == NoSuchAttribute
    ensures TooSmall(shape, itemSize) && 2 <= itemSize ==> GuardAsWritten(shape) == BufferTooSmall
    ensures !TooSmall([ROWS, COLS, 1], 2) && GuardAsWritten([ROWS, COLS, 1]) == NoSuchAttribute
  {
  }

  /** The shape of `data_buffer[0:60, 0:80]` for a buffer that passed the size test. */
  function BlockShape(shape: seq<nat>): seq<nat>
    requires 2 <= |shape|
  {
    [ROWS, COLS] + shape[2..]
  }

  /** `__capture_buf[:2, :]` has shape (2, 82, 1): it fits no block of rank 4 or less, so the copy
      as written raises ValueError for every buffer of rank 2 to 4. */
  lemma CopyAsWrittenNeverFits(shape: seq<nat>)
    requires 2 <= |shape| <= 4
    ensures !CanBroadcastInto([2, VOSPI_FRAME_SIZE, 1], BlockShape(shape))
  {
    assert [2, VOSPI_FRAME_SIZE, 1] == [2, VOSPI_FRAME_SIZE] + [1];
    assert [2, VOSPI_FRAME_SIZE] == [2] + [VOSPI_FRAME_SIZE];
    if |shape| == 2 {
      assert BlockShape(shape) == [ROWS] + [COLS];
      BroadcastStep([2, VOSPI_FRAME_SIZE], 1, [ROWS], COLS);
      BroadcastStep([2], VOSPI_FRAME_SIZE, [], ROWS);
    } else if |shape| == 3 {
      assert BlockShape(shape) == [ROWS, COLS] + [shape[2]];
      assert [ROWS, COLS] == [ROWS] + [COLS];
      BroadcastStep([2, VOSPI_FRAME_SIZE], 1, [ROWS, COLS], shape[2]);
      BroadcastStep([2], VOSPI_FRAME_SIZE, [ROWS], COLS);
    } else {
      assert BlockShape(shape) == [ROWS, COLS, shape[2]] + [shape[3]];
      assert [ROWS, COLS, shape[2]] == [ROWS, COLS] + [shape[2]];
      assert [ROWS, COLS] == [ROWS] + [COLS];
      BroadcastStep([2, VOSPI_FRAME_SIZE], 1, [ROWS, COLS, shape[2]], shape[3]);
      BroadcastStep([2], VOSPI_FRAME_SIZE, [ROWS, COLS], shape[2]);
      BroadcastStep([], 2, [ROWS], COLS);
    }
  }

  /** `__capture_buf[:, 2:]` has shape (60, 80, 1): it fits the block of a rank-3 buffer,
      whatever its last axis, and not that of a rank-2 or rank-4 buffer. */
  lemma CopyFits(shape: seq<nat>)
    requires 2 <= |shape| <= 4
    ensures CanBroadcastInto([ROWS, COLS, 1], BlockShape(shape)) <==> |shape| == 3
  {
    assert [ROWS, COLS, 1] == [ROWS, COLS] + [1];
    assert [ROWS, COLS] == [ROWS] + [COLS];
    if |shape| == 2 {
      assert BlockShape(shape) == [ROWS] + [COLS];
      BroadcastStep([ROWS, COLS], 1, [ROWS], COLS);
      BroadcastStep([ROWS], COLS, [], ROWS);
    } else if |shape| == 3 {
      assert BlockShape(shape) == [ROWS, COLS] + [shape[2]];
      BroadcastStep([ROWS, COLS], 1, [ROWS, COLS], shape[2]);
      BroadcastSame([ROWS, COLS]);
    } else {
      assert BlockShape(shape) == [ROWS, COLS, shape[2]] + [shape[3]];
      assert [ROWS, COLS, shape[2]] == [ROWS, COLS] + [shape[2]];
      BroadcastStep([ROWS, COLS], 1, [ROWS, COLS, shape[2]], shape[3]);
      BroadcastStep([ROWS], COLS, [ROWS, COLS], shape[2]);
      BroadcastStep([], ROWS, [ROWS], COLS);
    }
  }

  /** As written, the loop tests the output buffer: with a probe that is not a discard it keeps
      the first 60 packets, a leading discard included; with a probe that is a discard it
      never syncs. The corrected loop keeps the 60 packets after the discard. */
  lemma ProbeMissesDiscards(d: Packet, g: Packet)
    requires IsDiscard(d[0]) && !IsDiscard(g[0])
    ensures var ps := [d] + seq(ROWS, _ => g);
      && Fills(ps) && SegmentLines(ps) == seq(ROWS, _ => g)
      && ps[..ROWS][0] == d && ps[..ROWS] != SegmentLines(ps)
  {
    var ps := [d] + seq(ROWS, _ => g);
    assert ps[1..] == seq(ROWS, _ => g);
    assert LeadingDiscards(ps[1..]) == 0;
    assert LeadingDiscards(ps) == 1;
    assert ps[1 .. 1 + ROWS] == seq(ROWS, _ => g);
  }

  /** Word (r, c) of the frame returned for a fresh buffer is byte-swapped payload word c of
      line r of the segment. */
  lemma FrameWord(lines: seq<Packet>, r: nat, c: nat)
    requires |lines| == ROWS && r < ROWS && c < COLS
    ensures var out := SwapAll(StripHeaders(Flatten(lines)));
      COLS * r + c < |out| && out[COLS * r + c] == ByteSwap(lines[r][2 + c])
  {
    StripFlatten(lines, r, c);
  }

  /** pylepton's Lepton object: the SPI bus and the private capture buffer of shape (60, 82, 1). */
  class Lepton {
    const bus: SpiBus
    const captureBuf: array<Word>

    ghost predicate Valid()
    {
      captureBuf.Length == VOSPI_FRAME_SIZE * ROWS
    }

    constructor (bus: SpiBus)
      ensures Valid() && this.bus == bus && fresh(captureBuf)
      ensures captureBuf[..] == seq(VOSPI_FRAME_SIZE * ROWS, _ => 0)
    {
      this.bus := bus;
      captureBuf := new Word[VOSPI_FRAME_SIZE * ROWS](_ => 0);
    }

    /** The sync loop of capture, run on the capture buffer with the descriptor of line 102. */
    method FillSegment() returns (ok: bool)
      requires Valid()
      modifies bus, captureBuf
      ensures ok <==> Fills(old(bus.packets))
      ensures ok ==>
        var ps, n := old(bus.packets), LeadingDiscards(old(bus.packets));
        && bus.packets == ps[n + ROWS..]
        && bus.log == old(bus.log) + SyncLog(LineTransfer(0), 0, n, n + ROWS)
        && captureBuf[..] == Flatten(SegmentLines(ps))
      ensures !ok ==> bus.packets == []
    {
      ghost var ps := bus.packets;
      ok := SyncAndFill(bus, captureBuf, 0, LineTransfer(0));
      if ok {
        assert captureBuf[..] == captureBuf[..][..0] + Flatten(SegmentLines(ps))
                                 + captureBuf[..][VOSPI_FRAME_SIZE * ROWS..];
      }
    }

    /** `data_buffer[0:60, 0:80] = __capture_buf[:, 2:]` followed by `data_buffer.byteswap(True)`,
        for a rank-3 buffer. */
    method PasteAndSwap(buf: NdArray)
      requires Valid() && buf.Valid() && |buf.shape| == 3 && buf.data != captureBuf
      modifies buf.data
      ensures buf.data[..] == SwapAll(Paste3(old(buf.data[..]), captureBuf[..], buf.shape[1], buf.shape[2]))
    {
      PastePayload(buf, captureBuf);
      buf.ByteSwapInPlace();
    }

    /** capture(data_buffer) as documented: a buffer is allocated when none is given, a
        supplied one must pass the size test; one segment is synchronised into the capture
        buffer; its payload `[:, 2:]` is copied into the (60, 80) block of the buffer; the
        whole buffer is byte-swapped in place and its sum is the frame id. */
    method Capture(dataBuffer: NdArray?) returns (r: Result<Frame>)
      requires Valid()
      requires dataBuffer != null ==> dataBuffer.Valid() && dataBuffer.data != captureBuf
      modifies bus, captureBuf, if dataBuffer == null then {} else {dataBuffer.data}
      ensures dataBuffer != null && TooSmall(dataBuffer.shape, dataBuffer.itemSize) ==>
        r == Err(BufferTooSmall) && bus.packets == old(bus.packets) && bus.log == old(bus.log)
        && captureBuf[..] == old(captureBuf[..])
      ensures !(dataBuffer != null && TooSmall(dataBuffer.shape, dataBuffer.itemSize)) ==>
        (r == Err(StreamExhausted) <==> !Fills(old(bus.packets)))
      ensures dataBuffer != null && r.Err? ==> dataBuffer.data[..] == old(dataBuffer.data[..])
      ensures dataBuffer == null ==> (r.Ok? <==> Fills(old(bus.packets)))
      ensures dataBuffer != null && !TooSmall(dataBuffer.shape, dataBuffer.itemSize) && Fills(old(bus.packets)) ==>
        && (r == Err(BroadcastMismatch) <==> !CanBroadcastInto([ROWS, COLS, 1], BlockShape(dataBuffer.shape)))
        && (r.Ok? <==> |dataBuffer.shape| == 3 && dataBuffer.itemSize == 2)
      ensures r.Ok? ==>
        var ps, n := old(bus.packets), LeadingDiscards(old(bus.packets));
        var out := r.value.buffer;
        && Fills(ps)
        && bus.packets == ps[n + ROWS..]
        && bus.log == old(bus.log) + SyncLog(LineTransfer(0), 0, n, n + ROWS)
        && captureBuf[..] == Flatten(SegmentLines(ps))
        && r.value.id == Sum(out.data[..])
        && (dataBuffer == null ==>
              fresh(out) && out.Valid() && out.shape == [ROWS, COLS, 1]
              && out.data[..] == SwapAll(StripHeaders(Flatten(SegmentLines(ps)))))
        && (dataBuffer != null ==>
              out == dataBuffer
              && out.data[..] == SwapAll(Paste3(old(dataBuffer.data[..]), Flatten(SegmentLines(ps)),
                                                dataBuffer.shape[1], dataBuffer.shape[2])))
    {
      var buf: NdArray;
      if dataBuffer == null {
        // np.ndarray leaves the memory uninitialised; the paste below overwrites all of it
        ProdOfThree(ROWS, COLS, 1);
        buf := new NdArray([ROWS, COLS, 1], 2, seq(ROWS * COLS, _ => 0));
      } else if TooSmall(dataBuffer.shape, dataBuffer.itemSize) {
        return Err(BufferTooSmall);
      } else {
        buf := dataBuffer;
      }
      ghost var start := buf.data[..];
      var ok := FillSegment();
      if !ok {
        return Err(StreamExhausted);
      }
      if |buf.shape| <= 4 {
        CopyFits(buf.shape);
      }
      if !CanBroadcastInto([ROWS, COLS, 1], BlockShape(buf.shape)) {
        return Err(BroadcastMismatch);
      }
      if |buf.shape| != 3 || buf.itemSize != 2 {
        return Err(UnsupportedLayout);
      }
      PasteAndSwap(buf);
      if dataBuffer == null {
        Paste3Full(start, captureBuf[..]);
      }
      return Ok(Frame(buf, Sum(buf.data[..])));
    }

    /** capture(data_buffer) as written: the size test reads `elemsize`, the loop tests the
        output buffer's first word (`uninit` is the memory np.ndarray leaves there), and the
        copy from `[:2, :]` cannot broadcast, so no call returns a frame. */
    method CaptureAsWritten(dataBuffer: NdArray?, uninit: seq<Word>) returns (r: Result<Frame>)
      requires Valid() && |uninit| == ROWS * COLS
      modifies bus, captureBuf
      ensures r.Err?
      ensures dataBuffer != null ==>
        r == Err(GuardAsWritten(dataBuffer.shape)) && bus.packets == old(bus.packets) && bus.log == old(bus.log)
      ensures dataBuffer == null ==>
        && (r == Err(StreamExhausted) <==> IsDiscard(uninit[0]) || |old(bus.packets)| < ROWS)
        && (r != Err(StreamExhausted) ==> r == Err(BroadcastMismatch))
    {
      if dataBuffer != null {
        return Err(GuardAsWritten(dataBuffer.shape));
      }
      ProdOfThree(ROWS, COLS, 1);
      var buf := new NdArray([ROWS, COLS, 1], 2, uninit);
      var ok := SyncAndFillAsWritten(bus, captureBuf, 0, LineTransfer(0), buf.data[0]);
      if !ok {
        return Err(StreamExhausted);
      }
      CopyAsWrittenNeverFits(buf.shape);
      return Err(BroadcastMismatch);
    }
  }
}
