/**
 * pylepton's `Lepton3` class: a Lepton 3 frame is four 60-line VoSPI segments. The constructor
 * packs a table of 240 transfer descriptors, one per line of a (240, 82) capture buffer.
 * `capture` re-captures segment slot 0 until the telemetry word of its line 20 says segment 1,
 * then captures slots 1, 2 and 3 once each, byte-swaps the whole capture buffer, copies its
 * payload columns into the caller's buffer viewed as (240, 80), views that as (120, 160), and
 * returns the sum of the result as the frame id.
 *
 * `capture_segment` is not part of the base class shown; it is modelled as the sync-and-fill
 * loop of the Lepton class, run on the first descriptor of the slot (see `SegmentDescriptors`).
 */
module PyLepton3 {
  import opened VoSpi
  import opened Bus
  import opened Sync
  import opened NdArrays

  // ---------------------------------------------------------------------------------------
  // The descriptor table

  /** Entry i of `_xmit_buf`: 164 bytes received at byte offset 164 * i of the capture buffer,
      at SPEED and BITS per word, with a chip-select change after the transfer. */
  function SegmentDescriptor(i: nat): Transfer
  {
    Transfer(0, VOSPI_FRAME_SIZE_BYTES * i, VOSPI_FRAME_SIZE_BYTES, SPEED, 0, BITS, 1, 0, 0)
  }

  /** The 240 entries tile the 240 * 164 bytes of the capture buffer: each byte is received by
      exactly one entry, entry b / 164. */
  lemma DescriptorsTile(b: nat, i: nat)
    requires b < 240 * VOSPI_FRAME_SIZE_BYTES && i < 240
    ensures var t := SegmentDescriptor(i);
      t.rxBuf <= b < t.rxBuf + t.len <==> i == b / VOSPI_FRAME_SIZE_BYTES
  {
    var q, x := b / VOSPI_FRAME_SIZE_BYTES, b % VOSPI_FRAME_SIZE_BYTES;
    assert b == VOSPI_FRAME_SIZE_BYTES * q + x;
    MultipleGap(i - q, VOSPI_FRAME_SIZE_BYTES);
  }

  /** Transfer k of a capture of slot `slot` run on the slot's first entry is entry 60 * slot + j
      of the table, where j is the line it lands in: segment `slot` uses entries
      [60 * slot, 60 * slot + 60) and no others. */
  lemma SegmentDescriptors(slot: nat, n: nat, k: nat)
    requires slot < 4 && k < n + ROWS
    ensures var j := if k <= n then 0 else k - n;
      && j < ROWS
      && SyncTransfer(SegmentDescriptor(ROWS * slot), ROWS * slot, n, k) == SegmentDescriptor(ROWS * slot + j)
  {
  }

  // ---------------------------------------------------------------------------------------
  // The telemetry tests and the debug printer's field decoding

  /** The test of the hunt loop, on the raw ID word of line 20: are we at segment 1? */
  predicate Accepts(w: Word) {
    w & 0x00F0 == 0x0010
  }

  /** The well-formedness test on the same raw word: does it say line 20? */
  predicate WellFormed(w: Word) {
    w & 0xFF0F == 0x1400
  }

  /** The line number the debug printer decodes from a swapped ID word. */
  function LineNumber(fid: Word): (n: Word)
    ensures n < 0x1000
  {
    fid & 0x0FFF
  }

  /** The segment number (TTT) the debug printer decodes from a swapped ID word. */
  function SegmentField(fid: Word): (t: Word)
    ensures t < 16
  {
    (fid & 0xF000) >> 12
  }

  /** The raw tests read the fields the printer decodes after the byte swap: the nibble the hunt
      loop tests is the segment number, and the well-formed test holds exactly when the line
      number is 20. */
  lemma FieldLink(w: Word)
    ensures (w & 0x00F0) >> 4 == SegmentField(ByteSwap(w))
    ensures Accepts(w) <==> SegmentField(ByteSwap(w)) == 1
    ensures WellFormed(w) <==> LineNumber(ByteSwap(w)) == 20
  {
  }

  /** The discard test reads the same raw word as the telemetry tests, in the other byte order:
      it tests bits 8..11 of the stored word, which are bits 0..3 of the ID the telemetry tests
      decode, not that ID's bits 8..11 where a discard is marked. So packet 15's raw word passes
      it, and the raw word of a discard whose decoded ID is 0x0F00 does not. */
  lemma DiscardByteOrder(w: Word)
    ensures IsDiscard(w) <==> LineNumber(ByteSwap(w)) & 0x000F == 0x000F
    ensures IsDiscard(0x0F00) && LineNumber(ByteSwap(0x0F00)) == 15
    ensures !IsDiscard(0x000F) && ByteSwap(0x000F) & 0x0F00 == 0x0F00
  {
  }

  /** Acceptance does not require well-formedness: a word with segment nibble 1 whose line
      field is not 20 ends the hunt. */
  lemma AcceptsIgnoresWellFormedness()
    ensures Accepts(0x0010) && !WellFormed(0x0010) && LineNumber(ByteSwap(0x0010)) != 20
  {
  }

  // ---------------------------------------------------------------------------------------
  // The captures as functions of the packet stream

  /** What a run of segment captures leaves behind: the lines kept, the packets still to come
      and the bus events performed. */
  datatype Run = Run(lines: seq<Packet>, rest: seq<Packet>, log: seq<BusEvent>)

  /** `r` with `lines` and `log` put in front of what it kept and performed. */
  function Then(lines: seq<Packet>, log: seq<BusEvent>, r: Result<Run>): Result<Run>
  {
    match r
    case Ok(x) => Ok(Run(lines + x.lines, x.rest, log + x.log))
    case Err(e) => Err(e)
  }

  lemma ThenThen(l1: seq<Packet>, g1: seq<BusEvent>, l2: seq<Packet>, g2: seq<BusEvent>, r: Result<Run>)
    ensures Then(l1, g1, Then(l2, g2, r)) == Then(l1 + l2, g1 + g2, r)
  {
    if r.Ok? {
      assert l1 + (l2 + r.value.lines) == l1 + l2 + r.value.lines;
      assert g1 + (g2 + r.value.log) == g1 + g2 + r.value.log;
    }
  }

  /** A finished run with the events `log` put in front. */
  lemma ThenOk(log: seq<BusEvent>, lines: seq<Packet>, rest: seq<Packet>)
    ensures Then([], log, Ok(Run(lines, rest, []))) == Ok(Run(lines, rest, log))
  {
    assert [] + lines == lines && log + [] == log;
  }

  /** Two sets of events put in front of a run, one after the other. */
  lemma ThenLogs(g1: seq<BusEvent>, g2: seq<BusEvent>, r: Result<Run>)
    ensures Then([], g1, Then([], g2, r)) == Then([], g1 + g2, r)
  {
    var none: seq<Packet> := [];
    ThenThen(none, g1, none, g2, r);
    assert none + none == none;
  }

  /** The transfers of one capture of slot `slot` when the stream starts with n discards. */
  function SegmentLog(slot: nat, n: nat): (log: seq<BusEvent>)
    ensures |log| == n + ROWS
  {
    SyncLog(SegmentDescriptor(ROWS * slot), ROWS * slot, n, n + ROWS)
  }

  /** The reset wait before a re-capture: 185 ms, only when line 20's ID word is not well formed. */
  function Wait(lines: seq<Packet>): seq<BusEvent>
    requires |lines| == ROWS
  {
    if WellFormed(lines[20][0]) then [] else [Sleep(185)]
  }

  /** The hunt loop as a function of the stream: capture slot 0; stop if line 20 says
      segment 1, otherwise wait if the word is not well formed and hunt again. */
  function Hunt(ps: seq<Packet>): Result<Run>
    decreases |ps|, 0
  {
    if !Fills(ps) then Err(StreamExhausted)
    else
      var n := LeadingDiscards(ps);
      Then([], SegmentLog(0, n), HuntAfter(SegmentLines(ps), ps[n + ROWS..]))
  }

  /** The rest of the hunt once slot 0 holds `lines`: the loop test on line 20. */
  function HuntAfter(lines: seq<Packet>, rest: seq<Packet>): Result<Run>
    requires |lines| == ROWS
    decreases |rest|, 1
  {
    if Accepts(lines[20][0]) then Ok(Run(lines, rest, []))
    else Then([], Wait(lines), Hunt(rest))
  }

  /** Slots slot..3 captured once each, in order. */
  function FillFrom(ps: seq<Packet>, slot: nat): Result<Run>
    requires 1 <= slot <= 4
    decreases 4 - slot
  {
    if slot == 4 then Ok(Run([], ps, []))
    else if !Fills(ps) then Err(StreamExhausted)
    else
      var n := LeadingDiscards(ps);
      Then(SegmentLines(ps), SegmentLog(slot, n), FillFrom(ps[n + ROWS..], slot + 1))
  }

  /** The four segments of one frame: the hunt for segment 1, then slots 1, 2 and 3. */
  function FrameRun(ps: seq<Packet>): Result<Run>
  {
    match Hunt(ps)
    case Err(e) => Err(e)
    case Ok(h) => Then(h.lines, h.log, FillFrom(h.rest, 1))
  }

  // ---------------------------------------------------------------------------------------
  // What the hunt and the fills guarantee

  /** The hunt ends on a segment whose line 20 says segment 1 and whose first line is not a
      discard, after taking at least those 60 packets from the stream. */
  lemma {:induction false} HuntResult(ps: seq<Packet>)
    requires Hunt(ps).Ok?
    ensures var r := Hunt(ps).value;
      && |r.lines| == ROWS && Accepts(r.lines[20][0]) && !IsDiscard(r.lines[0][0])
      && |r.rest| + ROWS <= |ps|
    decreases |ps|
  {
    var n := LeadingDiscards(ps);
    var lines, rest := SegmentLines(ps), ps[n + ROWS..];
    if Accepts(lines[20][0]) {
      HuntAcceptsFirst(ps);
    } else {
      HuntRetries(ps);
      HuntResult(rest);
    }
  }

  /** Event k of a hunt: a transfer receives into a line of slot 0 through a table entry, and
      a reset wait lasts 185 ms and is followed by a transfer into line 0. */
  ghost predicate HuntEventAt(log: seq<BusEvent>, k: nat)
    requires k < |log|
  {
    if log[k].Xfer? then
      log[k].t.rxBuf < VOSPI_FRAME_SIZE_BYTES * ROWS && log[k].t == SegmentDescriptor(0).(rxBuf := log[k].t.rxBuf)
    else
      log[k].ms == 185 && k + 1 < |log| && log[k + 1] == Xfer(SegmentDescriptor(0))
  }

  /** A hunt's bus events: every one of them is as `HuntEventAt` describes. */
  ghost predicate HuntEvents(log: seq<BusEvent>) {
    forall k :: 0 <= k < |log| ==> HuntEventAt(log, k)
  }

  lemma SegmentLogSlotZero(n: nat)
    ensures HuntEvents(SegmentLog(0, n))
    ensures SegmentLog(0, n)[0] == Xfer(SegmentDescriptor(0))
  {
    forall k | 0 <= k < n + ROWS
      ensures SegmentLog(0, n)[k] == Xfer(SyncTransfer(SegmentDescriptor(0), 0, n, k))
    {
      SyncLogAt(SegmentDescriptor(0), 0, n, n + ROWS, k);
      SyncTransferShape(SegmentDescriptor(0), 0, n, k);
    }
  }

  lemma HuntEventsJoin(a: seq<BusEvent>, w: seq<BusEvent>, b: seq<BusEvent>)
    requires HuntEvents(a) && HuntEvents(b) && (w == [] || w == [Sleep(185)])
    requires b != [] && b[0] == Xfer(SegmentDescriptor(0))
    ensures HuntEvents(a + (w + b))
  {
    var s := a + (w + b);
    forall k | 0 <= k < |s|
      ensures HuntEventAt(s, k)
    {
      if k < |a| {
        assert s[k] == a[k] && HuntEventAt(a, k);
        if k + 1 < |a| {
          assert s[k + 1] == a[k + 1];
        }
      } else if k < |a| + |w| {
        assert s[k] == Sleep(185) && s[k + 1] == b[0];
      } else {
        assert s[k] == b[k - |a| - |w|] && HuntEventAt(b, k - |a| - |w|);
        if k + 1 < |s| {
          assert s[k + 1] == b[k + 1 - |a| - |w|];
        }
      }
    }
  }

  /** The hunt only ever receives into slot 0, starts with a transfer into line 0, and waits
      only right before re-capturing slot 0. */
  lemma {:induction false} HuntLog(ps: seq<Packet>)
    requires Hunt(ps).Ok?
    ensures HuntEvents(Hunt(ps).value.log)
    ensures Hunt(ps).value.log[0] == Xfer(SegmentDescriptor(0))
    decreases |ps|
  {
    var n := LeadingDiscards(ps);
    var lines, rest := SegmentLines(ps), ps[n + ROWS..];
    SegmentLogSlotZero(n);
    if Accepts(lines[20][0]) {
      assert SegmentLog(0, n) + [] == SegmentLog(0, n);
      assert Hunt(ps).value.log == SegmentLog(0, n);
    } else {
      HuntLog(rest);
      var b := Hunt(rest).value.log;
      assert Hunt(ps).value.log == SegmentLog(0, n) + (Wait(lines) + b);
      HuntEventsJoin(SegmentLog(0, n), Wait(lines), b);
    }
  }

  /** A first capture whose line 20 says segment 1 ends the hunt at once, with no wait, whether
      or not the word is well formed. */
  lemma HuntAcceptsFirst(ps: seq<Packet>)
    requires Fills(ps) && Accepts(SegmentLines(ps)[20][0])
    ensures var n := LeadingDiscards(ps);
      Hunt(ps) == Ok(Run(SegmentLines(ps), ps[n + ROWS..], SegmentLog(0, n)))
  {
    var n := LeadingDiscards(ps);
    var lines, rest := SegmentLines(ps), ps[n + ROWS..];
    assert HuntAfter(lines, rest) == Ok(Run(lines, rest, []));
    ThenOk(SegmentLog(0, n), lines, rest);
  }

  /** A rejected first capture is followed by a reset wait exactly when its line 20 word is not
      well formed, and then by a whole new hunt. */
  lemma HuntRetries(ps: seq<Packet>)
    requires Fills(ps) && !Accepts(SegmentLines(ps)[20][0])
    ensures var n := LeadingDiscards(ps);
      Hunt(ps) == Then([], SegmentLog(0, n) + Wait(SegmentLines(ps)), Hunt(ps[n + ROWS..]))
    ensures Wait(SegmentLines(ps)) == [Sleep(185)] <==> !WellFormed(SegmentLines(ps)[20][0])
  {
    var n := LeadingDiscards(ps);
    ThenLogs(SegmentLog(0, n), Wait(SegmentLines(ps)), Hunt(ps[n + ROWS..]));
  }

  /** t is entry j of the descriptor table for some j in [lo, hi). */
  ghost predicate FromTable(t: Transfer, lo: nat, hi: nat) {
    exists j :: lo <= j < hi && t == SegmentDescriptor(j)
  }

  /** The bus events of capturing slots slot..3: transfers only, each through a table entry of
      those slots, at non-decreasing offsets. */
  ghost predicate AscendingFrom(log: seq<BusEvent>, slot: nat) {
    && (forall k :: 0 <= k < |log| ==> log[k].Xfer? && FromTable(log[k].t, ROWS * slot, 4 * ROWS))
    && (forall k, l :: 0 <= k < l < |log| && log[k].Xfer? && log[l].Xfer? ==> log[k].t.rxBuf <= log[l].t.rxBuf)
  }

  lemma SegmentLogAscending(slot: nat, n: nat)
    requires slot < 4
    ensures AscendingFrom(SegmentLog(slot, n), slot)
    ensures forall k :: 0 <= k < n + ROWS ==>
      SegmentLog(slot, n)[k].Xfer? && SegmentLog(slot, n)[k].t.rxBuf < VOSPI_FRAME_SIZE_BYTES * ROWS * (slot + 1)
  {
    var log := SegmentLog(slot, n);
    forall k | 0 <= k < n + ROWS
      ensures log[k] == Xfer(SyncTransfer(SegmentDescriptor(ROWS * slot), ROWS * slot, n, k))
      ensures FromTable(log[k].t, ROWS * slot, 4 * ROWS)
      ensures log[k].t.rxBuf < VOSPI_FRAME_SIZE_BYTES * ROWS * (slot + 1)
    {
      SyncLogAt(SegmentDescriptor(ROWS * slot), ROWS * slot, n, n + ROWS, k);
      SegmentDescriptors(slot, n, k);
    }
  }

  lemma AscendingJoin(a: seq<BusEvent>, b: seq<BusEvent>, slot: nat)
    requires slot < 4 && AscendingFrom(a, slot) && AscendingFrom(b, slot + 1)
    requires forall k :: 0 <= k < |a| ==> a[k].Xfer? && a[k].t.rxBuf < VOSPI_FRAME_SIZE_BYTES * ROWS * (slot + 1)
    ensures AscendingFrom(a + b, slot)
  {
    var s := a + b;
    forall k | 0 <= k < |s|
      ensures s[k].Xfer? && FromTable(s[k].t, ROWS * slot, 4 * ROWS)
    {
      if k < |a| {
        assert s[k] == a[k];
      } else {
        assert s[k] == b[k - |a|];
        var j :| ROWS * (slot + 1) <= j < 4 * ROWS && s[k].t == SegmentDescriptor(j);
      }
    }
    forall k, l | 0 <= k < l < |s| && s[k].Xfer? && s[l].Xfer?
      ensures s[k].t.rxBuf <= s[l].t.rxBuf
    {
      if l < |a| {
        assert s[k] == a[k] && s[l] == a[l];
      } else if k < |a| {
        assert s[k] == a[k] && s[l] == b[l - |a|];
        var j :| ROWS * (slot + 1) <= j < 4 * ROWS && s[l].t == SegmentDescriptor(j);
      } else {
        assert s[k] == b[k - |a|] && s[l] == b[l - |a|];
      }
    }
  }

  /** Slots slot..3 yield 60 lines each, and their transfers go through the table entries of
      those slots in ascending order: each slot is captured once, after the one before it. */
  lemma {:induction false} FillResult(ps: seq<Packet>, slot: nat)
    requires 1 <= slot <= 4 && FillFrom(ps, slot).Ok?
    ensures |FillFrom(ps, slot).value.lines| == ROWS * (4 - slot)
    ensures AscendingFrom(FillFrom(ps, slot).value.log, slot)
    decreases 4 - slot
  {
    if slot < 4 {
      var n := LeadingDiscards(ps);
      var rest := ps[n + ROWS..];
      FillResult(rest, slot + 1);
      SegmentLogAscending(slot, n);
      AscendingJoin(SegmentLog(slot, n), FillFrom(rest, slot + 1).value.log, slot);
    }
  }

  /** A whole frame: 240 lines, the first 60 from the accepted slot-0 capture. */
  lemma FrameResult(ps: seq<Packet>)
    requires FrameRun(ps).Ok?
    ensures var h, f := Hunt(ps).value, FrameRun(ps).value;
      && |f.lines| == 4 * ROWS && f.lines[..ROWS] == h.lines && Accepts(f.lines[20][0])
      && f.log == h.log + FillFrom(h.rest, 1).value.log
      && HuntEvents(h.log) && AscendingFrom(FillFrom(h.rest, 1).value.log, 1)
  {
    var h := Hunt(ps).value;
    HuntResult(ps);
    HuntLog(ps);
    FillResult(h.rest, 1);
    assert (h.lines + FillFrom(h.rest, 1).value.lines)[..ROWS] == h.lines;
  }

  // ---------------------------------------------------------------------------------------
  // The output layout

  /** After the (240, 80) copy and the (120, 160) view, output pixel (R, C) is payload word
      C mod 80 of capture line 2R + C div 80, byte-swapped. */
  lemma OutPixel(lines: seq<Packet>, r: nat, c: nat)
    requires |lines| == 4 * ROWS && r < 2 * ROWS && c < 2 * COLS
    ensures var out := StripHeaders(SwapAll(Flatten(lines)));
      && |out| == 4 * ROWS * COLS && 2 * COLS * r + c < |out|
      && out[2 * COLS * r + c] == ByteSwap(lines[2 * r + c / COLS][2 + c % COLS])
  {
    var l, x := 2 * r + c / COLS, c % COLS;
    DivMod(c / COLS, COLS, x);
    assert COLS * l + x == 2 * COLS * r + c;
    var s := SwapAll(Flatten(lines));
    StripWord(s, l, x);
    FlattenWord(lines, l, 2 + x);
  }

  /** Segment i of the frame is output rows 30i..30i+29: the four segments stack as the four
      quarters of the image, top to bottom. */
  lemma SegmentRows(lines: seq<Packet>, r: nat, c: nat)
    requires |lines| == 4 * ROWS && r < 2 * ROWS && c < 2 * COLS
    ensures (2 * r + c / COLS) / ROWS == r / 30
  {
    DivMod(c / COLS, COLS, c % COLS);
    DivMod(r / 30, 30, r % 30);
    DivMod(r / 30, ROWS, 2 * (r % 30) + c / COLS);
  }

  /** The frame id of the (120, 160) output fits a 32-bit accumulator: the unbounded sum is the
      value `sum()` returns whatever the platform's integer width. */
  lemma IdFits(s: seq<Word>)
    requires |s| == 4 * ROWS * COLS
    ensures Sum(s) < 0x1_0000_0000
  {
    SumBound(s);
  }

  // ---------------------------------------------------------------------------------------
  // The driver

  /** The size test of `capture`: a supplied buffer needs rank 2 or more, at least 120 rows and
      160 columns, and items of at least 2 bytes. */
  predicate TooSmall(shape: seq<nat>, itemSize: nat)
  {
    |shape| < 2 || shape[0] < 2 * ROWS || shape[1] < 2 * COLS || itemSize < 2
  }

  class Lepton3 {
    const bus: SpiBus
    /** `_xmit_buf`: one transfer descriptor per line of the capture buffer. */
    const xmit: array<Transfer>
    /** `_capture_buf`: 240 lines of 82 words. */
    const capture: array<Word>

    ghost predicate Valid()
      reads this, xmit
    {
      && xmit.Length == 4 * ROWS && capture.Length == VOSPI_FRAME_SIZE * 4 * ROWS
      && forall i :: 0 <= i < 4 * ROWS ==> xmit[i] == SegmentDescriptor(i)
    }

    /** `__init__`: zeroed buffers, then the descriptor table packed entry by entry. */
    constructor (bus: SpiBus)
      ensures Valid() && this.bus == bus && fresh(xmit) && fresh(capture)
      ensures capture[..] == seq(VOSPI_FRAME_SIZE * 4 * ROWS, _ => 0)
    {
      this.bus := bus;
      var table := new Transfer[4 * ROWS](_ => Transfer(0, 0, 0, 0, 0, 0, 0, 0, 0));
      var i := 0;
      while i < 4 * ROWS
        invariant i <= 4 * ROWS
        invariant forall j :: 0 <= j < i ==> table[j] == SegmentDescriptor(j)
      {
        table[i] := SegmentDescriptor(i);
        i := i + 1;
      }
      xmit := table;
      capture := new Word[VOSPI_FRAME_SIZE * 4 * ROWS](_ => 0);
    }

    /** `capture_segment` on slot `slot`: sync on the slot's first line, then fill its 60 lines. */
    method CaptureSegment(slot: nat) returns (ok: bool)
      requires Valid() && slot < 4
      modifies bus, capture
      ensures Captured(slot, old(bus.packets), old(bus.log), old(capture[..]), ok, bus.packets, bus.log, capture[..])
    {
      ok := SyncAndFill(bus, capture, ROWS * slot, xmit[ROWS * slot]);
    }

    /** The hunt loop: capture slot 0, then re-capture it, after a reset wait when line 20 is
        not well formed, until line 20 says segment 1. */
    method HuntFirstSegment() returns (ok: bool)
      requires Valid()
      modifies bus, capture
      ensures ok <==> Hunt(old(bus.packets)).Ok?
      ensures ok ==>
        var h := Hunt(old(bus.packets)).value;
        && bus.packets == h.rest && bus.log == old(bus.log) + h.log
        && capture[..] == Flatten(h.lines) + old(capture[..])[VOSPI_FRAME_SIZE * ROWS..]
      ensures !ok ==> bus.packets == []
    {
      ghost var ps, tail := bus.packets, capture[VOSPI_FRAME_SIZE * ROWS..];
      ghost var goal := Hunt(ps);
      ok := CaptureSegment(0);
      HuntStart(ps, old(bus.log), bus.log, ok, bus.packets, old(capture[..]), capture[..]);
      if !ok {
        return;
      }
      ghost var lines := SegmentLines(ps);
      ghost var acc := SegmentLog(0, LeadingDiscards(ps));
      while capture[20 * VOSPI_FRAME_SIZE] & 0x00F0 != 0x0010
        invariant Valid()
        invariant HuntState(goal, lines, acc, bus.packets, old(bus.log), bus.log, capture[..], tail)
        decreases |bus.packets|
      {
        ghost var packets, log, cur := bus.packets, bus.log, capture[..];
        HuntWord(lines, cur, tail);
        if capture[20 * VOSPI_FRAME_SIZE] & 0xFF0F != 0x1400 {
          bus.Sleep(185);
        }
        ghost var log1 := bus.log;
        ok := CaptureSegment(0);
        HuntStep(goal, lines, acc, packets, old(bus.log), log, cur, tail, log1, ok, bus.packets, bus.log, capture[..]);
        if !ok {
          return;
        }
        acc := acc + Wait(lines) + SegmentLog(0, LeadingDiscards(packets));
        lines := SegmentLines(packets);
      }
      HuntWord(lines, capture[..], tail);
      HuntExit(goal, lines, acc, bus.packets, old(bus.log), bus.log, capture[..], tail);
    }

    /** `for i in range(1, 4)`: slots 1, 2 and 3 captured once each, in order. */
    method FillRemaining() returns (ok: bool)
      requires Valid()
      modifies bus, capture
      ensures ok <==> FillFrom(old(bus.packets), 1).Ok?
      ensures ok ==>
        var f := FillFrom(old(bus.packets), 1).value;
        && bus.packets == f.rest && bus.log == old(bus.log) + f.log
        && capture[..] == old(capture[..])[..VOSPI_FRAME_SIZE * ROWS] + Flatten(f.lines)
      ensures !ok ==> bus.packets == []
    {
      ghost var ps, init := bus.packets, capture[..];
      ghost var goal := FillFrom(ps, 1);
      ghost var got: seq<Packet> := [];
      ghost var acc: seq<BusEvent> := [];
      FillStart(ps, old(bus.log), init);
      for i := 1 to 4
        invariant Valid()
        invariant FillState(goal, got, acc, i, bus.packets, old(bus.log), bus.log, capture[..], init)
      {
        ghost var packets, log, cur := bus.packets, bus.log, capture[..];
        ok := CaptureSegment(i);
        FillStep(goal, got, acc, i, packets, old(bus.log), log, cur, init, ok, bus.packets, bus.log, capture[..]);
        if !ok {
          return;
        }
        got := got + SegmentLines(packets);
        acc := acc + SegmentLog(i, LeadingDiscards(packets));
      }
      ok := true;
      FillExit(goal, got, acc, bus.packets, old(bus.log), bus.log, capture[..], init);
    }

    /** `data_buffer.shape = (240, 80)`, the payload copy, `data_buffer.shape = (120, 160)` and
        the sum. */
    method Deliver(buf: NdArray) returns (r: Result<Frame>)
      requires Valid() && buf.Valid() && buf.data != capture
      modifies buf, buf.data
      ensures r == Err(ReshapeMismatch) <==> Prod(old(buf.shape)) != 4 * ROWS * COLS
      ensures r == Err(UnsupportedLayout) <==> Prod(old(buf.shape)) == 4 * ROWS * COLS && buf.itemSize != 2
      ensures r.Ok? <==> Prod(old(buf.shape)) == 4 * ROWS * COLS && buf.itemSize == 2
      ensures buf.itemSize == old(buf.itemSize) && buf.data == old(buf.data)
      ensures r == Err(ReshapeMismatch) ==> buf.shape == old(buf.shape) && buf.data[..] == old(buf.data[..])
      ensures r.Ok? ==>
        && r.value.buffer == buf && buf.Valid() && buf.shape == [2 * ROWS, 2 * COLS]
        && buf.data[..] == StripHeaders(capture[..]) && r.value.id == Sum(buf.data[..])
    {
      ProdOfTwo(4 * ROWS, COLS);
      var ok := buf.SetShape([4 * ROWS, COLS]);
      if !ok {
        return Err(ReshapeMismatch);
      }
      if buf.itemSize != 2 {
        return Err(UnsupportedLayout);
      }
      StripInto(buf.data, capture);
      ProdOfTwo(2 * ROWS, 2 * COLS);
      ok := buf.SetShape([2 * ROWS, 2 * COLS]);
      return Ok(Frame(buf, Sum(buf.data[..])));
    }

    /** The acquisition part of `capture`: the hunt, the three fills and the byte swap of the
        whole capture buffer, once, after all four segments are in. */
    method CaptureFrame() returns (ok: bool)
      requires Valid()
      modifies bus, capture
      ensures ok <==> FrameRun(old(bus.packets)).Ok?
      ensures ok ==>
        var f := FrameRun(old(bus.packets)).value;
        && bus.packets == f.rest && bus.log == old(bus.log) + f.log
        && capture[..] == SwapAll(Flatten(f.lines))
      ensures !ok ==> bus.packets == []
    {
      ghost var ps, init := bus.packets, capture[..];
      ghost var goal := FillFrom(ps, 1);
      ok := HuntFirstSegment();
      if !ok {
        return;
      }
      ghost var mid, log1, cur1 := bus.packets, bus.log, capture[..];
      ok := FillRemaining();
      FrameJoin(ps, old(bus.log), init, mid, log1, cur1, ok, bus.packets, bus.log, capture[..]);
      if !ok {
        return;
      }
      SwapInPlace(capture);
    }

    /** The frame acquisition into this object's buffer, then its delivery into `buf`. */
    method Acquire(buf: NdArray) returns (r: Result<Frame>)
      requires Valid() && buf.Valid() && buf.data != capture
      modifies bus, capture, buf, buf.data
      ensures r == Err(StreamExhausted) <==> FrameRun(old(bus.packets)).Err?
      ensures r.Err? && r != Err(UnsupportedLayout) ==>
        buf.shape == old(buf.shape) && buf.data == old(buf.data) && buf.data[..] == old(buf.data[..])
      ensures FrameRun(old(bus.packets)).Ok? ==>
        && (r == Err(ReshapeMismatch) <==> old(Prod(buf.shape)) != 4 * ROWS * COLS)
        && (r.Ok? <==> old(Prod(buf.shape)) == 4 * ROWS * COLS && old(buf.itemSize) == 2)
      ensures r.Ok? ==> FrameRun(old(bus.packets)).Ok?
      ensures FrameRun(old(bus.packets)).Ok? && r.Ok? ==>
        var f := FrameRun(old(bus.packets)).value;
        && bus.packets == f.rest && bus.log == old(bus.log) + f.log
        && capture[..] == SwapAll(Flatten(f.lines))
        && r.value.buffer == buf && buf.Valid() && buf.shape == [2 * ROWS, 2 * COLS]
        && buf.data[..] == StripHeaders(SwapAll(Flatten(f.lines)))
        && r.value.id == Sum(buf.data[..])
    {
      var ok := CaptureFrame();
      if ok {
        r := Deliver(buf);
      } else {
        r := Err(StreamExhausted);
      }
    }

    /** `capture(data_buffer)`: a zeroed (120, 160) buffer is allocated when none is given, a
        supplied one must pass the size test; then the frame is acquired, and its payload
        becomes the (120, 160) image whose sum is the frame id. */
    method Capture(dataBuffer: NdArray?) returns (r: Result<Frame>)
      requires Valid()
      requires dataBuffer != null ==> dataBuffer.Valid() && dataBuffer.data != capture
      modifies bus, capture, if dataBuffer == null then {} else {dataBuffer, dataBuffer.data}
      ensures dataBuffer != null && old(TooSmall(dataBuffer.shape, dataBuffer.itemSize)) ==>
        r == Err(BufferTooSmall) && bus.packets == old(bus.packets) && bus.log == old(bus.log)
        && capture[..] == old(capture[..])
      ensures dataBuffer != null && r.Err? && r != Err(UnsupportedLayout) ==>
        dataBuffer.shape == old(dataBuffer.shape) && dataBuffer.data == old(dataBuffer.data)
        && dataBuffer.data[..] == old(dataBuffer.data[..])
      ensures !(dataBuffer != null && old(TooSmall(dataBuffer.shape, dataBuffer.itemSize))) ==>
        (r == Err(StreamExhausted) <==> FrameRun(old(bus.packets)).Err?)
      ensures dataBuffer == null ==> (r.Ok? <==> FrameRun(old(bus.packets)).Ok?)
      ensures dataBuffer != null && old(!TooSmall(dataBuffer.shape, dataBuffer.itemSize))
              && FrameRun(old(bus.packets)).Ok? ==>
        && (r == Err(ReshapeMismatch) <==> old(Prod(dataBuffer.shape)) != 4 * ROWS * COLS)
        && (r.Ok? <==> old(Prod(dataBuffer.shape)) == 4 * ROWS * COLS && old(dataBuffer.itemSize) == 2)
      ensures r.Ok? ==> FrameRun(old(bus.packets)).Ok?
      ensures FrameRun(old(bus.packets)).Ok? && r.Ok? ==>
        var f := FrameRun(old(bus.packets)).value;
        var out := r.value.buffer;
        && bus.packets == f.rest && bus.log == old(bus.log) + f.log
        && capture[..] == SwapAll(Flatten(f.lines))
        && out.Valid() && out.shape == [2 * ROWS, 2 * COLS]
        && out.data[..] == StripHeaders(SwapAll(Flatten(f.lines)))
        && r.value.id == Sum(out.data[..])
        && (dataBuffer == null ==> fresh(out))
        && (dataBuffer != null ==> out == dataBuffer)
    {
      if dataBuffer != null && TooSmall(dataBuffer.shape, dataBuffer.itemSize) {
        r := Err(BufferTooSmall);
      } else {
        var buf: NdArray;
        if dataBuffer == null {
          ProdOfTwo(2 * ROWS, 2 * COLS);
          buf := new NdArray([2 * ROWS, 2 * COLS], 2, seq(4 * ROWS * COLS, _ => 0));
        } else {
          buf := dataBuffer;
        }
        r := Acquire(buf);
      }
    }
  }

  /** `s` with the block of |b| words that starts at |a| replaced by b. */
  lemma ReplaceBlock(a: seq<Word>, tail: seq<Word>, b: seq<Word>)
    requires |b| <= |tail|
    ensures (a + tail)[..|a|] + b + (a + tail)[|a| + |b|..] == a + b + tail[|b|..]
  {
    assert (a + tail)[..|a|] == a;
    assert (a + tail)[|a| + |b|..] == tail[|b|..];
  }

  // ---------------------------------------------------------------------------------------
  // Loop states of the hunt and the fills

  /** One `capture_segment(slot)` on stream `ps`, bus log `log0` and capture contents `cur0`:
      it succeeds exactly when the stream holds a synced segment, consumes it, logs the slot's
      transfers and writes the segment's 60 lines into the slot; when the stream runs out it
      is left empty. */
  ghost predicate Captured(slot: nat, ps: seq<Packet>, log0: seq<BusEvent>, cur0: seq<Word>,
                           ok: bool, packets: seq<Packet>, log: seq<BusEvent>, cur: seq<Word>)
  {
    && (ok <==> Fills(ps))
    && (ok ==>
      var n := LeadingDiscards(ps);
      && packets == ps[n + ROWS..] && log == log0 + SegmentLog(slot, n)
      && VOSPI_FRAME_SIZE * ROWS * (slot + 1) <= |cur0|
      && cur == cur0[..VOSPI_FRAME_SIZE * ROWS * slot] + Flatten(SegmentLines(ps))
                + cur0[VOSPI_FRAME_SIZE * ROWS * (slot + 1)..])
    && (!ok ==> packets == [])
  }

  /** The hunt so far, towards the run `goal`: slot 0 holds `lines`, the bus performed `acc`
      since the start, and what is left of the hunt is `HuntAfter(lines, packets)`. */
  ghost predicate HuntState(goal: Result<Run>, lines: seq<Packet>, acc: seq<BusEvent>, packets: seq<Packet>,
                            log0: seq<BusEvent>, log: seq<BusEvent>, cur: seq<Word>, tail: seq<Word>)
  {
    && |lines| == ROWS
    && goal == Then([], acc, HuntAfter(lines, packets))
    && log == log0 + acc
    && cur == Flatten(lines) + tail
  }

  lemma HuntWord(lines: seq<Packet>, cur: seq<Word>, tail: seq<Word>)
    requires |lines| == ROWS && cur == Flatten(lines) + tail
    ensures 20 * VOSPI_FRAME_SIZE < |cur| && cur[20 * VOSPI_FRAME_SIZE] == lines[20][0]
  {
    FlattenWord(lines, 20, 0);
  }

  /** Three `Then`s in a row are one. */
  lemma ThenChain(r: Result<Run>, a: seq<BusEvent>, x: Result<Run>, b: seq<BusEvent>, y: Result<Run>,
                  c: seq<BusEvent>, z: Result<Run>)
    requires r == Then([], a, x) && x == Then([], b, y) && y == Then([], c, z)
    ensures r == Then([], a + b + c, z)
  {
    ThenLogs(a, b, y);
    ThenLogs(a + b, c, z);
  }

  /** Three sets of events performed one after the other. */
  lemma LogsChain(log0: seq<BusEvent>, a: seq<BusEvent>, b: seq<BusEvent>, c: seq<BusEvent>,
                  log: seq<BusEvent>, log1: seq<BusEvent>, log2: seq<BusEvent>)
    requires log == log0 + a && log1 == log + b && log2 == log1 + c
    ensures log2 == log0 + (a + b + c)
  {
  }

  /** A capture into slot 0 of a buffer whose slot 0 holds `lines` leaves `next` there. */
  lemma SlotZeroReplaced(lines: seq<Packet>, next: seq<Packet>, tail: seq<Word>, cur: seq<Word>, cur2: seq<Word>)
    requires |lines| == ROWS && cur == Flatten(lines) + tail
    requires cur2 == cur[..0] + Flatten(next) + cur[VOSPI_FRAME_SIZE * ROWS..]
    ensures cur2 == Flatten(next) + tail
  {
    assert cur[VOSPI_FRAME_SIZE * ROWS..] == tail;
    assert cur[..0] + Flatten(next) == Flatten(next);
  }

  lemma HuntStart(ps: seq<Packet>, log0: seq<BusEvent>, log: seq<BusEvent>, ok: bool, packets: seq<Packet>,
                  init: seq<Word>, cur: seq<Word>)
    requires |init| == VOSPI_FRAME_SIZE * 4 * ROWS
    requires Captured(0, ps, log0, init, ok, packets, log, cur)
    ensures !ok ==> Hunt(ps).Err?
    ensures ok ==> HuntState(Hunt(ps), SegmentLines(ps), SegmentLog(0, LeadingDiscards(ps)), packets,
                             log0, log, cur, init[VOSPI_FRAME_SIZE * ROWS..])
  {
    if ok {
      assert init[..0] + Flatten(SegmentLines(ps)) == Flatten(SegmentLines(ps));
    }
  }

  lemma HuntStep(goal: Result<Run>, lines: seq<Packet>, acc: seq<BusEvent>, packets: seq<Packet>,
                 log0: seq<BusEvent>, log: seq<BusEvent>, cur: seq<Word>, tail: seq<Word>,
                 log1: seq<BusEvent>, ok: bool, packets2: seq<Packet>, log2: seq<BusEvent>, cur2: seq<Word>)
    requires HuntState(goal, lines, acc, packets, log0, log, cur, tail) && !Accepts(lines[20][0])
    requires log1 == log + Wait(lines)
    requires Captured(0, packets, log1, cur, ok, packets2, log2, cur2)
    ensures !ok ==> goal.Err?
    ensures ok ==>
      HuntState(goal, SegmentLines(packets), acc + Wait(lines) + SegmentLog(0, LeadingDiscards(packets)),
                packets2, log0, log2, cur2, tail)
  {
    var after := HuntAfter(lines, packets);
    assert after == Then([], Wait(lines), Hunt(packets));
    if ok {
      var n := LeadingDiscards(packets);
      var next := SegmentLines(packets);
      ThenChain(goal, acc, after, Wait(lines), Hunt(packets), SegmentLog(0, n), HuntAfter(next, packets2));
      LogsChain(log0, acc, Wait(lines), SegmentLog(0, n), log, log1, log2);
      SlotZeroReplaced(lines, next, tail, cur, cur2);
    }
  }

  lemma HuntExit(goal: Result<Run>, lines: seq<Packet>, acc: seq<BusEvent>, packets: seq<Packet>,
                 log0: seq<BusEvent>, log: seq<BusEvent>, cur: seq<Word>, tail: seq<Word>)
    requires HuntState(goal, lines, acc, packets, log0, log, cur, tail) && Accepts(lines[20][0])
    ensures goal == Ok(Run(lines, packets, acc))
  {
    assert [] + lines == lines && acc + [] == acc;
  }

  /** The fills so far, towards the run `goal`: slots 1..i-1 hold `got`, the bus performed
      `acc`, and what is left is `FillFrom(packets, i)`. */
  ghost predicate FillState(goal: Result<Run>, got: seq<Packet>, acc: seq<BusEvent>, i: nat, packets: seq<Packet>,
                            log0: seq<BusEvent>, log: seq<BusEvent>, cur: seq<Word>, init: seq<Word>)
  {
    && 1 <= i <= 4 && |got| == ROWS * (i - 1) && |init| == VOSPI_FRAME_SIZE * 4 * ROWS
    && goal == Then(got, acc, FillFrom(packets, i))
    && log == log0 + acc
    && cur == init[..VOSPI_FRAME_SIZE * ROWS] + Flatten(got) + init[VOSPI_FRAME_SIZE * ROWS * i..]
  }

  lemma FillStart(ps: seq<Packet>, log0: seq<BusEvent>, init: seq<Word>)
    requires |init| == VOSPI_FRAME_SIZE * 4 * ROWS
    ensures FillState(FillFrom(ps, 1), [], [], 1, ps, log0, log0, init, init)
  {
    var r := FillFrom(ps, 1);
    if r.Ok? {
      assert [] + r.value.lines == r.value.lines && [] + r.value.log == r.value.log;
    }
    assert init[..VOSPI_FRAME_SIZE * ROWS] + Flatten([]) + init[VOSPI_FRAME_SIZE * ROWS..] == init;
  }

  /** A capture into slot i of a buffer whose slots 1..i-1 hold `got` extends them by `seg`. */
  lemma SlotFilled(init: seq<Word>, got: seq<Packet>, seg: seq<Packet>, i: nat, cur: seq<Word>, cur2: seq<Word>)
    requires 1 <= i < 4 && |got| == ROWS * (i - 1) && |seg| == ROWS && |init| == VOSPI_FRAME_SIZE * 4 * ROWS
    requires cur == init[..VOSPI_FRAME_SIZE * ROWS] + Flatten(got) + init[VOSPI_FRAME_SIZE * ROWS * i..]
    requires cur2 == cur[..VOSPI_FRAME_SIZE * ROWS * i] + Flatten(seg) + cur[VOSPI_FRAME_SIZE * ROWS * (i + 1)..]
    ensures cur2 == init[..VOSPI_FRAME_SIZE * ROWS] + Flatten(got + seg) + init[VOSPI_FRAME_SIZE * ROWS * (i + 1)..]
  {
    var head := init[..VOSPI_FRAME_SIZE * ROWS] + Flatten(got);
    var tail := init[VOSPI_FRAME_SIZE * ROWS * i..];
    assert |head| == VOSPI_FRAME_SIZE * ROWS * i;
    ReplaceBlock(head, tail, Flatten(seg));
    assert tail[|Flatten(seg)|..] == init[VOSPI_FRAME_SIZE * ROWS * (i + 1)..];
    FlattenAppend(got, seg);
  }

  lemma FillStep(goal: Result<Run>, got: seq<Packet>, acc: seq<BusEvent>, i: nat, packets: seq<Packet>,
                 log0: seq<BusEvent>, log: seq<BusEvent>, cur: seq<Word>, init: seq<Word>,
                 ok: bool, packets2: seq<Packet>, log2: seq<BusEvent>, cur2: seq<Word>)
    requires FillState(goal, got, acc, i, packets, log0, log, cur, init) && i < 4
    requires Captured(i, packets, log, cur, ok, packets2, log2, cur2)
    ensures !ok ==> goal.Err?
    ensures ok ==>
      FillState(goal, got + SegmentLines(packets), acc + SegmentLog(i, LeadingDiscards(packets)), i + 1,
                packets2, log0, log2, cur2, init)
  {
    if ok {
      var n := LeadingDiscards(packets);
      var seg := SegmentLines(packets);
      ThenThen(got, acc, seg, SegmentLog(i, n), FillFrom(packets2, i + 1));
      SlotFilled(init, got, seg, i, cur, cur2);
    }
  }

  lemma FillExit(goal: Result<Run>, got: seq<Packet>, acc: seq<BusEvent>, packets: seq<Packet>,
                 log0: seq<BusEvent>, log: seq<BusEvent>, cur: seq<Word>, init: seq<Word>)
    requires FillState(goal, got, acc, 4, packets, log0, log, cur, init)
    ensures goal == Ok(Run(got, packets, acc))
    ensures cur == init[..VOSPI_FRAME_SIZE * ROWS] + Flatten(got)
  {
    assert got + [] == got && acc + [] == acc;
    assert init[VOSPI_FRAME_SIZE * ROWS * 4..] == [];
  }

  /** The hunt followed by the fills is the frame run. */
  lemma FrameJoin(ps: seq<Packet>, log0: seq<BusEvent>, init: seq<Word>,
                  mid: seq<Packet>, log1: seq<BusEvent>, cur1: seq<Word>,
                  ok: bool, packets: seq<Packet>, log: seq<BusEvent>, cur: seq<Word>)
    requires Hunt(ps).Ok? && |init| == VOSPI_FRAME_SIZE * 4 * ROWS
    requires var h := Hunt(ps).value;
      mid == h.rest && log1 == log0 + h.log && cur1 == Flatten(h.lines) + init[VOSPI_FRAME_SIZE * ROWS..]
    requires ok <==> FillFrom(mid, 1).Ok?
    requires ok ==>
      var f := FillFrom(mid, 1).value;
      && packets == f.rest && log == log1 + f.log
      && cur == cur1[..VOSPI_FRAME_SIZE * ROWS] + Flatten(f.lines)
    ensures ok <==> FrameRun(ps).Ok?
    ensures ok ==>
      var f := FrameRun(ps).value;
      packets == f.rest && log == log0 + f.log && cur == Flatten(f.lines)
  {
    var h := Hunt(ps).value;
    HuntResult(ps);
    FrameParts(ps);
    if ok {
      var f := FillFrom(mid, 1).value;
      JoinLogs(log0, h.log, f.log, log1, log);
      JoinLines(h.lines, f.lines, init[VOSPI_FRAME_SIZE * ROWS..], cur1, cur);
    }
  }

  /** A frame run is the hunt's lines and events followed by those of the fills. */
  lemma FrameParts(ps: seq<Packet>)
    requires Hunt(ps).Ok?
    ensures var h := Hunt(ps).value;
      && (FrameRun(ps).Ok? <==> FillFrom(h.rest, 1).Ok?)
      && (FrameRun(ps).Ok? ==>
            var f := FillFrom(h.rest, 1).value;
            FrameRun(ps).value == Run(h.lines + f.lines, f.rest, h.log + f.log))
  {
  }

  lemma JoinLogs(log0: seq<BusEvent>, a: seq<BusEvent>, b: seq<BusEvent>, log1: seq<BusEvent>, log: seq<BusEvent>)
    requires log1 == log0 + a && log == log1 + b
    ensures log == log0 + (a + b)
  {
  }

  lemma JoinLines(a: seq<Packet>, b: seq<Packet>, tail: seq<Word>, cur1: seq<Word>, cur: seq<Word>)
    requires |a| == ROWS && cur1 == Flatten(a) + tail
    requires cur == cur1[..VOSPI_FRAME_SIZE * ROWS] + Flatten(b)
    ensures cur == Flatten(a + b)
  {
    assert cur1[..VOSPI_FRAME_SIZE * ROWS] == Flatten(a);
    FlattenAppend(a, b);
  }
}
