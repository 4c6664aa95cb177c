/**
 * The single-segment sync-and-fill loop (`while rxs < rxs_end`): one-line transfers into line 0
 * until a packet that is not a discard arrives, then one transfer per line until ROWS lines are
 * filled. The pure functions here say what the loop consumes, writes and issues.
 */
module Sync {
  import opened VoSpi
  import opened Bus

  /** How many discard packets the stream starts with. */
  function LeadingDiscards(ps: seq<Packet>): (n: nat)
    ensures n <= |ps|
    ensures n < |ps| ==> !IsDiscard(ps[n][0])
  {
    if ps == [] || !IsDiscard(ps[0][0]) then 0 else 1 + LeadingDiscards(ps[1..])
  }

  /** Every packet before the first non-discard is a discard. */
  lemma {:induction false} LeadingDiscardsAreDiscards(ps: seq<Packet>, i: nat)
    requires i < LeadingDiscards(ps)
    ensures IsDiscard(ps[i][0])
  {
    if i > 0 {
      LeadingDiscardsAreDiscards(ps[1..], i - 1);
    }
  }

  /** The stream holds a full segment after its leading discards. */
  predicate Fills(ps: seq<Packet>) {
    LeadingDiscards(ps) + ROWS <= |ps|
  }

  /** The ROWS packets a segment capture keeps from the stream. */
  function SegmentLines(ps: seq<Packet>): (lines: seq<Packet>)
    requires Fills(ps)
    ensures |lines| == ROWS
    ensures !IsDiscard(lines[0][0])
  {
    var n := LeadingDiscards(ps);
    ps[n .. n + ROWS]
  }

  /** The stream is its leading discards, then the segment kept, then what follows. */
  lemma SegmentSplit(ps: seq<Packet>)
    requires Fills(ps)
    ensures ps[..LeadingDiscards(ps)] + SegmentLines(ps) + ps[LeadingDiscards(ps) + ROWS..] == ps
  {
    var n := LeadingDiscards(ps);
    assert SegmentLines(ps) == ps[n .. n + ROWS];
    assert ps[..n] + ps[n .. n + ROWS] + ps[n + ROWS..] == ps;
  }

  /** Transfer number k when the stream starts with n discards: the first n + 1 transfers
      receive into line line0, transfer n + j into line line0 + j. */
  function SyncTransfer(template: Transfer, line0: nat, n: nat, k: nat): Transfer {
    template.(rxBuf := VOSPI_FRAME_SIZE_BYTES * (line0 + (if k <= n then 0 else k - n)))
  }

  /** The first `count` transfers of a sync-and-fill run. */
  function SyncLog(template: Transfer, line0: nat, n: nat, count: nat): (r: seq<BusEvent>)
    ensures |r| == count
  {
    if count == 0 then [] else SyncLog(template, line0, n, count - 1) + [Xfer(SyncTransfer(template, line0, n, count - 1))]
  }

  /** Entry k of a run's log is transfer number k. */
  lemma {:induction false} SyncLogAt(template: Transfer, line0: nat, n: nat, count: nat, k: nat)
    requires k < count
    ensures SyncLog(template, line0, n, count)[k] == Xfer(SyncTransfer(template, line0, n, k))
  {
    if k < count - 1 {
      SyncLogAt(template, line0, n, count - 1, k);
    }
  }

  /** Every transfer of a run is `template` receiving into a whole line of the segment:
      the first n + 1 into line line0, each later one 164 bytes past the one before. */
  lemma SyncTransferShape(template: Transfer, line0: nat, n: nat, k: nat)
    requires k < n + ROWS
    ensures var t := SyncTransfer(template, line0, n, k);
      && t == template.(rxBuf := t.rxBuf)
      && t.rxBuf % VOSPI_FRAME_SIZE_BYTES == 0
      && VOSPI_FRAME_SIZE_BYTES * line0 <= t.rxBuf < VOSPI_FRAME_SIZE_BYTES * (line0 + ROWS)
      && (k <= n ==> t.rxBuf == VOSPI_FRAME_SIZE_BYTES * line0)
      && (n < k ==> t.rxBuf == SyncTransfer(template, line0, n, k - 1).rxBuf + VOSPI_FRAME_SIZE_BYTES)
  {
  }

  /** Receiving packet p just past the filled prefix f of a segment extends f by p. */
  lemma SpliceExtends(start: seq<Word>, lo: nat, f: seq<Word>, p: Packet)
    requires lo + |f| + VOSPI_FRAME_SIZE <= |start|
    ensures Splice(start[..lo] + f + start[lo + |f|..], lo + |f|, p)
         == start[..lo] + (f + p) + start[lo + |f| + VOSPI_FRAME_SIZE..]
  {
    var s := start[..lo] + f + start[lo + |f|..];
    assert s[..lo + |f|] == start[..lo] + f;
    assert s[lo + |f| + VOSPI_FRAME_SIZE..] == start[lo + |f| + VOSPI_FRAME_SIZE..];
  }

  /** Receiving into a line of a buffer that agrees with `start` outside that line. */
  lemma SpliceAgrees(s: seq<Word>, start: seq<Word>, at: nat, p: Packet)
    requires at + VOSPI_FRAME_SIZE <= |s| == |start|
    requires s[..at] == start[..at] && s[at + VOSPI_FRAME_SIZE..] == start[at + VOSPI_FRAME_SIZE..]
    ensures Splice(s, at, p) == start[..at] + p + start[at + VOSPI_FRAME_SIZE..]
  {
  }

  /** The contents of a buffer that held `start` once the loop has consumed k packets and
      filled j lines of the segment starting at word lo: before sync, line 0 holds the last
      packet received; after sync, lines 0..j-1 hold the packets from the first non-discard on. */
  ghost function Expected(start: seq<Word>, lo: nat, ps: seq<Packet>, n: nat, k: nat, j: nat, synced: bool): seq<Word>
    requires lo + VOSPI_FRAME_SIZE * ROWS <= |start| && j <= ROWS
    requires n <= k <= |ps| && (synced ==> k - n == j)
    requires !synced ==> 0 < k
  {
    if synced then start[..lo] + Flatten(ps[n..k]) + start[lo + VOSPI_FRAME_SIZE * j..]
    else start[..lo] + ps[k - 1] + start[lo + VOSPI_FRAME_SIZE..]
  }

  /** One synced iteration: receive packet k into line j and advance. */
  lemma SyncedStep(start: seq<Word>, lo: nat, ps: seq<Packet>, n: nat, k: nat, j: nat)
    requires lo + VOSPI_FRAME_SIZE * ROWS <= |start| && j < ROWS
    requires n + j == k < |ps| && 1 <= j
    ensures Splice(Expected(start, lo, ps, n, k, j, true), lo + VOSPI_FRAME_SIZE * j, ps[k])
         == Expected(start, lo, ps, n, k + 1, j + 1, true)
  {
    var f := Flatten(ps[n..k]);
    assert ps[n..k + 1][..k - n] == ps[n..k] && ps[n..k + 1][k - n] == ps[k];
    assert Flatten(ps[n..k + 1]) == f + ps[k];
    assert |f| == VOSPI_FRAME_SIZE * j;
    assert Expected(start, lo, ps, n, k, j, true) == start[..lo] + f + start[lo + |f|..];
    SpliceExtends(start, lo, f, ps[k]);
    assert lo + |f| + VOSPI_FRAME_SIZE == lo + VOSPI_FRAME_SIZE * (j + 1);
    assert Expected(start, lo, ps, n, k + 1, j + 1, true)
        == start[..lo] + (f + ps[k]) + start[lo + |f| + VOSPI_FRAME_SIZE..];
  }

  /** The synced buffer agrees with `start` outside the segment [lo, lo + 82 * ROWS). */
  lemma ExpectedKeeps(start: seq<Word>, lo: nat, ps: seq<Packet>, n: nat, k: nat, j: nat)
    requires lo + VOSPI_FRAME_SIZE * ROWS <= |start| && j <= ROWS
    requires n + j == k <= |ps|
    ensures var cur := Expected(start, lo, ps, n, k, j, true); var hi := lo + VOSPI_FRAME_SIZE * ROWS;
      |cur| == |start| && cur[..lo] == start[..lo] && cur[hi..] == start[hi..]
  {
    var cur := Expected(start, lo, ps, n, k, j, true);
    var hi := lo + VOSPI_FRAME_SIZE * ROWS;
    var f := Flatten(ps[n..k]);
    assert cur[..lo] == start[..lo];
    assert cur[hi..] == start[lo + VOSPI_FRAME_SIZE * j..][hi - (lo + |f|)..];
  }

  /** One unsynced iteration: packet k of a stream whose first n packets are not kept is
      received into line 0; the buffer still agrees with `start` outside line 0, and if k is the
      packet the loop syncs on, line 0 is the first line of the segment. */
  lemma UnsyncedStep(start: seq<Word>, lo: nat, ps: seq<Packet>, n: nat, k: nat, cur: seq<Word>)
    requires lo + VOSPI_FRAME_SIZE * ROWS <= |start| == |cur|
    requires k <= n <= |ps| && k < |ps|
    requires cur[..lo] == start[..lo] && cur[lo + VOSPI_FRAME_SIZE..] == start[lo + VOSPI_FRAME_SIZE..]
    ensures var next := Splice(cur, lo, ps[k]);
      && next[lo] == ps[k][0]
      && next[..lo] == start[..lo] && next[lo + VOSPI_FRAME_SIZE..] == start[lo + VOSPI_FRAME_SIZE..]
      && (k == n ==> next == Expected(start, lo, ps, n, k + 1, 1, true))
  {
    var next := Splice(cur, lo, ps[k]);
    SpliceAgrees(cur, start, lo, ps[k]);
    assert next[lo] == ps[k][0];
    if k == n {
      assert [ps[k]][..0] == [];
      assert ps[n..k + 1] == [ps[k]];
      assert Flatten(ps[n..k + 1]) == ps[k];
    }
  }

  /** Before the first non-discard, packet k is the one the loop syncs on iff it is not a discard. */
  lemma SyncPoint(ps: seq<Packet>, k: nat)
    requires k <= LeadingDiscards(ps) && k < |ps|
    ensures !IsDiscard(ps[k][0]) <==> k == LeadingDiscards(ps)
  {
    if k < LeadingDiscards(ps) {
      LeadingDiscardsAreDiscards(ps, k);
    }
  }

  /** What the loop knows after consuming k packets of ps and filling j lines, when it syncs
      on packet n: rxs is the byte offset of line line0 + j, the bus holds the rest of the
      stream and has logged the first k transfers of the run, and the buffer `cur` is as
      Expected says. */
  ghost predicate LoopState(template: Transfer, line0: nat, log0: seq<BusEvent>, start: seq<Word>,
                            ps: seq<Packet>, n: nat, k: nat, j: nat, synced: bool, rxs: nat,
                            cur: seq<Word>, packets: seq<Packet>, log: seq<BusEvent>)
  {
    var lo := VOSPI_FRAME_SIZE * line0;
    && |cur| == |start| && lo + VOSPI_FRAME_SIZE * ROWS <= |start|
    && rxs == VOSPI_FRAME_SIZE_BYTES * line0 + VOSPI_FRAME_SIZE_BYTES * j && j <= ROWS
    && n <= |ps| && k <= |ps| && packets == ps[k..]
    && log == log0 + SyncLog(template, line0, n, k)
    && (!synced ==> j == 0 && k <= n && cur[..lo] == start[..lo]
                    && cur[lo + VOSPI_FRAME_SIZE..] == start[lo + VOSPI_FRAME_SIZE..])
    && (synced ==> 1 <= j && k == n + j && cur == Expected(start, lo, ps, n, k, j, true))
  }

  /** The log after transfer number k of a run. */
  lemma LogStep(template: Transfer, line0: nat, log0: seq<BusEvent>, n: nat, k: nat, j: nat,
                synced: bool, rxs: nat, log: seq<BusEvent>)
    requires log == log0 + SyncLog(template, line0, n, k)
    requires rxs == VOSPI_FRAME_SIZE_BYTES * line0 + VOSPI_FRAME_SIZE_BYTES * j
    requires !synced ==> j == 0 && k <= n
    requires synced ==> k == n + j
    ensures log + [Xfer(template.(rxBuf := rxs))] == log0 + SyncLog(template, line0, n, k + 1)
  {
    assert template.(rxBuf := rxs) == SyncTransfer(template, line0, n, k);
  }

  /** Where the loop's current line lies in the buffer. */
  lemma LoopOffset(template: Transfer, line0: nat, log0: seq<BusEvent>, start: seq<Word>,
                   ps: seq<Packet>, n: nat, k: nat, j: nat, synced: bool, rxs: nat,
                   cur: seq<Word>, packets: seq<Packet>, log: seq<BusEvent>)
    requires LoopState(template, line0, log0, start, ps, n, k, j, synced, rxs, cur, packets, log)
    requires j < ROWS
    ensures rxs % 2 == 0 && rxs / 2 == VOSPI_FRAME_SIZE * line0 + VOSPI_FRAME_SIZE * j
    ensures rxs / 2 + VOSPI_FRAME_SIZE <= |cur|
  {
    assert rxs == 2 * (VOSPI_FRAME_SIZE * line0 + VOSPI_FRAME_SIZE * j);
  }

  /** A synced iteration receives the next packet into line j and moves on to line j + 1,
      whatever that packet holds. */
  lemma SyncedLoopStep(template: Transfer, line0: nat, log0: seq<BusEvent>, start: seq<Word>,
                       ps: seq<Packet>, n: nat, k: nat, j: nat, synced: bool, rxs: nat,
                       cur: seq<Word>, packets: seq<Packet>, log: seq<BusEvent>)
    requires LoopState(template, line0, log0, start, ps, n, k, j, synced, rxs, cur, packets, log)
    requires synced && j < ROWS && packets != []
    ensures rxs % 2 == 0 && rxs / 2 + VOSPI_FRAME_SIZE <= |cur|
    ensures LoopState(template, line0, log0, start, ps, n, k + 1, j + 1, true, rxs + VOSPI_FRAME_SIZE_BYTES,
                      Splice(cur, rxs / 2, packets[0]), packets[1..], log + [Xfer(template.(rxBuf := rxs))])
  {
    var lo := VOSPI_FRAME_SIZE * line0;
    assert rxs == 2 * (lo + VOSPI_FRAME_SIZE * j);
    assert packets[0] == ps[k] && packets[1..] == ps[k + 1..];
    LogStep(template, line0, log0, n, k, j, synced, rxs, log);
    SyncedStep(start, lo, ps, n, k, j);
  }

  /** An unsynced iteration receives the next packet into line 0 and moves on to line 1 iff
      `sync` (the loop's test) holds, which must happen exactly at packet n. */
  lemma UnsyncedLoopStep(template: Transfer, line0: nat, log0: seq<BusEvent>, start: seq<Word>,
                         ps: seq<Packet>, n: nat, k: nat, j: nat, synced: bool, rxs: nat,
                         cur: seq<Word>, packets: seq<Packet>, log: seq<BusEvent>, sync: bool)
    requires LoopState(template, line0, log0, start, ps, n, k, j, synced, rxs, cur, packets, log)
    requires !synced && packets != []
    ensures rxs % 2 == 0 && rxs / 2 + VOSPI_FRAME_SIZE <= |cur|
    ensures Splice(cur, rxs / 2, packets[0])[VOSPI_FRAME_SIZE * line0] == packets[0][0]
    ensures (sync <==> k == n) ==>
      var next, log' := Splice(cur, rxs / 2, packets[0]), log + [Xfer(template.(rxBuf := rxs))];
      if sync
      then LoopState(template, line0, log0, start, ps, n, k + 1, 1, true, rxs + VOSPI_FRAME_SIZE_BYTES,
                     next, packets[1..], log')
      else LoopState(template, line0, log0, start, ps, n, k + 1, 0, false, rxs, next, packets[1..], log')
  {
    var lo := VOSPI_FRAME_SIZE * line0;
    assert rxs == 2 * lo;
    assert packets[0] == ps[k] && packets[1..] == ps[k + 1..];
    LogStep(template, line0, log0, n, k, j, synced, rxs, log);
    UnsyncedStep(start, lo, ps, n, k, cur);
  }

  /** Whatever the loop has done, it has written only inside the segment; if the stream is
      exhausted before ROWS lines are filled, the stream did not hold ROWS packets from n on;
      once ROWS lines are filled, they are those packets. */
  lemma LoopExit(template: Transfer, line0: nat, log0: seq<BusEvent>, start: seq<Word>,
                 ps: seq<Packet>, n: nat, k: nat, j: nat, synced: bool, rxs: nat,
                 cur: seq<Word>, packets: seq<Packet>, log: seq<BusEvent>)
    requires LoopState(template, line0, log0, start, ps, n, k, j, synced, rxs, cur, packets, log)
    ensures var lo, hi := VOSPI_FRAME_SIZE * line0, VOSPI_FRAME_SIZE * (line0 + ROWS);
      cur[..lo] == start[..lo] && cur[hi..] == start[hi..]
    ensures packets == [] && j < ROWS ==> |ps| < n + ROWS
    ensures j == ROWS ==>
      && n + ROWS <= |ps| && k == n + ROWS
      && cur == start[..VOSPI_FRAME_SIZE * line0] + Flatten(ps[n .. n + ROWS])
                + start[VOSPI_FRAME_SIZE * (line0 + ROWS)..]
  {
    var lo, hi := VOSPI_FRAME_SIZE * line0, VOSPI_FRAME_SIZE * (line0 + ROWS);
    if synced {
      ExpectedKeeps(start, lo, ps, n, k, j);
    } else {
      assert cur[hi..] == cur[lo + VOSPI_FRAME_SIZE..][hi - lo - VOSPI_FRAME_SIZE..];
      assert start[hi..] == start[lo + VOSPI_FRAME_SIZE..][hi - lo - VOSPI_FRAME_SIZE..];
    }
  }

  /** While unsynced, the loop's test on the word just received holds exactly at packet n. */
  lemma UnsyncedTest(template: Transfer, line0: nat, log0: seq<BusEvent>, start: seq<Word>,
                     ps: seq<Packet>, n: nat, k: nat, j: nat, synced: bool, rxs: nat,
                     cur: seq<Word>, packets: seq<Packet>, log: seq<BusEvent>, next: seq<Word>)
    requires LoopState(template, line0, log0, start, ps, n, k, j, synced, rxs, cur, packets, log)
    requires !synced && packets != [] && n == LeadingDiscards(ps)
    requires rxs % 2 == 0 && rxs / 2 + VOSPI_FRAME_SIZE <= |cur|
    requires next == Splice(cur, rxs / 2, packets[0])
    ensures VOSPI_FRAME_SIZE * line0 < |next|
    ensures !IsDiscard(next[VOSPI_FRAME_SIZE * line0]) <==> k == n
  {
    UnsyncedLoopStep(template, line0, log0, start, ps, n, k, j, synced, rxs, cur, packets, log, true);
    assert packets[0] == ps[k];
    SyncPoint(ps, k);
  }

  /** One iteration of the loop, from state (k, j, synced, rxs, cur) to state (k', j', synced',
      rxs', cur'): the transfer receives the next packet at byte rxs; the loop is synced from then
      on iff it was or its test holds, the test holding exactly at packet n; once synced it moves
      on to the next line. */
  lemma LoopStep(template: Transfer, line0: nat, log0: seq<BusEvent>, start: seq<Word>,
                 ps: seq<Packet>, n: nat, k: nat, j: nat, synced: bool, rxs: nat,
                 cur: seq<Word>, packets: seq<Packet>, log: seq<BusEvent>, test: bool,
                 k': nat, j': nat, synced': bool, rxs': nat,
                 cur': seq<Word>, packets': seq<Packet>, log': seq<BusEvent>)
    requires LoopState(template, line0, log0, start, ps, n, k, j, synced, rxs, cur, packets, log)
    requires j < ROWS && packets != [] && (!synced ==> (test <==> k == n))
    requires rxs % 2 == 0 && rxs / 2 + VOSPI_FRAME_SIZE <= |cur|
    requires cur' == Splice(cur, rxs / 2, packets[0]) && packets' == packets[1..]
    requires log' == log + [Xfer(template.(rxBuf := rxs))]
    requires k' == k + 1 && synced' == (synced || test)
    requires j' == (if synced' then j + 1 else j)
    requires rxs' == (if synced' then rxs + VOSPI_FRAME_SIZE_BYTES else rxs)
    ensures LoopState(template, line0, log0, start, ps, n, k', j', synced', rxs', cur', packets', log')
  {
    if synced {
      SyncedLoopStep(template, line0, log0, start, ps, n, k, j, synced, rxs, cur, packets, log);
    } else {
      UnsyncedLoopStep(template, line0, log0, start, ps, n, k, j, synced, rxs, cur, packets, log, test);
    }
  }

  /** Runs the loop of lepton/Lepton.py (and of pylepton/Lepton.py once its test reads the
      buffer being filled) on the segment whose first line is line0 of `buf`, issuing `template`
      with rx_buf set to the current line's byte offset. The discard test reads word 0 of that
      first line, which is what the transfer just wrote while the loop is unsynced. */
  method SyncAndFill(bus: SpiBus, buf: array<Word>, line0: nat, template: Transfer) returns (ok: bool)
    requires (line0 + ROWS) * VOSPI_FRAME_SIZE <= buf.Length
    requires template.len == VOSPI_FRAME_SIZE_BYTES
    modifies bus, buf
    ensures ok <==> Fills(old(bus.packets))
    ensures ok ==>
      var ps, n := old(bus.packets), LeadingDiscards(old(bus.packets));
      && bus.packets == ps[n + ROWS..]
      && bus.log == old(bus.log) + SyncLog(template, line0, n, n + ROWS)
      && buf[..] == old(buf[..])[..VOSPI_FRAME_SIZE * line0] + Flatten(SegmentLines(ps))
                    + old(buf[..])[VOSPI_FRAME_SIZE * (line0 + ROWS)..]
    ensures !ok ==> bus.packets == []
    ensures buf[..VOSPI_FRAME_SIZE * line0] == old(buf[..VOSPI_FRAME_SIZE * line0])
    ensures buf[VOSPI_FRAME_SIZE * (line0 + ROWS)..] == old(buf[VOSPI_FRAME_SIZE * (line0 + ROWS)..])
  {
    ghost var ps := bus.packets;
    ghost var n := LeadingDiscards(ps);
    ghost var start := buf[..];
    ghost var k, j := 0, 0;   // packets consumed, lines filled
    var rxs: nat := VOSPI_FRAME_SIZE_BYTES * line0;
    var rxsEnd := rxs + ROWS * VOSPI_FRAME_SIZE_BYTES;
    var synced := false;
    ok := true;
    while rxs < rxsEnd
      invariant LoopState(template, line0, old(bus.log), start, ps, n, k, j, synced, rxs, buf[..], bus.packets, bus.log)
      decreases |bus.packets|
    {
      LoopOffset(template, line0, old(bus.log), start, ps, n, k, j, synced, rxs, buf[..], bus.packets, bus.log);
      ghost var cur, packets, log := buf[..], bus.packets, bus.log;
      ok := bus.Exchange(template.(rxBuf := rxs), buf);
      if !ok {
        LoopExit(template, line0, old(bus.log), start, ps, n, k, j, synced, rxs, buf[..], bus.packets, bus.log);
        return;
      }
      ghost var test := !IsDiscard(buf[VOSPI_FRAME_SIZE * line0]);
      ghost var k0, j0, synced0, rxs0 := k, j, synced, rxs;
      if !synced {
        UnsyncedTest(template, line0, old(bus.log), start, ps, n, k, j, synced, rxs, cur, packets, log, buf[..]);
      }
      if synced || !IsDiscard(buf[VOSPI_FRAME_SIZE * line0]) {
        synced := true;
        rxs := rxs + VOSPI_FRAME_SIZE_BYTES;
        j := j + 1;
      }
      k := k + 1;
      LoopStep(template, line0, old(bus.log), start, ps, n, k0, j0, synced0, rxs0, cur, packets, log, test,
               k, j, synced, rxs, buf[..], bus.packets, bus.log);
    }
    LoopExit(template, line0, old(bus.log), start, ps, n, k, j, synced, rxs, buf[..], bus.packets, bus.log);
  }

  /** The loop of pylepton/Lepton.py as written: the discard test reads `probe`, a word of the
      output buffer that no transfer writes, so the loop syncs on the first packet whatever it
      holds when the probe is not a discard, and never syncs when it is. */
  method SyncAndFillAsWritten(bus: SpiBus, buf: array<Word>, line0: nat, template: Transfer, probe: Word)
      returns (ok: bool)
    requires (line0 + ROWS) * VOSPI_FRAME_SIZE <= buf.Length
    requires template.len == VOSPI_FRAME_SIZE_BYTES
    modifies bus, buf
    ensures ok <==> !IsDiscard(probe) && ROWS <= |old(bus.packets)|
    ensures ok ==>
      var ps := old(bus.packets);
      && bus.packets == ps[ROWS..]
      && bus.log == old(bus.log) + SyncLog(template, line0, 0, ROWS)
      && buf[..] == old(buf[..])[..VOSPI_FRAME_SIZE * line0] + Flatten(ps[..ROWS])
                    + old(buf[..])[VOSPI_FRAME_SIZE * (line0 + ROWS)..]
    ensures !ok ==> bus.packets == []
  {
    ghost var ps := bus.packets;
    ghost var n := if IsDiscard(probe) then |ps| else 0;
    ghost var start := buf[..];
    ghost var k, j := 0, 0;
    var rxs: nat := VOSPI_FRAME_SIZE_BYTES * line0;
    var rxsEnd := rxs + ROWS * VOSPI_FRAME_SIZE_BYTES;
    var synced := false;
    ok := true;
    while rxs < rxsEnd
      invariant LoopState(template, line0, old(bus.log), start, ps, n, k, j, synced, rxs, buf[..], bus.packets, bus.log)
      decreases |bus.packets|
    {
      LoopOffset(template, line0, old(bus.log), start, ps, n, k, j, synced, rxs, buf[..], bus.packets, bus.log);
      ghost var cur, packets, log := buf[..], bus.packets, bus.log;
      ok := bus.Exchange(template.(rxBuf := rxs), buf);
      if !ok {
        LoopExit(template, line0, old(bus.log), start, ps, n, k, j, synced, rxs, buf[..], bus.packets, bus.log);
        return;
      }
      ghost var k0, j0, synced0, rxs0 := k, j, synced, rxs;
      if synced || !IsDiscard(probe) {
        synced := true;
        rxs := rxs + VOSPI_FRAME_SIZE_BYTES;
        j := j + 1;
      }
      k := k + 1;
      LoopStep(template, line0, old(bus.log), start, ps, n, k0, j0, synced0, rxs0, cur, packets, log,
               !IsDiscard(probe), k, j, synced, rxs, buf[..], bus.packets, bus.log);
    }
    LoopExit(template, line0, old(bus.log), start, ps, n, k, j, synced, rxs, buf[..], bus.packets, bus.log);
    assert ps[0..ROWS] == ps[..ROWS];
  }
}
