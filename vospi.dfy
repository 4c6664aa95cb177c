/**
 * Words, packets, transfer descriptors and error kinds shared by the FLIR Lepton drivers:
 * the constants of the Lepton class, the 16-bit word tests and the byte swap, and the
 * sequence functions (flattening of captured lines, the pixel sum used as a frame id).
 */
module VoSpi {

  /** One 16-bit word as it sits in a numpy uint16 buffer. */
  type Word = bv16

  const ROWS: nat := 60
  const COLS: nat := 80
  /** Words per VoSPI packet: an ID word, a CRC word and COLS payload words. */
  const VOSPI_FRAME_SIZE: nat := 82
  const VOSPI_FRAME_SIZE_BYTES: nat := 164
  const MODE: nat := 0
  const BITS: nat := 8
  const SPEED: nat := 18000000

  /** What one 164-byte SPI transfer writes into a capture buffer. */
  type Packet = p: seq<Word> | |p| == VOSPI_FRAME_SIZE witness seq(VOSPI_FRAME_SIZE, _ => 0)

  /** The fields of the kernel's `struct spi_ioc_transfer` that the drivers set (paddings are
      always zero and left out). Buffer addresses are byte offsets into the buffer concerned. */
  datatype Transfer = Transfer(
    txBuf: nat, rxBuf: nat, len: nat, speedHz: nat, delayUsecs: nat,
    bitsPerWord: nat, csChange: nat, txNbits: nat, rxNbits: nat)

  /** The descriptor both Lepton classes pack before each read: 164 bytes received at byte
      offset rxs, at SPEED and BITS per word, without a chip-select change, with BITS as the
      transmit and receive bus widths. */
  function LineTransfer(rxs: nat): Transfer
  {
    Transfer(0, rxs, VOSPI_FRAME_SIZE_BYTES, SPEED, 0, BITS, 0, BITS, BITS)
  }

  /** What the SPI bus observes: a completed transfer, or a blocking sleep of `ms` milliseconds. */
  datatype BusEvent = Xfer(t: Transfer) | Sleep(ms: nat)

  /** The exceptions the drivers raise, plus the end of the (finite) packet stream. */
  datatype Error =
    | BufferTooSmall      // raise Exception("Provided input array not large enough")
    | NoSuchAttribute     // AttributeError
    | BroadcastMismatch   // numpy ValueError: could not broadcast
    | ReshapeMismatch     // numpy ValueError: cannot reshape
    | TooManyIndices      // numpy IndexError
    | AmbiguousTruth      // numpy ValueError: truth value of an array is ambiguous
    | StreamExhausted     // the sensor stopped sending before the loop finished
    | UnsupportedLayout   // a buffer layout numpy accepts but this model does not cover

  datatype Result<+T> = Ok(value: T) | Err(error: Error)

  /** The drivers' discard test on the ID word as it sits in the buffer: bits 8..11 all set.
      Read as the byte-swapped ID (see `PyLepton3.DiscardByteOrder`), that is the ID's lowest
      nibble. */
  predicate IsDiscard(w: Word) {
    w & 0x0F00 == 0x0F00
  }

  /** numpy's byteswap of one uint16 element. */
  function ByteSwap(w: Word): (s: Word)
    ensures s >> 8 == w & 0xFF
    ensures s & 0xFF == w >> 8
  {
    (w << 8) | (w >> 8)
  }

  lemma ByteSwapInvolution(w: Word)
    ensures ByteSwap(ByteSwap(w)) == w
  {
  }

  /** Swapping twice is the identity, so swapping is not idempotent: once differs from twice. */
  lemma ByteSwapNotIdempotent()
    ensures ByteSwap(0x0100) == 0x0001
    ensures ByteSwap(ByteSwap(0x0100)) != ByteSwap(0x0100)
  {
  }

  /** `byteswap(True)` of a whole buffer, as a function of its contents. */
  function SwapAll(s: seq<Word>): (r: seq<Word>)
    ensures |r| == |s|
  {
    seq(|s|, i requires 0 <= i < |s| => ByteSwap(s[i]))
  }

  lemma SwapAllInvolution(s: seq<Word>)
    ensures SwapAll(SwapAll(s)) == s
    ensures forall i :: 0 <= i < |s| ==> SwapAll(s)[i] == ByteSwap(s[i])
  {
    forall i | 0 <= i < |s|
      ensures SwapAll(SwapAll(s))[i] == s[i]
    {
      ByteSwapInvolution(s[i]);
    }
  }

  lemma SwapAllAppend(a: seq<Word>, b: seq<Word>)
    ensures SwapAll(a + b) == SwapAll(a) + SwapAll(b)
  {
  }

  /** The lines of a buffer laid end to end, as the memory the transfers wrote. */
  function Flatten(ps: seq<Packet>): (r: seq<Word>)
    ensures |r| == VOSPI_FRAME_SIZE * |ps| && |r| % VOSPI_FRAME_SIZE == 0
  {
    if ps == [] then [] else Flatten(ps[..|ps| - 1]) + ps[|ps| - 1]
  }

  lemma {:induction false} FlattenAppend(a: seq<Packet>, b: seq<Packet>)
    ensures Flatten(a + b) == Flatten(a) + Flatten(b)
    decreases |b|
  {
    if b == [] {
      assert a + b == a;
    } else {
      var last := |b| - 1;
      assert (a + b)[..|a + b| - 1] == a + b[..last];
      FlattenAppend(a, b[..last]);
    }
  }

  /** Line l of a flattened buffer is the l-th packet. */
  lemma {:induction false} FlattenLine(ps: seq<Packet>, l: nat)
    requires l < |ps|
    ensures VOSPI_FRAME_SIZE * (l + 1) <= |Flatten(ps)|
    ensures Flatten(ps)[VOSPI_FRAME_SIZE * l .. VOSPI_FRAME_SIZE * (l + 1)] == ps[l]
  {
    assert ps == ps[..l] + [ps[l]] + ps[l + 1..];
    FlattenAppend(ps[..l] + [ps[l]], ps[l + 1..]);
    FlattenAppend(ps[..l], [ps[l]]);
    assert [ps[l]][..0] == [];
  }

  /** Word c of line l of a flattened buffer. */
  lemma FlattenWord(ps: seq<Packet>, l: nat, c: nat)
    requires l < |ps| && c < VOSPI_FRAME_SIZE
    ensures Flatten(ps)[VOSPI_FRAME_SIZE * l + c] == ps[l][c]
  {
    FlattenLine(ps, l);
    var f, lo := Flatten(ps), VOSPI_FRAME_SIZE * l;
    assert lo + VOSPI_FRAME_SIZE == VOSPI_FRAME_SIZE * (l + 1);
    assert f[lo .. lo + VOSPI_FRAME_SIZE][c] == f[lo + c];
  }

  /** numpy's `sum()` of a uint16 buffer, as an unbounded natural number. */
  function Sum(s: seq<Word>): nat
  {
    if s == [] then 0 else Sum(s[..|s| - 1]) + s[|s| - 1] as nat
  }

  lemma {:induction false} SumAppend(a: seq<Word>, b: seq<Word>)
    ensures Sum(a + b) == Sum(a) + Sum(b)
    decreases |b|
  {
    if b != [] {
      assert (a + b)[..|a + b| - 1] == a + b[..|b| - 1];
      SumAppend(a, b[..|b| - 1]);
    } else {
      assert a + b == a;
    }
  }

  /** An all-zero frame has id 0. */
  lemma {:induction false} SumZero(s: seq<Word>)
    requires forall i :: 0 <= i < |s| ==> s[i] == 0
    ensures Sum(s) == 0
  {
    if s != [] {
      SumZero(s[..|s| - 1]);
    }
  }

  /** A frame whose only non-zero sample is v has id v. */
  lemma SumSingle(s: seq<Word>, k: nat)
    requires k < |s|
    requires forall i :: 0 <= i < |s| && i != k ==> s[i] == 0
    ensures Sum(s) == s[k] as nat
  {
    assert s == s[..k] + [s[k]] + s[k + 1..];
    SumAppend(s[..k] + [s[k]], s[k + 1..]);
    SumAppend(s[..k], [s[k]]);
    SumZero(s[..k]);
    SumZero(s[k + 1..]);
    assert [s[k]][..0] == [];
  }

  /** The frame id never exceeds 0xFFFF per sample, so a 19200-sample frame fits in 32 bits
      and numpy's accumulator does not wrap. */
  lemma {:induction false} SumBound(s: seq<Word>)
    ensures Sum(s) <= 0xFFFF * |s|
  {
    if s != [] {
      SumBound(s[..|s| - 1]);
    }
  }
}
