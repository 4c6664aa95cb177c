/**
 * The part of numpy the drivers rely on: C-contiguous uint16 arrays with a shape, an item size
 * and a flat data buffer; assignment of the `shape` attribute; broadcasting of a slice
 * assignment; the in-place byte swap; and the two header-stripping copies the drivers perform.
 */
module NdArrays {
  import opened VoSpi

  /** The number of elements of an array of the given shape. */
  function Prod(shape: seq<nat>): nat
  {
    if shape == [] then 1 else shape[0] * Prod(shape[1..])
  }

  lemma {:induction false} ProdAppend(a: seq<nat>, b: seq<nat>)
    ensures Prod(a + b) == Prod(a) * Prod(b)
    decreases |a|
  {
    if a != [] {
      assert (a + b)[1..] == a[1..] + b;
      ProdAppend(a[1..], b);
    } else {
      assert a + b == b;
    }
  }

  lemma ProdOfThree(a: nat, b: nat, c: nat)
    ensures Prod([a, b, c]) == a * b * c
  {
    assert [a, b, c][1..] == [b, c] && [b, c][1..] == [c] && [c][1..] == [];
    assert Prod([c]) == c;
    assert Prod([b, c]) == b * c;
  }

  lemma ProdOfTwo(a: nat, b: nat)
    ensures Prod([a, b]) == a * b
  {
    assert [a, b][1..] == [b] && [b][1..] == [];
    assert Prod([b]) == b;
  }

  /** numpy's rule for `dst[...] = src`: aligned from the last axis, every axis of `src` equals
      the target's or is 1, and any axes `src` has beyond the target's rank are 1. */
  predicate CanBroadcastInto(src: seq<nat>, dst: seq<nat>)
    decreases |src|
  {
    if src == [] then true
    else if dst == [] then src[|src| - 1] == 1 && CanBroadcastInto(src[..|src| - 1], [])
    else
      (src[|src| - 1] == dst[|dst| - 1] || src[|src| - 1] == 1)
      && CanBroadcastInto(src[..|src| - 1], dst[..|dst| - 1])
  }

  /** A source broadcasts into a target iff its last axis fits the target's and the rest of it
      broadcasts into the rest of the target. */
  lemma BroadcastStep(src: seq<nat>, a: nat, dst: seq<nat>, b: nat)
    ensures CanBroadcastInto(src + [a], dst + [b]) <==> (a == b || a == 1) && CanBroadcastInto(src, dst)
  {
    assert (src + [a])[..|src|] == src && (dst + [b])[..|dst|] == dst;
  }

  /** Broadcasting never changes the shape of the target, so equal shapes always broadcast. */
  lemma {:induction false} BroadcastSame(s: seq<nat>)
    ensures CanBroadcastInto(s, s)
    decreases |s|
  {
    if s != [] {
      BroadcastSame(s[..|s| - 1]);
    }
  }

  /** The result of a sum, a capture: the array and its frame id. */
  datatype Frame = Frame(buffer: NdArray, id: nat)

  /** A C-contiguous numpy array whose elements are 16-bit words; `itemSize` is the dtype's
      size in bytes, which the drivers' guards inspect. */
  class NdArray {
    var shape: seq<nat>
    var itemSize: nat
    var data: array<Word>

    ghost predicate Valid()
      reads this
    {
      data.Length == Prod(shape)
    }

    /** An array of the given shape holding `contents` in row-major order. */
    constructor (shape: seq<nat>, itemSize: nat, contents: seq<Word>)
      requires |contents| == Prod(shape)
      ensures Valid() && fresh(data)
      ensures this.shape == shape && this.itemSize == itemSize && data[..] == contents
    {
      this.shape := shape;
      this.itemSize := itemSize;
      data := new Word[|contents|](i requires 0 <= i < |contents| => contents[i]);
    }

    /** `a.nbytes` */
    function NBytes(): (n: nat)
      reads this
      ensures Valid() ==> n == data.Length * itemSize
    {
      Prod(shape) * itemSize
    }

    /** `a.shape = s`: numpy accepts a new shape of the same size and refuses any other,
        leaving the array as it was. */
    method SetShape(s: seq<nat>) returns (ok: bool)
      requires Valid()
      modifies this
      ensures Valid() && data == old(data) && itemSize == old(itemSize)
      ensures ok <==> Prod(s) == Prod(old(shape))
      ensures shape == if ok then s else old(shape)
    {
      if Prod(s) != Prod(shape) {
        return false;
      }
      shape := s;
      return true;
    }

    /** `a.byteswap(True)` */
    method ByteSwapInPlace()
      modifies data
      ensures data[..] == SwapAll(old(data[..]))
    {
      SwapInPlace(data);
    }

    /** `a.sum()`, with numpy's accumulator taken as unbounded. */
    function Total(): (s: nat)
      reads this, data
      ensures s <= 0xFFFF * data.Length
    {
      SumBound(data[..]);
      Sum(data[..])
    }
  }

  /** numpy's in-place byte swap of a uint16 buffer, element by element. */
  method SwapInPlace(a: array<Word>)
    modifies a
    ensures a[..] == SwapAll(old(a[..]))
  {
    var i := 0;
    while i < a.Length
      invariant 0 <= i <= a.Length
      invariant a[..i] == SwapAll(old(a[..]))[..i]
      invariant a[i..] == old(a[..])[i..]
    {
      assert a[i] == old(a[..])[i];
      a[i] := ByteSwap(a[i]);
      assert a[..i + 1] == a[..i] + [a[i]];
      i := i + 1;
    }
  }

  /** The payload of a buffer of VoSPI lines: each 82-word line without its ID and CRC words,
      laid end to end (`capture[:, 2:]` for a buffer of shape (lines, 82)). */
  function StripHeaders(s: seq<Word>): (r: seq<Word>)
    requires |s| % VOSPI_FRAME_SIZE == 0
    ensures |r| == COLS * (|s| / VOSPI_FRAME_SIZE)
  {
    seq(COLS * (|s| / VOSPI_FRAME_SIZE),
        i requires 0 <= i < COLS * (|s| / VOSPI_FRAME_SIZE) => s[VOSPI_FRAME_SIZE * (i / COLS) + 2 + i % COLS])
  }

  /** Word c of payload line l is word c + 2 of captured line l. */
  lemma StripWord(s: seq<Word>, l: nat, c: nat)
    requires |s| % VOSPI_FRAME_SIZE == 0 && l < |s| / VOSPI_FRAME_SIZE && c < COLS
    ensures COLS * l + c < |StripHeaders(s)|
    ensures StripHeaders(s)[COLS * l + c] == s[VOSPI_FRAME_SIZE * l + 2 + c]
  {
    var i := COLS * l + c;
    assert i / COLS == l && i % COLS == c;
  }

  /** Stripping a buffer with one more line appends that line's payload. */
  lemma StripAppend(s: seq<Word>, p: Packet)
    requires |s| % VOSPI_FRAME_SIZE == 0
    ensures |(s + p)| % VOSPI_FRAME_SIZE == 0
    ensures StripHeaders(s + p) == StripHeaders(s) + p[2..]
  {
    var m := |s| / VOSPI_FRAME_SIZE;
    assert |s| == m * VOSPI_FRAME_SIZE;
    assert |s + p| == (m + 1) * VOSPI_FRAME_SIZE;
    DivMod(m + 1, VOSPI_FRAME_SIZE, 0);
    var t, u := StripHeaders(s + p), StripHeaders(s) + p[2..];
    assert |t| == COLS * (m + 1) == |u|;
    forall i | 0 <= i < |t|
      ensures t[i] == u[i]
    {
      var l, c := i / COLS, i % COLS;
      assert i == COLS * l + c;
      if l < m {
        MulLe(l + 1, m, VOSPI_FRAME_SIZE);
        StripWord(s, l, c);
        StripWord(s + p, l, c);
      } else {
        assert l == m;
        StripWord(s + p, l, c);
        assert (s + p)[VOSPI_FRAME_SIZE * l + 2 + c] == p[2 + c];
      }
    }
  }

  /** Stripping the lines of a flattened capture is the payload of each packet in turn. */
  lemma StripFlatten(ps: seq<Packet>, l: nat, c: nat)
    requires l < |ps| && c < COLS
    ensures COLS * l + c < |StripHeaders(Flatten(ps))|
    ensures StripHeaders(Flatten(ps))[COLS * l + c] == ps[l][2 + c]
  {
    assert |Flatten(ps)| / VOSPI_FRAME_SIZE == |ps|;
    StripWord(Flatten(ps), l, c);
    FlattenWord(ps, l, 2 + c);
  }

  /** Word i of `dst` after `dst[0:60, 0:80] = cap[:, 2:]`, for a target of shape (d0, d1, d2)
      and a capture of shape (60, 82, 1): if word i is element (r, c, x) of the 60 x 80 block
      it receives payload word c of line r, broadcast along the last axis; otherwise it keeps
      its value. */
  function PasteAt(dst: seq<Word>, cap: seq<Word>, d1: nat, d2: nat, i: nat): Word
    requires |cap| == VOSPI_FRAME_SIZE * ROWS && i < |dst|
  {
    if d1 == 0 || d2 == 0 then dst[i]
    else
      var row, col := i / d2 / d1, i / d2 % d1;
      if row < ROWS && col < COLS then cap[VOSPI_FRAME_SIZE * row + 2 + col] else dst[i]
  }

  function Paste3(dst: seq<Word>, cap: seq<Word>, d1: nat, d2: nat): (r: seq<Word>)
    requires |cap| == VOSPI_FRAME_SIZE * ROWS
    ensures |r| == |dst|
  {
    seq(|dst|, i requires 0 <= i < |dst| => PasteAt(dst, cap, d1, d2, i))
  }

  lemma MulLe(a: nat, b: nat, m: nat)
    requires a <= b
    ensures a * m <= b * m
  {
  }

  /** A multiple of m is 0 or at least m away from 0. */
  lemma MultipleGap(k: int, m: nat)
    ensures k == 0 || k * m >= m || k * m + m <= 0
  {
    if k >= 1 {
      MulLe(1, k, m);
    } else if k <= -1 {
      MulLe(1, -k, m);
    }
  }

  /** Euclidean division of q * m + x by m, for x < m. */
  lemma DivMod(q: nat, m: nat, x: nat)
    requires x < m
    ensures (q * m + x) / m == q && (q * m + x) % m == x
  {
    var i := q * m + x;
    var d, r := i / m, i % m;
    assert d * m + r == q * m + x;
    assert (d - q) * m == x - r;
    MultipleGap(d - q, m);
  }

  /** The flat index of element (r, c, x) of an array of shape (d0, d1, d2) lies inside it. */
  lemma Index3(d0: nat, d1: nat, d2: nat, r: nat, c: nat, x: nat)
    requires r < d0 && c < d1 && x < d2
    ensures (r * d1 + c) * d2 + x < d0 * d1 * d2
  {
    var cell := r * d1 + c;
    assert (cell + 1) * d2 == cell * d2 + d2;
    assert (r + 1) * d1 == r * d1 + d1;
    MulLe(r + 1, d0, d1);
    MulLe(cell + 1, d0 * d1, d2);
  }

  /** Element (r, c, x) of the pasted block is payload word c of captured line r. */
  lemma Paste3Word(dst: seq<Word>, cap: seq<Word>, d0: nat, d1: nat, d2: nat, r: nat, c: nat, x: nat, i: nat)
    requires |cap| == VOSPI_FRAME_SIZE * ROWS && |dst| == d0 * d1 * d2
    requires r < ROWS <= d0 && c < COLS <= d1 && x < d2 && i == (r * d1 + c) * d2 + x
    ensures i < |dst| && Paste3(dst, cap, d1, d2)[i] == cap[VOSPI_FRAME_SIZE * r + 2 + c]
  {
    Index3(d0, d1, d2, r, c, x);
    DivMod(r * d1 + c, d2, x);
    DivMod(r, d1, c);
  }

  /** Element (r, c, x) outside the 60 x 80 block keeps its value. */
  lemma Paste3Keeps(dst: seq<Word>, cap: seq<Word>, d0: nat, d1: nat, d2: nat, r: nat, c: nat, x: nat, i: nat)
    requires |cap| == VOSPI_FRAME_SIZE * ROWS && |dst| == d0 * d1 * d2
    requires r < d0 && c < d1 && x < d2 && (ROWS <= r || COLS <= c) && i == (r * d1 + c) * d2 + x
    ensures i < |dst| && Paste3(dst, cap, d1, d2)[i] == dst[i]
  {
    Index3(d0, d1, d2, r, c, x);
    DivMod(r * d1 + c, d2, x);
    DivMod(r, d1, c);
  }

  /** Into a fresh (60, 80, 1) buffer the paste writes exactly the stripped capture. */
  lemma Paste3Full(dst: seq<Word>, cap: seq<Word>)
    requires |cap| == VOSPI_FRAME_SIZE * ROWS && |dst| == ROWS * COLS
    ensures Paste3(dst, cap, COLS, 1) == StripHeaders(cap)
  {
    var p, s := Paste3(dst, cap, COLS, 1), StripHeaders(cap);
    forall i | 0 <= i < |dst|
      ensures p[i] == s[i]
    {
      assert i / 1 == i;
    }
  }

  /** `dst[0:60, 0:80] = cap[:, 2:]` in place, for a rank-3 target. */
  method PastePayload(dst: NdArray, cap: array<Word>)
    requires dst.Valid() && |dst.shape| == 3 && cap.Length == VOSPI_FRAME_SIZE * ROWS
    requires dst.data != cap
    modifies dst.data
    ensures dst.data[..] == Paste3(old(dst.data[..]), cap[..], dst.shape[1], dst.shape[2])
  {
    var pasted := Paste3(dst.data[..], cap[..], dst.shape[1], dst.shape[2]);
    ghost var source := cap[..];
    forall i | 0 <= i < dst.data.Length {
      dst.data[i] := pasted[i];
    }
    assert cap[..] == source;
    assert dst.data[..] == pasted;
  }

  /** `dst[:, :] = cap[:, 2:]` for a target of shape (lines, 80). */
  method StripInto(dst: array<Word>, cap: array<Word>)
    requires cap.Length % VOSPI_FRAME_SIZE == 0 && dst.Length == COLS * (cap.Length / VOSPI_FRAME_SIZE)
    requires dst != cap
    modifies dst
    ensures dst[..] == StripHeaders(cap[..])
  {
    forall i | 0 <= i < dst.Length {
      dst[i] := cap[VOSPI_FRAME_SIZE * (i / COLS) + 2 + i % COLS];
    }
  }
}
