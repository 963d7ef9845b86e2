/** The frame transforms of the codec node, as they run on byte arrays. */
module Transforms {
  import opened Symmetry
  import opened SemiPlanar

  // ---------------------------------------------------------------- raster progress

  /** The cells before row j, column i, in raster order. */
  function Raster<T>(g: Grid<T>, j: nat, i: nat): seq<T>
    requires if j < |g| then i <= |g[j]| else j == |g| && i == 0
  {
    Flatten(g[..j]) + (if j < |g| then g[j][..i] else [])
  }

  lemma RasterStep<T>(g: Grid<T>, j: nat, i: nat)
    requires j < |g| && i < |g[j]|
    ensures Raster(g, j, i + 1) == Raster(g, j, i) + [g[j][i]]
  {
  }

  lemma RasterNextRow<T>(g: Grid<T>, j: nat)
    requires j < |g|
    ensures Raster(g, j, |g[j]|) == Raster(g, j + 1, 0)
  {
    assert g[..j + 1][..j] == g[..j];
  }

  lemma RasterWhole<T>(g: Grid<T>)
    ensures Raster(g, |g|, 0) == Flatten(g)
  {
    assert g[..|g|] == g;
  }

  lemma RasterLength<T>(g: Grid<T>, w: nat, h: nat, j: nat, i: nat)
    requires IsGrid(g, w, h) && (if j < h then i <= w else j == h && i == 0)
    ensures |Raster(g, j, i)| == Area(w, j) + i <= Area(w, h)
  {
    FlattenLength(g[..j], w, j);
    if j < h {
      RowBound(w, h, j);
    }
  }

  /** How the written part grows by the cell due at row j, column i of the output. */
  lemma GridStep<T>(s: Sym, g: Grid<T>, w: nat, h: nat, j: nat, i: nat)
    requires IsGrid(g, w, h) && j < OutHeight(s, w, h) && i < OutWidth(s, w, h)
    ensures Raster(Apply(s, g, w, h), j, i + 1)
         == Raster(Apply(s, g, w, h), j, i) + [g[SrcRow(s, w, h, j, i)][SrcCol(s, w, h, j, i)]]
  {
    var out := Apply(s, g, w, h);
    RasterStep(out, j, i);
    assert out[j] == ApplyRow(s, g, w, h, j);
  }

  lemma GridRoom<T>(s: Sym, g: Grid<T>, w: nat, h: nat, j: nat, i: nat)
    requires IsGrid(g, w, h) && j < OutHeight(s, w, h) && i < OutWidth(s, w, h)
    ensures |Raster(Apply(s, g, w, h), j, i)| < Area(w, h)
  {
    RasterLength(Apply(s, g, w, h), OutWidth(s, w, h), OutHeight(s, w, h), j, i);
    RowBound(OutWidth(s, w, h), OutHeight(s, w, h), j);
    AreaSwaps(w, h);
  }

  ghost function LumaOut(s: Sym, buf: seq<Byte>, w: nat, h: nat): (g: Grid<Byte>)
    requires |buf| == FrameLen(w, h)
    ensures IsGrid(g, OutWidth(s, w, h), OutHeight(s, w, h))
  {
    Apply(s, Decode(buf, w, h).luma, w, h)
  }

  /** The byte a luma loop must write at output cell (j, i), and where it lies. */
  lemma LumaStep(s: Sym, buf: seq<Byte>, w: nat, h: nat, j: nat, i: nat)
    requires |buf| == FrameLen(w, h) && j < OutHeight(s, w, h) && i < OutWidth(s, w, h)
    ensures Area(w, SrcRow(s, w, h, j, i)) + SrcCol(s, w, h, j, i) < FrameLen(w, h)
    ensures Raster(LumaOut(s, buf, w, h), j, i + 1) == Raster(LumaOut(s, buf, w, h), j, i)
              + [buf[Area(w, SrcRow(s, w, h, j, i)) + SrcCol(s, w, h, j, i)]]
    ensures |Raster(LumaOut(s, buf, w, h), j, i)| < FrameLen(w, h)
  {
    CellAt(buf[..Area(w, h)], w, h, SrcRow(s, w, h, j, i), SrcCol(s, w, h, j, i));
    GridStep(s, Decode(buf, w, h).luma, w, h, j, i);
    GridRoom(s, Decode(buf, w, h).luma, w, h, j, i);
  }

  ghost function ChromaOut(s: Sym, buf: seq<Byte>, w: nat, h: nat): (g: Grid<Pair>)
    requires |buf| == FrameLen(w, h)
    ensures IsGrid(g, OutWidth(s, w / 2, h / 2), OutHeight(s, w / 2, h / 2))
  {
    Apply(s, Decode(buf, w, h).chroma, w / 2, h / 2)
  }

  /** The whole luma plane, then the chroma pairs before row j, column i. */
  ghost function ChromaDone(s: Sym, buf: seq<Byte>, w: nat, h: nat, j: nat, i: nat): seq<Byte>
    requires |buf| == FrameLen(w, h)
    requires var (pw, ph) := (OutWidth(s, w / 2, h / 2), OutHeight(s, w / 2, h / 2));
      if j < ph then i <= pw else j == ph && i == 0
  {
    Flatten(LumaOut(s, buf, w, h)) + Unpair(Raster(ChromaOut(s, buf, w, h), j, i))
  }

  lemma {:induction false} AreaDoubles(w: nat, r: nat)
    requires w % 2 == 0
    ensures Area(w, r) == 2 * Area(w / 2, r)
  {
    if r > 0 {
      AreaDoubles(w, r - 1);
    }
  }

  /** The pair at row r, column c of the chroma plane lies at byte ChromaAt(..). */
  function ChromaAt(w: nat, h: nat, r: nat, c: nat): nat {
    Area(w, h) + Area(w, r) + 2 * c
  }

  lemma PairAt(buf: seq<Byte>, start: nat, k: nat)
    requires start <= |buf| && (|buf| - start) % 2 == 0 && 2 * k + 1 < |buf| - start
    ensures Pairs(buf[start..])[k] == (buf[start + 2 * k], buf[start + 2 * k + 1])
  {
  }

  lemma ChromaCellAt(buf: seq<Byte>, w: nat, h: nat, r: nat, c: nat)
    requires |buf| == FrameLen(w, h) && w % 2 == 0 && r < h / 2 && c < w / 2
    ensures ChromaAt(w, h, r, c) + 1 < FrameLen(w, h)
    ensures Decode(buf, w, h).chroma[r][c] == (buf[ChromaAt(w, h, r, c)], buf[ChromaAt(w, h, r, c) + 1])
  {
    var pairs := Pairs(buf[Area(w, h)..]);
    var k := Area(w / 2, r) + c;
    CellAt(pairs, w / 2, h / 2, r, c);
    assert Decode(buf, w, h).chroma[r][c] == pairs[k];
    PairAt(buf, Area(w, h), k);
    AreaDoubles(w, r);
  }

  lemma UnpairStep(ps: seq<Pair>, p: Pair)
    ensures Unpair(ps + [p]) == Unpair(ps) + [p.0, p.1]
  {
    assert (ps + [p])[..|ps|] == ps;
  }

  lemma ChromaRoom(s: Sym, buf: seq<Byte>, w: nat, h: nat, j: nat, i: nat)
    requires |buf| == FrameLen(w, h)
    requires j < OutHeight(s, w / 2, h / 2) && i < OutWidth(s, w / 2, h / 2)
    ensures |ChromaDone(s, buf, w, h, j, i)| + 1 < FrameLen(w, h)
  {
    GridRoom(s, Decode(buf, w, h).chroma, w / 2, h / 2, j, i);
    FlattenLength(LumaOut(s, buf, w, h), OutWidth(s, w, h), OutHeight(s, w, h));
    AreaSwaps(w, h);
  }

  /** The pair a chroma loop must write at output cell (j, i), and where it lies. */
  lemma ChromaStep(s: Sym, buf: seq<Byte>, w: nat, h: nat, j: nat, i: nat)
    requires |buf| == FrameLen(w, h) && w % 2 == 0
    requires j < OutHeight(s, w / 2, h / 2) && i < OutWidth(s, w / 2, h / 2)
    ensures |ChromaDone(s, buf, w, h, j, i)| + 1 < FrameLen(w, h)
    ensures
      var at := ChromaAt(w, h, SrcRow(s, w / 2, h / 2, j, i), SrcCol(s, w / 2, h / 2, j, i));
      && at + 1 < FrameLen(w, h)
      && ChromaDone(s, buf, w, h, j, i + 1) == ChromaDone(s, buf, w, h, j, i) + [buf[at], buf[at + 1]]
  {
    hide FrameLen, Decode, Apply, Raster, Flatten, Unpair, ChromaAt;
    var r, c := SrcRow(s, w / 2, h / 2, j, i), SrcCol(s, w / 2, h / 2, j, i);
    ChromaRoom(s, buf, w, h, j, i);
    ChromaCellAt(buf, w, h, r, c);
    GridStep(s, Decode(buf, w, h).chroma, w / 2, h / 2, j, i);
    UnpairStep(Raster(ChromaOut(s, buf, w, h), j, i), Decode(buf, w, h).chroma[r][c]);
  }

  lemma LumaRow(s: Sym, buf: seq<Byte>, w: nat, h: nat, j: nat)
    requires |buf| == FrameLen(w, h) && j < OutHeight(s, w, h)
    ensures Raster(LumaOut(s, buf, w, h), j, OutWidth(s, w, h)) == Raster(LumaOut(s, buf, w, h), j + 1, 0)
  {
    RasterNextRow(LumaOut(s, buf, w, h), j);
  }

  lemma ChromaRow(s: Sym, buf: seq<Byte>, w: nat, h: nat, j: nat)
    requires |buf| == FrameLen(w, h) && j < OutHeight(s, w / 2, h / 2)
    ensures ChromaDone(s, buf, w, h, j, OutWidth(s, w / 2, h / 2)) == ChromaDone(s, buf, w, h, j + 1, 0)
  {
    RasterNextRow(ChromaOut(s, buf, w, h), j);
  }

  lemma LumaStart(s: Sym, buf: seq<Byte>, w: nat, h: nat)
    requires |buf| == FrameLen(w, h)
    ensures Raster(LumaOut(s, buf, w, h), 0, 0) == []
  {
  }

  /** Between the two planes. */
  lemma LumaComplete(s: Sym, buf: seq<Byte>, w: nat, h: nat)
    requires |buf| == FrameLen(w, h)
    ensures Raster(LumaOut(s, buf, w, h), OutHeight(s, w, h), 0) == ChromaDone(s, buf, w, h, 0, 0)
  {
    RasterWhole(LumaOut(s, buf, w, h));
  }

  lemma ChromaComplete(s: Sym, buf: seq<Byte>, w: nat, h: nat)
    requires |buf| == FrameLen(w, h)
    ensures ChromaDone(s, buf, w, h, OutHeight(s, w / 2, h / 2), 0) == Transform(s, buf, w, h)
    ensures |Transform(s, buf, w, h)| == FrameLen(w, h)
  {
    RasterWhole(ChromaOut(s, buf, w, h));
    TransformLen(s, buf, w, h);
  }

  /** Where the chroma plane starts. */
  lemma LumaLength(s: Sym, buf: seq<Byte>, w: nat, h: nat)
    requires |buf| == FrameLen(w, h)
    ensures |ChromaDone(s, buf, w, h, 0, 0)| == Area(w, h) <= FrameLen(w, h)
  {
    FlattenLength(LumaOut(s, buf, w, h), OutWidth(s, w, h), OutHeight(s, w, h));
    AreaSwaps(w, h);
  }

  // ---------------------------------------------------------------- the loops

  /** Every index below n, once. */
  ghost function Once(n: nat): multiset<nat> {
    if n == 0 then multiset{} else Once(n - 1) + multiset{n - 1}
  }

  lemma OnceNone()
    ensures Once(0) == multiset{}
  {
  }

  lemma OnceMore(n: nat)
    ensures Once(n + 1) == Once(n) + multiset{n}
  {
  }

  lemma {:induction false} OnceMeans(n: nat)
    ensures forall k: nat :: Once(n)[k] == if k < n then 1 else 0
  {
    if n > 0 {
      OnceMeans(n - 1);
    }
  }

  /** The array holds `done`, and beyond it what it held before. */
  ghost predicate WrittenSoFar(now: seq<Byte>, was: seq<Byte>, done: seq<Byte>) {
    |done| <= |was| && now == done + was[|done|..]
  }

  lemma WroteNothing(was: seq<Byte>)
    ensures WrittenSoFar(was, was, [])
  {
  }

  lemma WroteOne(now: seq<Byte>, was: seq<Byte>, done: seq<Byte>, b: Byte)
    requires WrittenSoFar(now, was, done) && |done| < |now|
    ensures |now| == |was| && WrittenSoFar(now[|done| := b], was, done + [b])
  {
  }

  lemma WroteTwo(now: seq<Byte>, was: seq<Byte>, done: seq<Byte>, a: Byte, b: Byte)
    requires WrittenSoFar(now, was, done) && |done| + 1 < |now|
    ensures
      var n := |done|;
      && |now| == |was| && now[n := a][n + 1 := b] == now[n + 1 := b][n := a]
      && WrittenSoFar(now[n := a][n + 1 := b], was, done + [a, b])
  {
    WroteOne(now, was, done, a);
    WroteOne(now[|done| := a], was, done + [a], b);
    assert done + [a] + [b] == done + [a, b];
  }

  lemma WroteAll(now: seq<Byte>, was: seq<Byte>, done: seq<Byte>)
    requires WrittenSoFar(now, was, done)
    ensures |now| == |was| && now[..|done|] == done
    ensures forall k :: |done| <= k < |now| ==> now[k] == was[k]
  {
  }

  // The methods below carry `written`, which is there for the proofs only: how often each
  // index has been written.  It grows where a byte is written, and only there.

  /** Writes the next byte, at index n. */
  method WriteByte(dst: array<Byte>, n: nat, b: Byte, ghost was: seq<Byte>, ghost done: seq<Byte>,
                   ghost written0: multiset<nat>)
    returns (ghost written: multiset<nat>)
    requires WrittenSoFar(dst[..], was, done) && |done| == n < dst.Length && written0 == Once(n)
    modifies dst
    ensures WrittenSoFar(dst[..], was, done + [b]) && written == Once(n + 1)
  {
    hide WrittenSoFar, Once;
    WroteOne(dst[..], was, done, b);
    OnceMore(n);
    dst[n] := b;
    written := written0 + multiset{n};
  }

  /** Writes the next pair, its bytes at n and n + 1. */
  method WritePair(dst: array<Byte>, n: nat, a: Byte, b: Byte, ghost was: seq<Byte>, ghost done: seq<Byte>,
                   ghost written0: multiset<nat>)
    returns (ghost written: multiset<nat>)
    requires WrittenSoFar(dst[..], was, done) && |done| == n && n + 1 < dst.Length && written0 == Once(n)
    modifies dst
    ensures WrittenSoFar(dst[..], was, done + [a, b]) && written == Once(n + 2)
  {
    hide WrittenSoFar, Once;
    WroteTwo(dst[..], was, done, a, b);
    OnceMore(n);
    OnceMore(n + 1);
    dst[n] := a;
    written := written0 + multiset{n};
    dst[n + 1] := b;
    written := written + multiset{n + 1};
  }

  /** The same, the second byte first. */
  method WritePairBack(dst: array<Byte>, n: nat, a: Byte, b: Byte, ghost was: seq<Byte>, ghost done: seq<Byte>,
                       ghost written0: multiset<nat>)
    returns (ghost written: multiset<nat>)
    requires WrittenSoFar(dst[..], was, done) && |done| == n && n + 1 < dst.Length && written0 == Once(n)
    modifies dst
    ensures WrittenSoFar(dst[..], was, done + [a, b]) && written == Once(n + 2)
  {
    hide WrittenSoFar, Once;
    WroteTwo(dst[..], was, done, a, b);
    OnceMore(n);
    OnceMore(n + 1);
    dst[n + 1] := b;
    written := written0 + multiset{n + 1};
    dst[n] := a;
    written := written + multiset{n};
  }

  method Product(width: nat, height: nat) returns (size: nat)
    ensures size == Area(width, height)
  {
    AreaIsProduct(width, height);
    size := width * height;
  }

  method Yuv420RotRight90Luma(dst: array<Byte>, src: array<Byte>, width: nat, height: nat)
    returns (n: nat, ghost written: multiset<nat>)
    requires dst != src && FrameLen(width, height) <= src.Length && FrameLen(width, height) <= dst.Length
    modifies dst
    ensures n == Area(width, height) <= FrameLen(width, height) && written == Once(n)
    ensures WrittenSoFar(dst[..], old(dst[..]),
                         ChromaDone(RIGHT90, src[..FrameLen(width, height)], width, height, 0, 0))
    ensures |ChromaDone(RIGHT90, src[..FrameLen(width, height)], width, height, 0, 0)| == n
  {
    hide LumaOut, ChromaOut, ChromaDone, Raster, FrameLen, Transform, Flatten, Unpair, Decode, Once, WrittenSoFar;
    ghost var len := FrameLen(width, height);
    ghost var buf, was := src[..len], dst[..];
    LumaStart(RIGHT90, buf, width, height);
    n, written := 0, multiset{};
    OnceNone();
    WroteNothing(was);
    var size := Product(width, height);
    var pos := 0;
    for j := 0 to width
      invariant WrittenSoFar(dst[..], was, Raster(LumaOut(RIGHT90, buf, width, height), j, 0))
      invariant n == |Raster(LumaOut(RIGHT90, buf, width, height), j, 0)| && written == Once(n)
    {
      pos := size;
      for i := 0 to height
        invariant pos == Area(width, height - i)
        invariant WrittenSoFar(dst[..], was, Raster(LumaOut(RIGHT90, buf, width, height), j, i))
        invariant n == |Raster(LumaOut(RIGHT90, buf, width, height), j, i)| && written == Once(n)
      {
        pos := pos - width;
        LumaStep(RIGHT90, buf, width, height, j, i);
        ghost var done := Raster(LumaOut(RIGHT90, buf, width, height), j, i);
        written := WriteByte(dst, n, src[pos + j], was, done, written);
        n := n + 1;
      }
      LumaRow(RIGHT90, buf, width, height, j);
    }
    LumaComplete(RIGHT90, buf, width, height);
    LumaLength(RIGHT90, buf, width, height);
  }

  method Yuv420RotRight90Chroma(dst: array<Byte>, src: array<Byte>, width: nat, height: nat, n0: nat,
                                ghost written0: multiset<nat>, ghost was: seq<Byte>)
    returns (n: nat, ghost written: multiset<nat>)
    requires width % 2 == 0
    requires dst != src && FrameLen(width, height) <= src.Length && FrameLen(width, height) <= dst.Length
    requires n0 <= FrameLen(width, height) && written0 == Once(n0)
    requires WrittenSoFar(dst[..], was, ChromaDone(RIGHT90, src[..FrameLen(width, height)], width, height, 0, 0))
    requires |ChromaDone(RIGHT90, src[..FrameLen(width, height)], width, height, 0, 0)| == n0
    modifies dst
    ensures n == FrameLen(width, height) && written == Once(n)
    ensures WrittenSoFar(dst[..], was, Transform(RIGHT90, src[..FrameLen(width, height)], width, height))
    ensures |Transform(RIGHT90, src[..FrameLen(width, height)], width, height)| == n
  {
    hide LumaOut, ChromaOut, ChromaDone, Raster, FrameLen, Transform, Flatten, Unpair, Decode, Once, WrittenSoFar;
    ghost var len := FrameLen(width, height);
    ghost var buf := src[..len];
    var temp := Product(width, height);
    n, written := n0, written0;
    var hheight := height / 2;
    var j, pos := 0, 0;
    ghost var q: nat := 0;
    while j < width
      invariant j == 2 * q <= width
      invariant WrittenSoFar(dst[..], was, ChromaDone(RIGHT90, buf, width, height, q, 0))
      invariant n == |ChromaDone(RIGHT90, buf, width, height, q, 0)| && written == Once(n)
    {
      pos := Product(width, hheight);
      for i := 0 to hheight
        invariant pos == Area(width, hheight - i)
        invariant WrittenSoFar(dst[..], was, ChromaDone(RIGHT90, buf, width, height, q, i))
        invariant n == |ChromaDone(RIGHT90, buf, width, height, q, i)| && written == Once(n)
      {
        pos := pos - width;
        ChromaStep(RIGHT90, buf, width, height, q, i);
        ghost var done := ChromaDone(RIGHT90, buf, width, height, q, i);
        written := WritePair(dst, n, src[temp + pos + j], src[temp + pos + j + 1], was, done, written);
        n := n + 2;
      }
      ChromaRow(RIGHT90, buf, width, height, q);
      j, q := j + 2, q + 1;
    }
    ChromaComplete(RIGHT90, buf, width, height);
  }

  method Yuv420RotRight90(dst: array<Byte>, src: array<Byte>, width: nat, height: nat)
    returns (ghost written: multiset<nat>)
    requires width % 2 == 0
    requires dst != src && FrameLen(width, height) <= src.Length && FrameLen(width, height) <= dst.Length
    modifies dst
    ensures forall k: nat :: written[k] == if k < FrameLen(width, height) then 1 else 0
    ensures dst[..FrameLen(width, height)] == Transform(RIGHT90, src[..FrameLen(width, height)], width, height)
    ensures forall k :: FrameLen(width, height) <= k < dst.Length ==> dst[k] == old(dst[k])
  {
    hide WrittenSoFar, Transform, FrameLen, ChromaDone, Once;
    ghost var was := dst[..];
    var n;
    n, written := Yuv420RotRight90Luma(dst, src, width, height);
    n, written := Yuv420RotRight90Chroma(dst, src, width, height, n, written, was);
    OnceMeans(n);
    WroteAll(dst[..], was, Transform(RIGHT90, src[..FrameLen(width, height)], width, height));
  }

  method Yuv420RotLeft90Luma(dst: array<Byte>, src: array<Byte>, width: nat, height: nat)
    returns (n: nat, ghost written: multiset<nat>)
    requires dst != src && FrameLen(width, height) <= src.Length && FrameLen(width, height) <= dst.Length
    modifies dst
    ensures n == Area(width, height) <= FrameLen(width, height) && written == Once(n)
    ensures WrittenSoFar(dst[..], old(dst[..]), ChromaDone(LEFT90, src[..FrameLen(width, height)], width, height, 0, 0))
    ensures |ChromaDone(LEFT90, src[..FrameLen(width, height)], width, height, 0, 0)| == n
  {
    hide LumaOut, ChromaOut, ChromaDone, Raster, FrameLen, Transform, Flatten, Unpair, Decode, Once, WrittenSoFar;
    ghost var len := FrameLen(width, height);
    ghost var buf, was := src[..len], dst[..];
    LumaStart(LEFT90, buf, width, height);
    n, written := 0, multiset{};
    OnceNone();
    WroteNothing(was);
    var pos := 0;
    for j := 0 to width
      invariant WrittenSoFar(dst[..], was, Raster(LumaOut(LEFT90, buf, width, height), j, 0))
      invariant n == |Raster(LumaOut(LEFT90, buf, width, height), j, 0)| && written == Once(n)
    {
      pos := 0;
      for i := 0 to height
        invariant pos == Area(width, i)
        invariant WrittenSoFar(dst[..], was, Raster(LumaOut(LEFT90, buf, width, height), j, i))
        invariant n == |Raster(LumaOut(LEFT90, buf, width, height), j, i)| && written == Once(n)
      {
        pos := pos + width;
        LumaStep(LEFT90, buf, width, height, j, i);
        ghost var done := Raster(LumaOut(LEFT90, buf, width, height), j, i);
        written := WriteByte(dst, n, src[pos - j - 1], was, done, written);
        n := n + 1;
      }
      LumaRow(LEFT90, buf, width, height, j);
    }
    LumaComplete(LEFT90, buf, width, height);
    LumaLength(LEFT90, buf, width, height);
  }

  method Yuv420RotLeft90Chroma(dst: array<Byte>, src: array<Byte>, width: nat, height: nat, n0: nat,
                               ghost written0: multiset<nat>, ghost was: seq<Byte>)
    returns (n: nat, ghost written: multiset<nat>)
    requires width % 2 == 0
    requires dst != src && FrameLen(width, height) <= src.Length && FrameLen(width, height) <= dst.Length
    requires n0 <= FrameLen(width, height) && written0 == Once(n0)
    requires WrittenSoFar(dst[..], was, ChromaDone(LEFT90, src[..FrameLen(width, height)], width, height, 0, 0))
    requires |ChromaDone(LEFT90, src[..FrameLen(width, height)], width, height, 0, 0)| == n0
    modifies dst
    ensures n == FrameLen(width, height) && written == Once(n)
    ensures WrittenSoFar(dst[..], was, Transform(LEFT90, src[..FrameLen(width, height)], width, height))
    ensures |Transform(LEFT90, src[..FrameLen(width, height)], width, height)| == n
  {
    hide LumaOut, ChromaOut, ChromaDone, Raster, FrameLen, Transform, Flatten, Unpair, Decode, Once, WrittenSoFar;
    ghost var len := FrameLen(width, height);
    ghost var buf := src[..len];
    var temp := Product(width, height);
    n, written := n0, written0;
    var hheight := height / 2;
    var j, pos := 0, 0;
    ghost var q: nat := 0;
    while j < width
      invariant j == 2 * q <= width
      invariant WrittenSoFar(dst[..], was, ChromaDone(LEFT90, buf, width, height, q, 0))
      invariant n == |ChromaDone(LEFT90, buf, width, height, q, 0)| && written == Once(n)
    {
      pos := 0;
      for i := 0 to hheight
        invariant pos == Area(width, i)
        invariant WrittenSoFar(dst[..], was, ChromaDone(LEFT90, buf, width, height, q, i))
        invariant n == |ChromaDone(LEFT90, buf, width, height, q, i)| && written == Once(n)
      {
        pos := pos + width;
        ChromaStep(LEFT90, buf, width, height, q, i);
        ghost var done := ChromaDone(LEFT90, buf, width, height, q, i);
        written := WritePair(dst, n, src[temp + pos - j - 2], src[temp + pos - j - 1], was, done, written);
        n := n + 2;
      }
      ChromaRow(LEFT90, buf, width, height, q);
      j, q := j + 2, q + 1;
    }
    ChromaComplete(LEFT90, buf, width, height);
  }

  method Yuv420RotLeft90(dst: array<Byte>, src: array<Byte>, width: nat, height: nat)
    returns (ghost written: multiset<nat>)
    requires width % 2 == 0
    requires dst != src && FrameLen(width, height) <= src.Length && FrameLen(width, height) <= dst.Length
    modifies dst
    ensures forall k: nat :: written[k] == if k < FrameLen(width, height) then 1 else 0
    ensures dst[..FrameLen(width, height)] == Transform(LEFT90, src[..FrameLen(width, height)], width, height)
    ensures forall k :: FrameLen(width, height) <= k < dst.Length ==> dst[k] == old(dst[k])
  {
    hide WrittenSoFar, Transform, FrameLen, ChromaDone, Once;
    ghost var was := dst[..];
    var n;
    n, written := Yuv420RotLeft90Luma(dst, src, width, height);
    n, written := Yuv420RotLeft90Chroma(dst, src, width, height, n, written, was);
    OnceMeans(n);
    WroteAll(dst[..], was, Transform(LEFT90, src[..FrameLen(width, height)], width, height));
  }

  method Yuv420spRot180Luma(dst: array<Byte>, src: array<Byte>, width: nat, height: nat)
    returns (n: nat, ghost written: multiset<nat>)
    requires dst != src && FrameLen(width, height) <= src.Length && FrameLen(width, height) <= dst.Length
    modifies dst
    ensures n == Area(width, height) <= FrameLen(width, height) && written == Once(n)
    ensures WrittenSoFar(dst[..], old(dst[..]), ChromaDone(ROT180, src[..FrameLen(width, height)], width, height, 0, 0))
    ensures |ChromaDone(ROT180, src[..FrameLen(width, height)], width, height, 0, 0)| == n
  {
    hide LumaOut, ChromaOut, ChromaDone, Raster, FrameLen, Transform, Flatten, Unpair, Decode, Once, WrittenSoFar;
    ghost var len := FrameLen(width, height);
    ghost var buf, was := src[..len], dst[..];
    LumaStart(ROT180, buf, width, height);
    n, written := 0, multiset{};
    OnceNone();
    WroteNothing(was);
    var pos := Product(width, height);
    for j := 0 to height
      invariant pos == Area(width, height - j)
      invariant WrittenSoFar(dst[..], was, Raster(LumaOut(ROT180, buf, width, height), j, 0))
      invariant n == |Raster(LumaOut(ROT180, buf, width, height), j, 0)| && written == Once(n)
    {
      for i := 0 to width
        invariant WrittenSoFar(dst[..], was, Raster(LumaOut(ROT180, buf, width, height), j, i))
        invariant n == |Raster(LumaOut(ROT180, buf, width, height), j, i)| && written == Once(n)
      {
        LumaStep(ROT180, buf, width, height, j, i);
        ghost var done := Raster(LumaOut(ROT180, buf, width, height), j, i);
        written := WriteByte(dst, n, src[pos - i - 1], was, done, written);
        n := n + 1;
      }
      LumaRow(ROT180, buf, width, height, j);
      pos := pos - width;
    }
    LumaComplete(ROT180, buf, width, height);
    LumaLength(ROT180, buf, width, height);
  }

  method Yuv420spRot180Chroma(dst: array<Byte>, src: array<Byte>, width: nat, height: nat, n0: nat,
                              ghost written0: multiset<nat>, ghost was: seq<Byte>)
    returns (n: nat, ghost written: multiset<nat>)
    requires width % 2 == 0
    requires dst != src && FrameLen(width, height) <= src.Length && FrameLen(width, height) <= dst.Length
    requires n0 <= FrameLen(width, height) && written0 == Once(n0)
    requires WrittenSoFar(dst[..], was, ChromaDone(ROT180, src[..FrameLen(width, height)], width, height, 0, 0))
    requires |ChromaDone(ROT180, src[..FrameLen(width, height)], width, height, 0, 0)| == n0
    modifies dst
    ensures n == FrameLen(width, height) && written == Once(n)
    ensures WrittenSoFar(dst[..], was, Transform(ROT180, src[..FrameLen(width, height)], width, height))
    ensures |Transform(ROT180, src[..FrameLen(width, height)], width, height)| == n
  {
    hide LumaOut, ChromaOut, ChromaDone, Raster, FrameLen, Transform, Flatten, Unpair, Decode, Once, WrittenSoFar;
    ghost var len := FrameLen(width, height);
    ghost var buf := src[..len];
    var temp := Product(width, height);
    n, written := n0, written0;
    var hheight := height / 2;
    var pos := Product(width, hheight);
    for j := 0 to hheight
      invariant pos == Area(width, hheight - j)
      invariant WrittenSoFar(dst[..], was, ChromaDone(ROT180, buf, width, height, j, 0))
      invariant n == |ChromaDone(ROT180, buf, width, height, j, 0)| && written == Once(n)
    {
      var i := 0;
      ghost var q: nat := 0;
      while i < width
        invariant i == 2 * q <= width
        invariant WrittenSoFar(dst[..], was, ChromaDone(ROT180, buf, width, height, j, q))
        invariant n == |ChromaDone(ROT180, buf, width, height, j, q)| && written == Once(n)
      {
        ChromaStep(ROT180, buf, width, height, j, q);
        ghost var done := ChromaDone(ROT180, buf, width, height, j, q);
        written := WritePairBack(dst, n, src[temp + pos - i - 2], src[temp + pos - i - 1], was, done, written);
        n := n + 2;
        i, q := i + 2, q + 1;
      }
      ChromaRow(ROT180, buf, width, height, j);
      pos := pos - width;
    }
    ChromaComplete(ROT180, buf, width, height);
  }

  method Yuv420spRot180(dst: array<Byte>, src: array<Byte>, width: nat, height: nat)
    returns (ghost written: multiset<nat>)
    requires width % 2 == 0
    requires dst != src && FrameLen(width, height) <= src.Length && FrameLen(width, height) <= dst.Length
    modifies dst
    ensures forall k: nat :: written[k] == if k < FrameLen(width, height) then 1 else 0
    ensures dst[..FrameLen(width, height)] == Transform(ROT180, src[..FrameLen(width, height)], width, height)
    ensures forall k :: FrameLen(width, height) <= k < dst.Length ==> dst[k] == old(dst[k])
  {
    hide WrittenSoFar, Transform, FrameLen, ChromaDone, Once;
    ghost var was := dst[..];
    var n;
    n, written := Yuv420spRot180Luma(dst, src, width, height);
    n, written := Yuv420spRot180Chroma(dst, src, width, height, n, written, was);
    OnceMeans(n);
    WroteAll(dst[..], was, Transform(ROT180, src[..FrameLen(width, height)], width, height));
  }

  method Yuv420RotHMirrorLuma(dst: array<Byte>, src: array<Byte>, width: nat, height: nat)
    returns (n: nat, ghost written: multiset<nat>)
    requires dst != src && FrameLen(width, height) <= src.Length && FrameLen(width, height) <= dst.Length
    modifies dst
    ensures n == Area(width, height) <= FrameLen(width, height) && written == Once(n)
    ensures WrittenSoFar(dst[..], old(dst[..]),
                         ChromaDone(HMIRROR, src[..FrameLen(width, height)], width, height, 0, 0))
    ensures |ChromaDone(HMIRROR, src[..FrameLen(width, height)], width, height, 0, 0)| == n
  {
    hide LumaOut, ChromaOut, ChromaDone, Raster, FrameLen, Transform, Flatten, Unpair, Decode, Once, WrittenSoFar;
    ghost var len := FrameLen(width, height);
    ghost var buf, was := src[..len], dst[..];
    LumaStart(HMIRROR, buf, width, height);
    n, written := 0, multiset{};
    OnceNone();
    WroteNothing(was);
    var pos := 0;
    for j := 0 to height
      invariant pos == Area(width, j)
      invariant WrittenSoFar(dst[..], was, Raster(LumaOut(HMIRROR, buf, width, height), j, 0))
      invariant n == |Raster(LumaOut(HMIRROR, buf, width, height), j, 0)| && written == Once(n)
    {
      var i := width;
      while i > 0
        invariant 0 <= i <= width
        invariant WrittenSoFar(dst[..], was, Raster(LumaOut(HMIRROR, buf, width, height), j, width - i))
        invariant n == |Raster(LumaOut(HMIRROR, buf, width, height), j, width - i)| && written == Once(n)
      {
        LumaStep(HMIRROR, buf, width, height, j, width - i);
        ghost var done := Raster(LumaOut(HMIRROR, buf, width, height), j, width - i);
        written := WriteByte(dst, n, src[pos + i - 1], was, done, written);
        n := n + 1;
        i := i - 1;
      }
      LumaRow(HMIRROR, buf, width, height, j);
      pos := pos + width;
    }
    LumaComplete(HMIRROR, buf, width, height);
    LumaLength(HMIRROR, buf, width, height);
  }

  method Yuv420RotHMirrorChroma(dst: array<Byte>, src: array<Byte>, width: nat, height: nat, n0: nat,
                                ghost written0: multiset<nat>, ghost was: seq<Byte>)
    returns (n: nat, ghost written: multiset<nat>)
    requires width % 2 == 0
    requires dst != src && FrameLen(width, height) <= src.Length && FrameLen(width, height) <= dst.Length
    requires n0 <= FrameLen(width, height) && written0 == Once(n0)
    requires WrittenSoFar(dst[..], was, ChromaDone(HMIRROR, src[..FrameLen(width, height)], width, height, 0, 0))
    requires |ChromaDone(HMIRROR, src[..FrameLen(width, height)], width, height, 0, 0)| == n0
    modifies dst
    ensures n == FrameLen(width, height) && written == Once(n)
    ensures WrittenSoFar(dst[..], was, Transform(HMIRROR, src[..FrameLen(width, height)], width, height))
    ensures |Transform(HMIRROR, src[..FrameLen(width, height)], width, height)| == n
  {
    hide LumaOut, ChromaOut, ChromaDone, Raster, FrameLen, Transform, Flatten, Unpair, Decode, Once, WrittenSoFar;
    ghost var len := FrameLen(width, height);
    ghost var buf := src[..len];
    var temp := Product(width, height);
    n, written := n0, written0;
    var hheight := height / 2;
    var pos := 0;
    for j := 0 to hheight
      invariant pos == Area(width, j)
      invariant WrittenSoFar(dst[..], was, ChromaDone(HMIRROR, buf, width, height, j, 0))
      invariant n == |ChromaDone(HMIRROR, buf, width, height, j, 0)| && written == Once(n)
    {
      var i := width;
      ghost var q: nat := 0;
      while i > 0
        invariant 0 <= i == width - 2 * q
        invariant WrittenSoFar(dst[..], was, ChromaDone(HMIRROR, buf, width, height, j, q))
        invariant n == |ChromaDone(HMIRROR, buf, width, height, j, q)| && written == Once(n)
      {
        ChromaStep(HMIRROR, buf, width, height, j, q);
        ghost var done := ChromaDone(HMIRROR, buf, width, height, j, q);
        written := WritePair(dst, n, src[temp + pos + i - 2], src[temp + pos + i - 1], was, done, written);
        n := n + 2;
        i, q := i - 2, q + 1;
      }
      ChromaRow(HMIRROR, buf, width, height, j);
      pos := pos + width;
    }
    ChromaComplete(HMIRROR, buf, width, height);
  }

  method Yuv420RotHMirror(dst: array<Byte>, src: array<Byte>, width: nat, height: nat)
    returns (ghost written: multiset<nat>)
    requires width % 2 == 0
    requires dst != src && FrameLen(width, height) <= src.Length && FrameLen(width, height) <= dst.Length
    modifies dst
    ensures forall k: nat :: written[k] == if k < FrameLen(width, height) then 1 else 0
    ensures dst[..FrameLen(width, height)] == Transform(HMIRROR, src[..FrameLen(width, height)], width, height)
    ensures forall k :: FrameLen(width, height) <= k < dst.Length ==> dst[k] == old(dst[k])
  {
    hide WrittenSoFar, Transform, FrameLen, ChromaDone, Once;
    ghost var was := dst[..];
    var n;
    n, written := Yuv420RotHMirrorLuma(dst, src, width, height);
    n, written := Yuv420RotHMirrorChroma(dst, src, width, height, n, written, was);
    OnceMeans(n);
    WroteAll(dst[..], was, Transform(HMIRROR, src[..FrameLen(width, height)], width, height));
  }

  method Yuv420RotVMirrorLuma(dst: array<Byte>, src: array<Byte>, width: nat, height: nat)
    returns (n: nat, ghost written: multiset<nat>)
    requires dst != src && FrameLen(width, height) <= src.Length && FrameLen(width, height) <= dst.Length
    modifies dst
    ensures n == Area(width, height) <= FrameLen(width, height) && written == Once(n)
    ensures WrittenSoFar(dst[..], old(dst[..]),
                         ChromaDone(VMIRROR, src[..FrameLen(width, height)], width, height, 0, 0))
    ensures |ChromaDone(VMIRROR, src[..FrameLen(width, height)], width, height, 0, 0)| == n
  {
    hide LumaOut, ChromaOut, ChromaDone, Raster, FrameLen, Transform, Flatten, Unpair, Decode, Once, WrittenSoFar;
    ghost var len := FrameLen(width, height);
    ghost var buf, was := src[..len], dst[..];
    LumaStart(VMIRROR, buf, width, height);
    n, written := 0, multiset{};
    OnceNone();
    WroteNothing(was);
    var pos := Product(width, height);
    for j := 0 to height
      invariant pos == Area(width, height - j)
      invariant WrittenSoFar(dst[..], was, Raster(LumaOut(VMIRROR, buf, width, height), j, 0))
      invariant n == |Raster(LumaOut(VMIRROR, buf, width, height), j, 0)| && written == Once(n)
    {
      pos := pos - width;
      for i := 0 to width
        invariant WrittenSoFar(dst[..], was, Raster(LumaOut(VMIRROR, buf, width, height), j, i))
        invariant n == |Raster(LumaOut(VMIRROR, buf, width, height), j, i)| && written == Once(n)
      {
        LumaStep(VMIRROR, buf, width, height, j, i);
        ghost var done := Raster(LumaOut(VMIRROR, buf, width, height), j, i);
        written := WriteByte(dst, n, src[pos + i], was, done, written);
        n := n + 1;
      }
      LumaRow(VMIRROR, buf, width, height, j);
    }
    LumaComplete(VMIRROR, buf, width, height);
    LumaLength(VMIRROR, buf, width, height);
  }

  method Yuv420RotVMirrorChroma(dst: array<Byte>, src: array<Byte>, width: nat, height: nat, n0: nat,
                                ghost written0: multiset<nat>, ghost was: seq<Byte>)
    returns (n: nat, ghost written: multiset<nat>)
    requires width % 2 == 0
    requires dst != src && FrameLen(width, height) <= src.Length && FrameLen(width, height) <= dst.Length
    requires n0 <= FrameLen(width, height) && written0 == Once(n0)
    requires WrittenSoFar(dst[..], was, ChromaDone(VMIRROR, src[..FrameLen(width, height)], width, height, 0, 0))
    requires |ChromaDone(VMIRROR, src[..FrameLen(width, height)], width, height, 0, 0)| == n0
    modifies dst
    ensures n == FrameLen(width, height) && written == Once(n)
    ensures WrittenSoFar(dst[..], was, Transform(VMIRROR, src[..FrameLen(width, height)], width, height))
    ensures |Transform(VMIRROR, src[..FrameLen(width, height)], width, height)| == n
  {
    hide LumaOut, ChromaOut, ChromaDone, Raster, FrameLen, Transform, Flatten, Unpair, Decode, Once, WrittenSoFar;
    ghost var len := FrameLen(width, height);
    ghost var buf := src[..len];
    var temp := Product(width, height);
    n, written := n0, written0;
    var hheight := height / 2;
    var pos := Product(width, hheight);
    for j := 0 to hheight
      invariant pos == Area(width, hheight - j)
      invariant WrittenSoFar(dst[..], was, ChromaDone(VMIRROR, buf, width, height, j, 0))
      invariant n == |ChromaDone(VMIRROR, buf, width, height, j, 0)| && written == Once(n)
    {
      pos := pos - width;
      var i := 0;
      ghost var q: nat := 0;
      while i < width
        invariant i == 2 * q <= width
        invariant WrittenSoFar(dst[..], was, ChromaDone(VMIRROR, buf, width, height, j, q))
        invariant n == |ChromaDone(VMIRROR, buf, width, height, j, q)| && written == Once(n)
      {
        ChromaStep(VMIRROR, buf, width, height, j, q);
        ghost var done := ChromaDone(VMIRROR, buf, width, height, j, q);
        written := WritePair(dst, n, src[temp + pos + i], src[temp + pos + i + 1], was, done, written);
        n := n + 2;
        i, q := i + 2, q + 1;
      }
      ChromaRow(VMIRROR, buf, width, height, j);
    }
    ChromaComplete(VMIRROR, buf, width, height);
  }

  method Yuv420RotVMirror(dst: array<Byte>, src: array<Byte>, width: nat, height: nat)
    returns (ghost written: multiset<nat>)
    requires width % 2 == 0
    requires dst != src && FrameLen(width, height) <= src.Length && FrameLen(width, height) <= dst.Length
    modifies dst
    ensures forall k: nat :: written[k] == if k < FrameLen(width, height) then 1 else 0
    ensures dst[..FrameLen(width, height)] == Transform(VMIRROR, src[..FrameLen(width, height)], width, height)
    ensures forall k :: FrameLen(width, height) <= k < dst.Length ==> dst[k] == old(dst[k])
  {
    hide WrittenSoFar, Transform, FrameLen, ChromaDone, Once;
    ghost var was := dst[..];
    var n;
    n, written := Yuv420RotVMirrorLuma(dst, src, width, height);
    n, written := Yuv420RotVMirrorChroma(dst, src, width, height, n, written, was);
    OnceMeans(n);
    WroteAll(dst[..], was, Transform(VMIRROR, src[..FrameLen(width, height)], width, height));
  }
}
