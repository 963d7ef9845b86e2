/** Semi-planar YUV 4:2:0 frames (NV12 / NV21): h rows of w luma bytes, followed by
h / 2 rows of w / 2 interleaved chroma pairs. */
module SemiPlanar {
  import opened Symmetry

  type Byte = bv8
  type Pair = (Byte, Byte)

  /** A decoded frame: one grid of bytes and one grid of chroma pairs. */
  datatype Picture = Picture(luma: Grid<Byte>, chroma: Grid<Pair>)

  predicate IsPicture(p: Picture, w: nat, h: nat) {
    IsGrid(p.luma, w, h) && IsGrid(p.chroma, w / 2, h / 2)
  }

  /** Chroma pairs in a frame. */
  function PairCount(w: nat, h: nat): nat {
    Area(w / 2, h / 2)
  }

  /** Bytes in a frame. */
  function FrameLen(w: nat, h: nat): nat {
    Area(w, h) + 2 * PairCount(w, h)
  }

  lemma FrameLenIsThreeHalves(w: nat, h: nat)
    requires w % 2 == 0 && h % 2 == 0
    ensures FrameLen(w, h) == w * h * 3 / 2
  {
    AreaIsProduct(w, h);
    AreaIsProduct(w / 2, h / 2);
    var a, b := w / 2, h / 2;
    assert w == 2 * a && h == 2 * b;
    assert w * h == 4 * (a * b);
  }

  lemma FrameLenSwaps(w: nat, h: nat)
    ensures FrameLen(w, h) == FrameLen(h, w)
  {
    AreaSwaps(w, h);
    AreaSwaps(w / 2, h / 2);
  }

  // ---------------------------------------------------------------- rows of a flat buffer

  /** A flat buffer read as h rows of w cells. */
  function Unflatten<T>(buf: seq<T>, w: nat, h: nat): (g: Grid<T>)
    requires |buf| == Area(w, h)
    ensures IsGrid(g, w, h)
    decreases h
  {
    if h == 0 then [] else
    Unflatten(buf[..Area(w, h - 1)], w, h - 1) + [buf[Area(w, h - 1)..]]
  }

  lemma {:induction false} CellAt<T>(buf: seq<T>, w: nat, h: nat, r: nat, c: nat)
    requires |buf| == Area(w, h) && r < h && c < w
    ensures Area(w, r) + c < Area(w, h)
    ensures Unflatten(buf, w, h)[r][c] == buf[Area(w, r) + c]
  {
    if r < h - 1 {
      CellAt(buf[..Area(w, h - 1)], w, h - 1, r, c);
    }
  }

  lemma {:induction false} FlattenUnflatten<T>(buf: seq<T>, w: nat, h: nat)
    requires |buf| == Area(w, h)
    ensures Flatten(Unflatten(buf, w, h)) == buf
    decreases h
  {
    if h > 0 {
      var n := Area(w, h - 1);
      FlattenUnflatten(buf[..n], w, h - 1);
      assert Unflatten(buf, w, h)[..h - 1] == Unflatten(buf[..n], w, h - 1);
      assert buf == buf[..n] + buf[n..];
    }
  }

  lemma {:induction false} UnflattenFlatten<T>(g: Grid<T>, w: nat, h: nat)
    requires IsGrid(g, w, h)
    ensures |Flatten(g)| == Area(w, h)
    ensures Unflatten(Flatten(g), w, h) == g
  {
    FlattenLength(g, w, h);
    if h > 0 {
      var n := Area(w, h - 1);
      UnflattenFlatten(g[..h - 1], w, h - 1);
      assert Flatten(g)[..n] == Flatten(g[..h - 1]);
      assert Flatten(g)[n..] == g[h - 1];
    }
  }

  // ---------------------------------------------------------------- chroma pairs

  function Pairs(buf: seq<Byte>): (ps: seq<Pair>)
    requires |buf| % 2 == 0
    ensures |ps| == |buf| / 2
    ensures forall k :: 0 <= k < |ps| ==> ps[k] == (buf[2 * k], buf[2 * k + 1])
  {
    seq(|buf| / 2, k requires 0 <= k < |buf| / 2 => (buf[2 * k], buf[2 * k + 1]))
  }

  function Unpair(ps: seq<Pair>): (buf: seq<Byte>)
    ensures |buf| == 2 * |ps|
  {
    if ps == [] then [] else Unpair(ps[..|ps| - 1]) + [ps[|ps| - 1].0, ps[|ps| - 1].1]
  }

  lemma {:induction false} UnpairAt(ps: seq<Pair>, k: nat)
    requires k < |ps|
    ensures (Unpair(ps)[2 * k], Unpair(ps)[2 * k + 1]) == ps[k]
  {
    if k < |ps| - 1 {
      UnpairAt(ps[..|ps| - 1], k);
    }
  }

  lemma PairsUnpair(ps: seq<Pair>)
    ensures Pairs(Unpair(ps)) == ps
  {
    forall k: nat | k < |ps| ensures Pairs(Unpair(ps))[k] == ps[k] {
      UnpairAt(ps, k);
    }
  }

  lemma UnpairPairs(buf: seq<Byte>)
    requires |buf| % 2 == 0
    ensures Unpair(Pairs(buf)) == buf
  {
    forall i: nat | i < |buf| ensures Unpair(Pairs(buf))[i] == buf[i] {
      UnpairAt(Pairs(buf), i / 2);
    }
  }

  lemma {:induction false} UnpairConcat(a: seq<Pair>, b: seq<Pair>)
    ensures Unpair(a + b) == Unpair(a) + Unpair(b)
  {
    if b == [] {
      assert a + b == a;
    } else {
      var n := |b| - 1;
      UnpairConcat(a, b[..n]);
      assert (a + b)[..|a| + n] == a + b[..n];
    }
  }

  lemma {:induction false} UnpairMultiset(a: seq<Pair>, b: seq<Pair>)
    requires multiset(a) == multiset(b)
    ensures multiset(Unpair(a)) == multiset(Unpair(b))
    decreases |a|
  {
    if a == [] {
      assert |multiset(b)| == 0;
    } else {
      var rest, x := a[..|a| - 1], a[|a| - 1];
      assert a == rest + [x];
      assert x in multiset(b);
      var front, back := SplitAt(b, x);
      assert multiset(rest) == multiset(a) - multiset{x};
      UnpairMultiset(rest, front + back);
      UnpairConcat(front + [x], back);
      UnpairConcat(front, [x]);
      UnpairConcat(front, back);
      UnpairConcat(rest, [x]);
    }
  }

  // ---------------------------------------------------------------- frames

  function Decode(buf: seq<Byte>, w: nat, h: nat): (p: Picture)
    requires |buf| == FrameLen(w, h)
    ensures IsPicture(p, w, h)
  {
    Picture(Unflatten(buf[..Area(w, h)], w, h), Unflatten(Pairs(buf[Area(w, h)..]), w / 2, h / 2))
  }

  function Encode(p: Picture): seq<Byte> {
    Flatten(p.luma) + Unpair(Flatten(p.chroma))
  }

  lemma DecodeEncode(p: Picture, w: nat, h: nat)
    requires IsPicture(p, w, h)
    ensures |Encode(p)| == FrameLen(w, h)
    ensures Decode(Encode(p), w, h) == p
  {
    UnflattenFlatten(p.luma, w, h);
    UnflattenFlatten(p.chroma, w / 2, h / 2);
    PairsUnpair(Flatten(p.chroma));
    assert Encode(p)[..Area(w, h)] == Flatten(p.luma);
    assert Encode(p)[Area(w, h)..] == Unpair(Flatten(p.chroma));
  }

  lemma EncodeDecode(buf: seq<Byte>, w: nat, h: nat)
    requires |buf| == FrameLen(w, h)
    ensures Encode(Decode(buf, w, h)) == buf
  {
    hide Flatten, Unflatten, Pairs, Unpair;
    FlattenUnflatten(buf[..Area(w, h)], w, h);
    FlattenUnflatten(Pairs(buf[Area(w, h)..]), w / 2, h / 2);
    UnpairPairs(buf[Area(w, h)..]);
  }

  /** A symmetry acts on the luma cells and on the chroma pairs alike. */
  function ApplyPicture(s: Sym, p: Picture, w: nat, h: nat): (q: Picture)
    requires IsPicture(p, w, h)
    ensures IsPicture(q, OutWidth(s, w, h), OutHeight(s, w, h))
  {
    Picture(Apply(s, p.luma, w, h), Apply(s, p.chroma, w / 2, h / 2))
  }

  /** What a symmetry makes of a whole frame buffer. */
  function Transform(s: Sym, buf: seq<Byte>, w: nat, h: nat): seq<Byte>
    requires |buf| == FrameLen(w, h)
  {
    Encode(ApplyPicture(s, Decode(buf, w, h), w, h))
  }

  lemma TransformLen(s: Sym, buf: seq<Byte>, w: nat, h: nat)
    requires |buf| == FrameLen(w, h)
    ensures |Transform(s, buf, w, h)| == FrameLen(w, h) == FrameLen(OutWidth(s, w, h), OutHeight(s, w, h))
  {
    DecodeEncode(ApplyPicture(s, Decode(buf, w, h), w, h), OutWidth(s, w, h), OutHeight(s, w, h));
    FrameLenSwaps(w, h);
  }

  /** The group law on whole buffers, from which every law between the rotations
      and mirrors follows. */
  lemma TransformCompose(second: Sym, first: Sym, buf: seq<Byte>, w: nat, h: nat)
    requires |buf| == FrameLen(w, h)
    ensures |Transform(first, buf, w, h)| == FrameLen(OutWidth(first, w, h), OutHeight(first, w, h))
    ensures Transform(second, Transform(first, buf, w, h), OutWidth(first, w, h), OutHeight(first, w, h))
         == Transform(Compose(second, first), buf, w, h)
  {
    var p, w1, h1 := Decode(buf, w, h), OutWidth(first, w, h), OutHeight(first, w, h);
    DecodeEncode(ApplyPicture(first, p, w, h), w1, h1);
    ApplyCompose(second, first, p.luma, w, h);
    ApplyCompose(second, first, p.chroma, w / 2, h / 2);
  }

  lemma TransformIdentity(buf: seq<Byte>, w: nat, h: nat)
    requires |buf| == FrameLen(w, h)
    ensures Transform(IDENTITY, buf, w, h) == buf
  {
    var p := Decode(buf, w, h);
    ApplyIdentity(p.luma, w, h);
    ApplyIdentity(p.chroma, w / 2, h / 2);
    EncodeDecode(buf, w, h);
  }

  /** Every transform is undone by its inverse, byte for byte. */
  lemma TransformInverse(s: Sym, buf: seq<Byte>, w: nat, h: nat)
    requires |buf| == FrameLen(w, h)
    ensures |Transform(s, buf, w, h)| == FrameLen(OutWidth(s, w, h), OutHeight(s, w, h))
    ensures Transform(Inverse(s), Transform(s, buf, w, h), OutWidth(s, w, h), OutHeight(s, w, h)) == buf
  {
    TransformCompose(Inverse(s), s, buf, w, h);
    TransformIdentity(buf, w, h);
  }

  lemma PlanesOf(p: Picture, w: nat, h: nat)
    requires IsPicture(p, w, h)
    ensures |Encode(p)| == FrameLen(w, h)
    ensures Encode(p)[..Area(w, h)] == Flatten(p.luma)
    ensures Pairs(Encode(p)[Area(w, h)..]) == Flatten(p.chroma)
  {
    FlattenLength(p.luma, w, h);
    FlattenLength(p.chroma, w / 2, h / 2);
    PairsUnpair(Flatten(p.chroma));
    assert Encode(p)[Area(w, h)..] == Unpair(Flatten(p.chroma));
  }

  /** A transform keeps the bytes: luma among luma, whole pairs among chroma. */
  lemma TransformPermutes(s: Sym, buf: seq<Byte>, w: nat, h: nat)
    requires |buf| == FrameLen(w, h)
    ensures |Transform(s, buf, w, h)| == |buf|
    ensures multiset(Transform(s, buf, w, h)) == multiset(buf)
    ensures multiset(Transform(s, buf, w, h)[..Area(w, h)]) == multiset(buf[..Area(w, h)])
    ensures multiset(Pairs(Transform(s, buf, w, h)[Area(w, h)..])) == multiset(Pairs(buf[Area(w, h)..]))
  {
    var p := Decode(buf, w, h);
    var q := ApplyPicture(s, p, w, h);
    EncodeDecode(buf, w, h);
    ApplyPermutes(s, p.luma, w, h);
    ApplyPermutes(s, p.chroma, w / 2, h / 2);
    UnpairMultiset(Flatten(q.chroma), Flatten(p.chroma));
    FrameLenSwaps(w, h);
    AreaSwaps(w, h);
    PlanesOf(p, w, h);
    PlanesOf(q, OutWidth(s, w, h), OutHeight(s, w, h));
  }
}
