/** The laws the rotations and mirrors obey on whole frame buffers, and where each of
their cells comes from. */
module FrameLaws {
  import opened Symmetry
  import opened SemiPlanar
  import opened Transforms

  /** The quarter turns undo each other, in either order, on every byte. */
  lemma QuarterTurnsCancel(buf: seq<Byte>, w: nat, h: nat)
    requires |buf| == FrameLen(w, h)
    ensures |Transform(RIGHT90, buf, w, h)| == |Transform(LEFT90, buf, w, h)| == FrameLen(h, w)
    ensures Transform(LEFT90, Transform(RIGHT90, buf, w, h), h, w) == buf
    ensures Transform(RIGHT90, Transform(LEFT90, buf, w, h), h, w) == buf
  {
    hide Transform, FrameLen;
    TransformInverse(RIGHT90, buf, w, h);
    TransformInverse(LEFT90, buf, w, h);
  }

  /** Two quarter turns the same way are the half turn. */
  lemma TwoQuarterTurns(buf: seq<Byte>, w: nat, h: nat)
    requires |buf| == FrameLen(w, h)
    ensures |Transform(RIGHT90, buf, w, h)| == |Transform(LEFT90, buf, w, h)| == FrameLen(h, w)
    ensures Transform(RIGHT90, Transform(RIGHT90, buf, w, h), h, w) == Transform(ROT180, buf, w, h)
    ensures Transform(LEFT90, Transform(LEFT90, buf, w, h), h, w) == Transform(ROT180, buf, w, h)
  {
    hide Transform, FrameLen;
    TransformCompose(RIGHT90, RIGHT90, buf, w, h);
    TransformCompose(LEFT90, LEFT90, buf, w, h);
  }

  /** Mirroring a right turn left to right, and a left turn upside down, both give the
      transpose. */
  lemma TurnThenMirror(buf: seq<Byte>, w: nat, h: nat)
    requires |buf| == FrameLen(w, h)
    ensures |Transform(RIGHT90, buf, w, h)| == |Transform(LEFT90, buf, w, h)| == FrameLen(h, w)
    ensures Transform(HMIRROR, Transform(RIGHT90, buf, w, h), h, w) == Transform(TRANSPOSE, buf, w, h)
    ensures Transform(VMIRROR, Transform(LEFT90, buf, w, h), h, w) == Transform(TRANSPOSE, buf, w, h)
  {
    hide Transform, FrameLen;
    TransformCompose(HMIRROR, RIGHT90, buf, w, h);
    TransformCompose(VMIRROR, LEFT90, buf, w, h);
  }

  /** The two mirrors commute, and make the half turn together. */
  lemma MirrorsMakeHalfTurn(buf: seq<Byte>, w: nat, h: nat)
    requires |buf| == FrameLen(w, h)
    ensures |Transform(HMIRROR, buf, w, h)| == |Transform(VMIRROR, buf, w, h)| == FrameLen(w, h)
    ensures Transform(VMIRROR, Transform(HMIRROR, buf, w, h), w, h) == Transform(ROT180, buf, w, h)
    ensures Transform(HMIRROR, Transform(VMIRROR, buf, w, h), w, h) == Transform(ROT180, buf, w, h)
  {
    hide Transform, FrameLen;
    TransformCompose(VMIRROR, HMIRROR, buf, w, h);
    TransformCompose(HMIRROR, VMIRROR, buf, w, h);
  }

  /** The byte that holds luma cell (r, c) of a frame of width w. */
  function LumaPlace(w: nat, r: nat, c: nat): nat {
    r * w + c
  }

  /** The first of the two bytes that hold chroma pair (r, c). */
  function PairPlace(w: nat, h: nat, r: nat, c: nat): nat {
    h * w + r * w + 2 * c
  }

  lemma LumaCellAt(buf: seq<Byte>, w: nat, h: nat, r: nat, c: nat)
    requires |buf| == FrameLen(w, h) && r < h && c < w
    ensures LumaPlace(w, r, c) < |buf|
    ensures Decode(buf, w, h).luma[r][c] == buf[LumaPlace(w, r, c)]
  {
    hide Unflatten;
    AreaIsProduct(w, r);
    CellAt(buf[..Area(w, h)], w, h, r, c);
  }

  lemma PairCellAt(buf: seq<Byte>, w: nat, h: nat, r: nat, c: nat)
    requires |buf| == FrameLen(w, h) && w % 2 == 0 && r < h / 2 && c < w / 2
    ensures PairPlace(w, h, r, c) + 1 < |buf|
    ensures Decode(buf, w, h).chroma[r][c] == (buf[PairPlace(w, h, r, c)], buf[PairPlace(w, h, r, c) + 1])
  {
    hide Decode, FrameLen;
    AreaIsProduct(w, r);
    AreaIsProduct(w, h);
    ChromaCellAt(buf, w, h, r, c);
  }

  /** Luma cell (r, c) of the output, w1 cells wide, is luma cell (r0, c0) of the source. */
  ghost predicate LumaFrom(out: seq<Byte>, w1: nat, r: nat, c: nat, buf: seq<Byte>, w: nat, r0: nat, c0: nat) {
    && LumaPlace(w1, r, c) < |out| == |buf| && LumaPlace(w, r0, c0) < |buf|
    && out[LumaPlace(w1, r, c)] == buf[LumaPlace(w, r0, c0)]
  }

  /** Chroma pair (r, c) of the output is pair (r0, c0) of the source, its two bytes still
      side by side and in the same order. */
  ghost predicate PairFrom(out: seq<Byte>, w1: nat, h1: nat, r: nat, c: nat, buf: seq<Byte>, w: nat, h: nat, r0: nat,
                           c0: nat) {
    && PairPlace(w1, h1, r, c) + 1 < |out| == |buf| && PairPlace(w, h, r0, c0) + 1 < |buf|
    && out[PairPlace(w1, h1, r, c)] == buf[PairPlace(w, h, r0, c0)]
    && out[PairPlace(w1, h1, r, c) + 1] == buf[PairPlace(w, h, r0, c0) + 1]
  }

  lemma LumaMoved(s: Sym, buf: seq<Byte>, w: nat, h: nat, r: nat, c: nat)
    requires |buf| == FrameLen(w, h) && r < OutHeight(s, w, h) && c < OutWidth(s, w, h)
    ensures LumaFrom(Transform(s, buf, w, h), OutWidth(s, w, h), r, c, buf, w,
                     SrcRow(s, w, h, r, c), SrcCol(s, w, h, r, c))
  {
    hide Apply, ApplyRow, Encode, SrcRow, SrcCol, Decode, LumaPlace;
    var p := Decode(buf, w, h);
    var q, w1, h1 := ApplyPicture(s, p, w, h), OutWidth(s, w, h), OutHeight(s, w, h);
    TransformLen(s, buf, w, h);
    LumaCellAt(buf, w, h, SrcRow(s, w, h, r, c), SrcCol(s, w, h, r, c));
    DecodeEncode(q, w1, h1);
    LumaCellAt(Encode(q), w1, h1, r, c);
    assert q.luma[r] == ApplyRow(s, p.luma, w, h, r);
  }

  lemma PairMoved(s: Sym, buf: seq<Byte>, w: nat, h: nat, r: nat, c: nat)
    requires |buf| == FrameLen(w, h) && w % 2 == 0 && h % 2 == 0
    requires r < OutHeight(s, w / 2, h / 2) && c < OutWidth(s, w / 2, h / 2)
    ensures PairFrom(Transform(s, buf, w, h), OutWidth(s, w, h), OutHeight(s, w, h), r, c, buf, w, h,
                     SrcRow(s, w / 2, h / 2, r, c), SrcCol(s, w / 2, h / 2, r, c))
  {
    hide Apply, ApplyRow, Encode, SrcRow, SrcCol, Decode, PairPlace;
    var p := Decode(buf, w, h);
    var q, w1, h1 := ApplyPicture(s, p, w, h), OutWidth(s, w, h), OutHeight(s, w, h);
    TransformLen(s, buf, w, h);
    PairCellAt(buf, w, h, SrcRow(s, w / 2, h / 2, r, c), SrcCol(s, w / 2, h / 2, r, c));
    DecodeEncode(q, w1, h1);
    PairCellAt(Encode(q), w1, h1, r, c);
    assert q.chroma[r] == ApplyRow(s, p.chroma, w / 2, h / 2, r);
  }

  // ---------------------------------------------------------------- each transform, cell by cell

  /** A right turn shows the columns as rows, each from the bottom up. */
  lemma RightTurnCells(buf: seq<Byte>, w: nat, h: nat, r: nat, c: nat)
    requires |buf| == FrameLen(w, h) && w % 2 == 0 && h % 2 == 0
    ensures r < w && c < h ==>
      LumaFrom(Transform(RIGHT90, buf, w, h), h, r, c, buf, w, h - 1 - c, r)
    ensures r < w / 2 && c < h / 2 ==>
      PairFrom(Transform(RIGHT90, buf, w, h), h, w, r, c, buf, w, h, h / 2 - 1 - c, r)
  {
    hide Transform, FrameLen, LumaFrom, PairFrom;
    if r < w && c < h {
      LumaMoved(RIGHT90, buf, w, h, r, c);
    }
    if r < w / 2 && c < h / 2 {
      PairMoved(RIGHT90, buf, w, h, r, c);
    }
  }

  /** A left turn shows the columns as rows, from the last to the first. */
  lemma LeftTurnCells(buf: seq<Byte>, w: nat, h: nat, r: nat, c: nat)
    requires |buf| == FrameLen(w, h) && w % 2 == 0 && h % 2 == 0
    ensures r < w && c < h ==>
      LumaFrom(Transform(LEFT90, buf, w, h), h, r, c, buf, w, c, w - 1 - r)
    ensures r < w / 2 && c < h / 2 ==>
      PairFrom(Transform(LEFT90, buf, w, h), h, w, r, c, buf, w, h, c, w / 2 - 1 - r)
  {
    hide Transform, FrameLen, LumaFrom, PairFrom;
    if r < w && c < h {
      LumaMoved(LEFT90, buf, w, h, r, c);
    }
    if r < w / 2 && c < h / 2 {
      PairMoved(LEFT90, buf, w, h, r, c);
    }
  }

  /** A half turn reverses rows and columns. */
  lemma HalfTurnCells(buf: seq<Byte>, w: nat, h: nat, r: nat, c: nat)
    requires |buf| == FrameLen(w, h) && w % 2 == 0 && h % 2 == 0
    ensures r < h && c < w ==>
      LumaFrom(Transform(ROT180, buf, w, h), w, r, c, buf, w, h - 1 - r, w - 1 - c)
    ensures r < h / 2 && c < w / 2 ==>
      PairFrom(Transform(ROT180, buf, w, h), w, h, r, c, buf, w, h, h / 2 - 1 - r, w / 2 - 1 - c)
  {
    hide Transform, FrameLen, LumaFrom, PairFrom;
    if r < h && c < w {
      LumaMoved(ROT180, buf, w, h, r, c);
    }
    if r < h / 2 && c < w / 2 {
      PairMoved(ROT180, buf, w, h, r, c);
    }
  }

  /** The horizontal mirror reverses each row. */
  lemma HMirrorCells(buf: seq<Byte>, w: nat, h: nat, r: nat, c: nat)
    requires |buf| == FrameLen(w, h) && w % 2 == 0 && h % 2 == 0
    ensures r < h && c < w ==>
      LumaFrom(Transform(HMIRROR, buf, w, h), w, r, c, buf, w, r, w - 1 - c)
    ensures r < h / 2 && c < w / 2 ==>
      PairFrom(Transform(HMIRROR, buf, w, h), w, h, r, c, buf, w, h, r, w / 2 - 1 - c)
  {
    hide Transform, FrameLen, LumaFrom, PairFrom;
    if r < h && c < w {
      LumaMoved(HMIRROR, buf, w, h, r, c);
    }
    if r < h / 2 && c < w / 2 {
      PairMoved(HMIRROR, buf, w, h, r, c);
    }
  }

  /** The vertical mirror reverses the order of the rows. */
  lemma VMirrorCells(buf: seq<Byte>, w: nat, h: nat, r: nat, c: nat)
    requires |buf| == FrameLen(w, h) && w % 2 == 0 && h % 2 == 0
    ensures r < h && c < w ==>
      LumaFrom(Transform(VMIRROR, buf, w, h), w, r, c, buf, w, h - 1 - r, c)
    ensures r < h / 2 && c < w / 2 ==>
      PairFrom(Transform(VMIRROR, buf, w, h), w, h, r, c, buf, w, h, h / 2 - 1 - r, c)
  {
    hide Transform, FrameLen, LumaFrom, PairFrom;
    if r < h && c < w {
      LumaMoved(VMIRROR, buf, w, h, r, c);
    }
    if r < h / 2 && c < w / 2 {
      PairMoved(VMIRROR, buf, w, h, r, c);
    }
  }
}
