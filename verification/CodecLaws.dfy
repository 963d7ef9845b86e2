/** What the codec node does to a frame, cell by cell, for each camera and setting. */
module CodecLaws {
  import opened Symmetry
  import opened SemiPlanar
  import opened FrameLaws
  import opened CodecNode

  /** The frames of every camera but the first, on their way to the encoder.  At 90 and 270
      degrees they stay as they are, or, mirrored, are turned upside down; at every other
      rotation they get the half turn, or, mirrored, are turned left to right. */
  lemma H264Cells(rotation: int, mirror: bool, buf: seq<Byte>, w: nat, h: nat, r: nat, c: nat)
    requires |buf| == FrameLen(w, h) && w % 2 == 0 && h % 2 == 0
    ensures (rotation == 90 || rotation == 270) && !mirror ==>
      Transform(H264Sym(false, rotation, mirror), buf, w, h) == buf
    ensures (rotation == 90 || rotation == 270) && mirror ==>
      CellFrom(Transform(H264Sym(false, rotation, mirror), buf, w, h), buf, w, h, r, c, true, false)
    ensures rotation != 90 && rotation != 270 && !mirror ==>
      CellFrom(Transform(H264Sym(false, rotation, mirror), buf, w, h), buf, w, h, r, c, true, true)
    ensures rotation != 90 && rotation != 270 && mirror ==>
      CellFrom(Transform(H264Sym(false, rotation, mirror), buf, w, h), buf, w, h, r, c, false, true)
  {
    hide Transform, FrameLen, LumaFrom, PairFrom;
    TransformIdentity(buf, w, h);
    HMirrorCells(buf, w, h, r, c);
    VMirrorCells(buf, w, h, r, c);
    HalfTurnCells(buf, w, h, r, c);
  }

  /** Luma cell (r, c) and chroma pair (r, c) of the output, if there are such, are the
      source's in the same row, or counted from the last row if `fromBelow`, and in the
      same column, or counted from the last if `fromRight`. */
  ghost predicate CellFrom(out: seq<Byte>, buf: seq<Byte>, w: nat, h: nat, r: nat, c: nat, fromBelow: bool,
                           fromRight: bool) {
    && (r < h && c < w ==>
          LumaFrom(out, w, r, c, buf, w, if fromBelow then h - 1 - r else r, if fromRight then w - 1 - c else c))
    && (r < h / 2 && c < w / 2 ==>
          PairFrom(out, w, h, r, c, buf, w, h, if fromBelow then h / 2 - 1 - r else r,
                   if fromRight then w / 2 - 1 - c else c))
  }

  /** The first camera's frames stay as they are. */
  lemma FirstCameraUntouched(rotation: int, mirror: bool, buf: seq<Byte>, w: nat, h: nat)
    requires |buf| == FrameLen(w, h)
    ensures Transform(H264Sym(true, rotation, mirror), buf, w, h) == buf
  {
    hide Transform, FrameLen;
    TransformIdentity(buf, w, h);
  }

  lemma LookupStep(entries: seq<(string, CameraId)>, id: string)
    requires entries != []
    ensures Lookup(entries, id) == if entries[0].0 == id then entries[0].1 else Lookup(entries[1..], id)
  {
  }

  /** The camera of each name; any other name is the first camera's. */
  lemma CameraOfName(id: string)
    ensures
      var camera := Lookup(CODEC_MAP_CAMERA_ID, id);
      && (camera == CAMERA_SECOND <==> id == "lcam002") && (camera == CAMERA_THIRD <==> id == "lcam003")
      && (camera == CAMERA_FOURTH <==> id == "lcam004") && (camera == CAMERA_FIFTH <==> id == "lcam005")
      && (camera == CAMERA_SIXTH <==> id == "lcam006")
      && (camera == CAMERA_FIRST <==> id !in {"lcam002", "lcam003", "lcam004", "lcam005", "lcam006"})
  {
    var e := CODEC_MAP_CAMERA_ID;
    LookupStep(e, id);
    LookupStep(e[1..], id);
    LookupStep(e[2..], id);
    LookupStep(e[3..], id);
    LookupStep(e[4..], id);
    LookupStep(e[5..], id);
    hide Lookup;
    assert e[1..][1..] == e[2..] && e[2..][1..] == e[3..] && e[3..][1..] == e[4..] && e[4..][1..] == e[5..];
    assert e[5..][1..] == [];
    NoCamera(id);
  }

  lemma NoCamera(id: string)
    ensures Lookup([], id) == CAMERA_FIRST
  {
  }
}
