/** The codec node: how it turns frames before they are encoded or shown, and how its
calls move the session of CodecSession. */
module CodecNode {
  import opened Symmetry
  import opened SemiPlanar
  import opened Transforms
  import opened CodecSession
  import opened ScratchMemory

  datatype RetCode = RC_OK | RC_ERROR

  const ROTATION_90 := 90
  const ROTATION_270 := 270

  datatype CameraId = CAMERA_FIRST | CAMERA_SECOND | CAMERA_THIRD | CAMERA_FOURTH | CAMERA_FIFTH | CAMERA_SIXTH

  const CODEC_MAP_CAMERA_ID: seq<(string, CameraId)> := [
    ("lcam001", CAMERA_FIRST), ("lcam002", CAMERA_SECOND), ("lcam003", CAMERA_THIRD),
    ("lcam004", CAMERA_FOURTH), ("lcam005", CAMERA_FIFTH), ("lcam006", CAMERA_SIXTH)]

  /** The camera of the first entry for id; CAMERA_FIRST if there is none. */
  function Lookup(entries: seq<(string, CameraId)>, id: string): CameraId {
    if entries == [] then CAMERA_FIRST
    else if entries[0].0 == id then entries[0].1
    else Lookup(entries[1..], id)
  }

  ghost predicate IsFirst(id: string) {
    Lookup(CODEC_MAP_CAMERA_ID, id) == CAMERA_FIRST
  }

  // ---------------------------------------------------------------- which symmetry

  predicate OnItsSide(rotation: int) {
    rotation == ROTATION_90 || rotation == ROTATION_270
  }

  /** What happens to a frame on its way to the H264 encoder. */
  function H264Sym(first: bool, rotation: int, mirror: bool): Sym {
    if first then IDENTITY
    else if mirror then (if OnItsSide(rotation) then VMIRROR else HMIRROR)
    else if OnItsSide(rotation) then IDENTITY
    else ROT180
  }

  /** Mirroring is an upside-down mirror on top of what is done without it, at every
      rotation, if and only if the camera is not the first. */
  lemma MirrorAddsVMirror(first: bool, rotation: int)
    ensures H264Sym(first, rotation, true) == Compose(VMIRROR, H264Sym(first, rotation, false)) <==> !first
  {
  }

  lemma MirrorOnFrame(rotation: int, buf: seq<Byte>, w: nat, h: nat)
    requires |buf| == FrameLen(w, h)
    ensures |Transform(H264Sym(false, rotation, false), buf, w, h)| == |buf|
    ensures Transform(H264Sym(false, rotation, true), buf, w, h)
         == Transform(VMIRROR, Transform(H264Sym(false, rotation, false), buf, w, h), w, h)
  {
    hide Transform, FrameLen;
    MirrorAddsVMirror(false, rotation);
    TransformCompose(VMIRROR, H264Sym(false, rotation, false), buf, w, h);
  }

  /** With unchanged settings, a second pass restores the frame. */
  lemma SecondPassRestores(first: bool, rotation: int, mirror: bool, buf: seq<Byte>, w: nat, h: nat)
    requires |buf| == FrameLen(w, h)
    ensures
      var s := H264Sym(first, rotation, mirror);
      |Transform(s, buf, w, h)| == |buf| && Transform(s, Transform(s, buf, w, h), w, h) == buf
  {
    hide Transform, FrameLen;
    TransformInverse(H264Sym(first, rotation, mirror), buf, w, h);
  }

  /** The frame size in bytes, as computed in 32 bits. */
  function BufferSize(w: nat, h: nat): nat {
    w * h * 3 % 0x1_0000_0000 / 2
  }

  ghost predicate Fits(w: nat, h: nat) {
    3 * Area(w, h) < 0x1_0000_0000
  }

  lemma BufferSizeIsFrameLen(w: nat, h: nat)
    requires w % 2 == 0 && h % 2 == 0
    ensures BufferSize(w, h) == FrameLen(w, h) <==> Fits(w, h)
  {
    AreaIsProduct(w, h);
    FrameLenIsThreeHalves(w, h);
    Halved(w * h * 3, w, h);
  }

  lemma Halved(n: nat, w: nat, h: nat)
    requires n == w * h * 3 && w % 2 == 0
    ensures n % 0x1_0000_0000 / 2 == n / 2 <==> n < 0x1_0000_0000
  {
    var a := w / 2;
    assert n == 2 * (a * h * 3);
  }

  // ---------------------------------------------------------------- buffers

  class IBuffer {
    const mem: array<Byte>
    var width: nat
    var height: nat
    var encodeType: EncodeType
    var statusOk: bool
    var esKeyFrame: int

    constructor (mem: array<Byte>, width: nat, height: nat, encodeType: EncodeType)
      ensures this.mem == mem && this.width == width && this.height == height && this.encodeType == encodeType
      ensures statusOk
    {
      this.mem, this.width, this.height, this.encodeType := mem, width, height, encodeType;
      statusOk, esKeyFrame := true, 0;
    }

    ghost predicate HoldsFrame()
      reads this`width, this`height
    {
      width % 2 == 0 && height % 2 == 0 && Fits(width, height) && FrameLen(width, height) <= mem.Length
    }

    /** The bytes of the frame. */
    ghost function Bytes(): (buf: seq<Byte>)
      requires HoldsFrame()
      reads this`width, this`height, mem
      ensures |buf| == FrameLen(width, height)
    {
      mem[..FrameLen(width, height)]
    }

    /** The bytes of the frame, once s has been applied to it. */
    ghost function Transformed(s: Sym): seq<Byte>
      requires HoldsFrame()
      reads this`width, this`height, mem
    {
      Transform(s, Bytes(), width, height)
    }
  }

  /** Scratch memory and a buffer do not share memory. */
  ghost predicate Apart(scratch: array?<Byte>, buffer: IBuffer) {
    scratch != buffer.mem
  }

  /** Scratch memory, once there is any, can hold the buffer's frame. */
  ghost predicate Holds(scratch: array?<Byte>, buffer: IBuffer)
    reads buffer`width, buffer`height
  {
    scratch != null ==> FrameLen(buffer.width, buffer.height) <= scratch.Length
  }

  ghost function MemoryOf(scratch: array?<Byte>): Memory {
    if scratch == null then Missing else Memory.Bytes(scratch.Length)
  }

  /** memcpy_s of the first n bytes: it fails if and only if n is 0. */
  method CopyBack(dst: array<Byte>, src: array<Byte>, n: nat) returns (ok: bool)
    requires dst != src && n <= dst.Length && n <= src.Length
    modifies dst
    ensures ok <==> n != 0
    ensures dst[..n] == src[..n] && dst[n..] == old(dst[n..])
  {
    forall k | 0 <= k < n {
      dst[k] := src[k];
    }
    ok := n != 0;
  }

  lemma H264StepMarksNode(loaded: bool, s: Session, f: Frame)
    ensures StepH264(loaded, s.(nodestatus := 1), f) == StepH264(loaded, s, f)
  {
  }

  /** What the libraries reply while one frame is handled: `mallocOk` for
      memory, the others for the encoders. */
  datatype Replies = Replies(mallocOk: bool, startRet: int, encRet: int, encType: int, jpegOk: bool)

  class CodecNode {
    const cameraId: string
    const h264Loaded: bool
    var status: int
    var nodestatus: int
    var startflag: int
    var stillcaptureok: int
    var jpegRotation: int
    var jpegMirror: bool
    var bufferRotatePtr: array?<Byte>
    var bufferRotate: array?<Byte>

    constructor (cameraId: string, h264Loaded: bool)
      ensures View() == INIT && Scratches() == NO_SCRATCH
      ensures this.cameraId == cameraId && this.h264Loaded == h264Loaded
    {
      this.cameraId, this.h264Loaded := cameraId, h264Loaded;
      status, nodestatus, startflag, stillcaptureok := 0, 0, 0, 0;
      bufferRotatePtr, bufferRotate := null, null;
    }

    ghost function View(): Session
      reads this
    {
      Session(status, nodestatus, startflag, stillcaptureok)
    }

    /** What the node does to a frame of this kind. */
    ghost function SymFor(encodeType: EncodeType): Sym
      reads this
    {
      match encodeType
      case H264 => H264Sym(IsFirst(cameraId), jpegRotation, jpegMirror)
      case Raw => if IsFirst(cameraId) then IDENTITY else ROT180
      case Jpeg => IDENTITY
    }

    ghost function Scratches(): Scratch
      reads this
    {
      Scratch(MemoryOf(bufferRotatePtr), MemoryOf(bufferRotate))
    }

    /** The call as far as scratch memory goes. */
    ghost function UseOf(buffer: IBuffer, r: Replies): Use
      reads this, buffer
    {
      Use.Frame(buffer.encodeType, buffer.statusOk, SymFor(buffer.encodeType) != IDENTITY,
                FrameLen(buffer.width, buffer.height), r.mallocOk)
    }

    /** The buffer as the session sees it. */
    ghost function FrameOf(buffer: IBuffer, r: Replies): CodecSession.Frame
      reads this, buffer
    {
      CodecSession.Frame(buffer.encodeType, buffer.statusOk,
            SymFor(H264) == IDENTITY || FrameLen(buffer.width, buffer.height) != 0,
            r.startRet, r.encRet, r.encType, r.jpegOk)
    }

    method ConvertCameraId(id: string) returns (camera: CameraId)
      ensures camera == Lookup(CODEC_MAP_CAMERA_ID, id)
    {
      var entries := CODEC_MAP_CAMERA_ID;
      for i := 0 to |entries|
        invariant Lookup(entries, id) == Lookup(entries[i..], id)
      {
        if entries[i].0 == id {
          return entries[i].1;
        }
      }
      camera := CAMERA_FIRST;
    }

    /** Applies the H264 symmetry in place, by way of the scratch memory. */
    method ApplyH264Transform(buffer: IBuffer, rotation: int, mirror: bool, id: string) returns (rc: RetCode)
      requires buffer.HoldsFrame() && Apart(bufferRotatePtr, buffer)
      requires H264Sym(IsFirst(id), rotation, mirror) != IDENTITY ==> Holds(bufferRotatePtr, buffer)
      modifies this`bufferRotatePtr, bufferRotatePtr, buffer.mem
      ensures buffer.Bytes() == old(buffer.Transformed(H264Sym(IsFirst(id), rotation, mirror)))
      ensures buffer.mem[FrameLen(buffer.width, buffer.height)..]
           == old(buffer.mem[FrameLen(buffer.width, buffer.height)..])
      ensures rc == RC_OK <==>
        H264Sym(IsFirst(id), rotation, mirror) == IDENTITY || FrameLen(buffer.width, buffer.height) != 0
      ensures bufferRotatePtr != null
      ensures if old(bufferRotatePtr) != null then bufferRotatePtr == old(bufferRotatePtr)
              else fresh(bufferRotatePtr) && bufferRotatePtr.Length == FrameLen(buffer.width, buffer.height)
    {
      hide Transform, FrameLen, Fits, Lookup, BufferSize;
      var w, h := buffer.width, buffer.height;
      var bufferSize := BufferSize(w, h);
      BufferSizeIsFrameLen(w, h);
      if bufferRotatePtr == null {
        bufferRotatePtr := new Byte[bufferSize];
      }
      TransformIdentity(buffer.Bytes(), w, h);
      var camera := ConvertCameraId(id);
      if camera == CAMERA_FIRST {
        return RC_OK;
      }
      if mirror {
        if rotation == ROTATION_90 || rotation == ROTATION_270 {
          var _ := Yuv420RotVMirror(bufferRotatePtr, buffer.mem, w, h);
        } else {
          var _ := Yuv420RotHMirror(bufferRotatePtr, buffer.mem, w, h);
        }
      } else if rotation != ROTATION_270 && rotation != ROTATION_90 {
        var _ := Yuv420spRot180(bufferRotatePtr, buffer.mem, w, h);
      } else {
        return RC_OK;
      }
      var ok := CopyBack(buffer.mem, bufferRotatePtr, bufferSize);
      rc := if ok then RC_OK else RC_ERROR;
    }

    /** Encodes a prepared frame; the frame's mark is what becomes of esKeyFrame. */
    method CallEncoder(buffer: IBuffer, r: Replies) returns (calls: seq<Call>, mark: Mark)
      requires h264Loaded && nodestatus == 1 && buffer.statusOk
      modifies this`status, this`startflag, buffer`statusOk, buffer`esKeyFrame
      ensures
        var out := StepH264(true, old(View()), old(FrameOf(buffer, r)).(prepared := true));
        View() == out.session && calls == out.calls && [Left(H264, buffer.statusOk, mark)] == out.left
      ensures buffer.esKeyFrame == match mark case Key => 1 case NonKey => 0 case Unmarked => old(buffer.esKeyFrame)
      ensures calls == if old(status) != 0 then [VspEnc]
                       else if r.startRet < 0 then [VspStart(r.startRet)]
                       else [VspStart(r.startRet), VspEnc]
      ensures mark == if VspEnc !in calls then Unmarked else if r.encRet == 0 && r.encType == 0 then Key else NonKey
      ensures buffer.statusOk <==>
        VspEnc !in calls || (r.encRet == 0 && (r.encType == 0 || (old(status) != 0 && old(startflag) != 1)))
    {
      hide H264Sym, IsFirst, FrameLen;
      calls, mark := [], Unmarked;
      if status == 0 {
        status := 1;
        calls := [VspStart(r.startRet)];
        if r.startRet < 0 {
          return;
        }
        startflag := 1;
      }
      calls := calls + [VspEnc];
      if r.encRet == 0 {
        if r.encType == 0 {
          buffer.esKeyFrame, mark := 1, Key;
          startflag := 0;
        } else {
          if startflag == 1 {
            buffer.statusOk := false;
          }
          buffer.esKeyFrame, mark := 0, NonKey;
        }
      } else {
        buffer.statusOk := false;
        buffer.esKeyFrame, mark := 0, NonKey;
      }
    }

    /** Prepares and encodes one frame. */
    method Yuv420ToH264WithUnisoc(buffer: IBuffer, r: Replies) returns (calls: seq<Call>, mark: Mark)
      requires buffer.HoldsFrame() && Apart(bufferRotatePtr, buffer)
      requires SymFor(H264) != IDENTITY ==> Holds(bufferRotatePtr, buffer)
      requires buffer.encodeType == H264 && buffer.statusOk && nodestatus == 1
      modifies this`bufferRotatePtr, this`status, this`startflag, bufferRotatePtr
      modifies buffer`statusOk, buffer`esKeyFrame, buffer.mem
      ensures
        var out := StepH264(h264Loaded, old(View()), old(FrameOf(buffer, r)));
        View() == out.session && calls == out.calls && [Left(H264, buffer.statusOk, mark)] == out.left
      ensures buffer.esKeyFrame == match mark case Key => 1 case NonKey => 0 case Unmarked => old(buffer.esKeyFrame)
      ensures buffer.Bytes() == old(buffer.Transformed(SymFor(H264)))
      ensures bufferRotatePtr != null
      ensures if old(bufferRotatePtr) != null then bufferRotatePtr == old(bufferRotatePtr)
              else fresh(bufferRotatePtr) && bufferRotatePtr.Length == FrameLen(buffer.width, buffer.height)
    {
      hide Transform, FrameLen, Fits, Lookup, H264Sym, IsFirst;
      hide IBuffer.HoldsFrame, IBuffer.Bytes, IBuffer.Transformed;
      calls, mark := [], Unmarked;
      var rc := ApplyH264Transform(buffer, jpegRotation, jpegMirror, cameraId);
      if rc != RC_OK || !h264Loaded {
        return;
      }
      calls, mark := CallEncoder(buffer, r);
    }

    /** The still-capture part, up to the release of stillcaptureMutex_. */
    method CaptureStill(buffer: IBuffer, r: Replies) returns (left: seq<Left>)
      requires buffer.encodeType == Jpeg && buffer.statusOk
      modifies this`stillcaptureok, buffer`statusOk
      ensures
        var out := StepJpeg(old(View()), old(FrameOf(buffer, r)));
        View() == out.session && left == out.left && [] == out.calls
      ensures |left| == 1 && buffer.statusOk == left[0].ok && left[0].mark == Unmarked
      ensures buffer.statusOk <==> old(stillcaptureok) == 0 && r.jpegOk
    {
      if stillcaptureok == 0 {
        buffer.statusOk := r.jpegOk;
        stillcaptureok := if buffer.statusOk then 1 else 0;
      } else {
        buffer.statusOk := false;
      }
      left := [Left(Jpeg, buffer.statusOk, Unmarked)];
    }

    /** Turns a frame for show; false if there is no scratch memory to be had. */
    method TurnForPreview(buffer: IBuffer, mallocOk: bool) returns (ok: bool)
      requires buffer.HoldsFrame() && Apart(bufferRotate, buffer)
      requires !IsFirst(cameraId) ==> Holds(bufferRotate, buffer)
      modifies this`bufferRotate, bufferRotate, buffer.mem
      ensures ok <==> IsFirst(cameraId) || old(bufferRotate) != null || mallocOk
      ensures buffer.Bytes() == old(if ok then buffer.Transformed(SymFor(Raw)) else buffer.Bytes())
      ensures buffer.Bytes()
           == old(if ok && !IsFirst(cameraId) then buffer.Transformed(ROT180) else buffer.Bytes())
      ensures buffer.mem[FrameLen(buffer.width, buffer.height)..]
           == old(buffer.mem[FrameLen(buffer.width, buffer.height)..])
      ensures if old(bufferRotate) != null || IsFirst(cameraId) || !mallocOk then bufferRotate == old(bufferRotate)
              else bufferRotate != null && fresh(bufferRotate)
                   && bufferRotate.Length == FrameLen(buffer.width, buffer.height)
    {
      hide Transform, FrameLen, Fits, Lookup, BufferSize;
      var w, h := buffer.width, buffer.height;
      var yuvLength := BufferSize(w, h);
      BufferSizeIsFrameLen(w, h);
      TransformIdentity(buffer.Bytes(), w, h);
      ok := true;
      var camera := ConvertCameraId(cameraId);
      if camera != CAMERA_FIRST {
        if bufferRotate == null {
          if !mallocOk {
            return false;
          }
          bufferRotate := new Byte[yuvLength];
        }
        var _ := Yuv420spRot180(bufferRotate, buffer.mem, w, h);
        var _ := CopyBack(buffer.mem, bufferRotate, yuvLength);
      }
    }

    /** The part of DeliverBuffer for H264 frames. */
    method DeliverVideo(buffer: IBuffer, r: Replies) returns (calls: seq<Call>, left: seq<Left>)
      requires buffer.HoldsFrame() && Apart(bufferRotatePtr, buffer)
      requires SymFor(H264) != IDENTITY ==> Holds(bufferRotatePtr, buffer)
      requires buffer.encodeType == H264 && buffer.statusOk
      modifies this`bufferRotatePtr, this`status, this`nodestatus, this`startflag, bufferRotatePtr
      modifies buffer`statusOk, buffer`esKeyFrame, buffer.mem
      ensures
        var out := StepH264(h264Loaded, old(View()), old(FrameOf(buffer, r)));
        View() == out.session && calls == out.calls && left == out.left
      ensures |left| == 1 && left[0].ok == buffer.statusOk
      ensures buffer.esKeyFrame ==
        match left[0].mark case Key => 1 case NonKey => 0 case Unmarked => old(buffer.esKeyFrame)
      ensures buffer.Bytes() == old(buffer.Transformed(SymFor(H264)))
      ensures bufferRotatePtr != null
      ensures if old(bufferRotatePtr) != null then bufferRotatePtr == old(bufferRotatePtr)
              else fresh(bufferRotatePtr) && bufferRotatePtr.Length == FrameLen(buffer.width, buffer.height)
    {
      hide Transform, FrameLen, Fits, Lookup, H264Sym, StepH264, IsFirst;
      hide IBuffer.HoldsFrame, IBuffer.Bytes, IBuffer.Transformed;
      H264StepMarksNode(h264Loaded, View(), FrameOf(buffer, r));
      nodestatus := 1;
      var mark;
      calls, mark := Yuv420ToH264WithUnisoc(buffer, r);
      left := [Left(H264, buffer.statusOk, mark)];
    }

    /** Handles one buffer.  Returned are the calls made into the H264 encoder and the
        frame passed on, if any. */
    method DeliverBuffer(buffer: IBuffer?, r: Replies) returns (calls: seq<Call>, left: seq<Left>)
      requires buffer != null ==>
        && buffer.HoldsFrame() && Apart(bufferRotatePtr, buffer) && Apart(bufferRotate, buffer)
        && Inside(Scratches(), UseOf(buffer, r))
      requires bufferRotatePtr != null ==> bufferRotatePtr != bufferRotate
      modifies this`bufferRotatePtr, this`bufferRotate, this`status, this`nodestatus, this`startflag,
        this`stillcaptureok, bufferRotatePtr, bufferRotate
      modifies if buffer == null then {} else {buffer, buffer.mem}
      ensures buffer == null ==> View() == old(View()) && calls == [] && left == []
      ensures buffer != null ==>
        var out := Step(h264Loaded, old(View()), Deliver(old(FrameOf(buffer, r))));
        var dropped := old(buffer.encodeType == Raw && buffer.statusOk && !IsFirst(cameraId) && bufferRotate == null)
                       && !r.mallocOk;
        && View() == out.session && calls == out.calls
        && left == (if dropped then [] else out.left)
        && (left != [] ==>
              && buffer.statusOk == left[0].ok
              && buffer.esKeyFrame == match left[0].mark case Key => 1 case NonKey => 0
                                      case Unmarked => old(buffer.esKeyFrame))
        && buffer.width == old(buffer.width) && buffer.height == old(buffer.height)
        && buffer.encodeType == old(buffer.encodeType)
        && (old(buffer.encodeType) != Jpeg ==>
              buffer.Bytes() == old(if dropped || !buffer.statusOk then buffer.Bytes()
                                    else buffer.Transformed(SymFor(buffer.encodeType))))
      ensures buffer != null ==>
        && Apart(bufferRotatePtr, buffer) && Apart(bufferRotate, buffer)
        && Scratches() == Next(old(Scratches()), old(UseOf(buffer, r)))
      ensures bufferRotatePtr != null ==> bufferRotatePtr != bufferRotate
    {
      hide Transform, FrameLen, Fits, Lookup, H264Sym, StepH264, StepJpeg, IsFirst;
      hide IBuffer.HoldsFrame, IBuffer.Bytes, IBuffer.Transformed;
      calls, left := [], [];
      if buffer == null {
        return;
      }
      if !buffer.statusOk {
        left := [Left(buffer.encodeType, false, Unmarked)];
        return;
      }
      if buffer.encodeType == Jpeg {
        left := CaptureStill(buffer, r);
        return;
      } else if buffer.encodeType == H264 {
        calls, left := DeliverVideo(buffer, r);
        return;
      }
      var ok := TurnForPreview(buffer, r.mallocOk);
      if ok {
        left := [Left(Raw, buffer.statusOk, Unmarked)];
      }
    }

    /** `poolOk` says that the buffer manager and the pool exist. */
    method Start(poolOk: bool) returns (rc: RetCode)
      modifies this`startflag, this`stillcaptureok, this`bufferRotate
      ensures View() == Step(h264Loaded, old(View()), Event.Start).session
      ensures rc == RC_OK <==> poolOk
      ensures bufferRotate == (if poolOk then null else old(bufferRotate))
      ensures Scratches() == if poolOk then Next(old(Scratches()), FreePreview) else old(Scratches())
    {
      startflag := 0;
      stillcaptureok := 0;
      if !poolOk {
        return RC_ERROR;
      }
      bufferRotate := null;
      rc := RC_OK;
    }

    method Stop() returns (rc: RetCode)
      modifies this`startflag, this`stillcaptureok, this`bufferRotate
      ensures View() == Step(h264Loaded, old(View()), Event.Stop).session
      ensures rc == RC_OK && bufferRotate == null
      ensures Scratches() == Next(old(Scratches()), FreePreview)
    {
      startflag := 0;
      stillcaptureok := 0;
      bufferRotate := null;
      rc := RC_OK;
    }

    /** It fails only where the encoder is missing, which a reachable session excludes. */
    method CancelCapture() returns (rc: RetCode, calls: seq<Call>)
      modifies this`status, this`nodestatus, this`stillcaptureok
      ensures
        var out := Step(h264Loaded, old(View()), Event.CancelCapture);
        View() == out.session && calls == out.calls
      ensures old(Inv(h264Loaded, View())) ==> rc == RC_OK && Inv(h264Loaded, View()) && status == nodestatus == 0
    {
      rc, calls := RC_OK, [];
      if nodestatus == 1 {
        if status == 1 {
          status := 0;
          if h264Loaded {
            calls := [VspStop];
          } else {
            rc := RC_ERROR;
          }
        }
        nodestatus := 0;
      }
      stillcaptureok := 0;
    }
  }
}
