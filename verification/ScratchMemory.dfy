/** The node's two pieces of scratch memory over whole runs.  Each is made for the first
frame that needs it and keeps that frame's size; only the preview's is ever freed. */
module ScratchMemory {
  import opened CodecSession

  /** A DeliverBuffer call, as far as scratch memory goes: `turned` says that the node
      turns the frame.  FreePreview is a successful Start, or a Stop. */
  datatype Use =
    | Frame(encodeType: EncodeType, statusOk: bool, turned: bool, size: nat, mallocOk: bool)
    | FreePreview

  datatype Memory = Missing | Bytes(size: nat)

  datatype Scratch = Scratch(video: Memory, preview: Memory)

  const NO_SCRATCH := Scratch(Missing, Missing)

  predicate IsVideo(u: Use) {
    u.Frame? && u.statusOk && u.encodeType == H264
  }

  predicate IsPreview(u: Use) {
    u.Frame? && u.statusOk && u.encodeType == Raw && u.turned
  }

  function Next(m: Scratch, u: Use): Scratch {
    if u.FreePreview? then m.(preview := Missing)
    else if IsVideo(u) && m.video.Missing? then m.(video := Bytes(u.size))
    else if IsPreview(u) && m.preview.Missing? && u.mallocOk then m.(preview := Bytes(u.size))
    else m
  }

  predicate VideoInside(m: Scratch, u: Use) {
    IsVideo(u) && u.turned ==> u.size <= Next(m, u).video.size
  }

  predicate PreviewInside(m: Scratch, u: Use) {
    IsPreview(u) && Next(m, u).preview.Bytes? ==> u.size <= Next(m, u).preview.size
  }

  /** What the call writes to scratch memory stays inside it. */
  predicate Inside(m: Scratch, u: Use) {
    VideoInside(m, u) && PreviewInside(m, u)
  }

  /** The scratch memory after the first n calls. */
  function After(us: seq<Use>, n: nat): Scratch
    requires n <= |us|
  {
    if n == 0 then NO_SCRATCH else Next(After(us, n - 1), us[n - 1])
  }

  ghost predicate AllInside(us: seq<Use>) {
    forall k :: 0 <= k < |us| ==> Inside(After(us, k), us[k])
  }

  // ---------------------------------------------------------------- whose size it has

  /** Call i is the first with an H264 frame. */
  ghost predicate MakesVideo(us: seq<Use>, i: nat)
    requires i < |us|
  {
    IsVideo(us[i]) && forall j :: 0 <= j < i ==> !IsVideo(us[j])
  }

  predicate CanMakePreview(u: Use) {
    IsPreview(u) && u.mallocOk
  }

  ghost predicate NotFreed(us: seq<Use>, from: nat, to: nat)
    requires to <= |us|
  {
    forall j :: from <= j < to ==> !us[j].FreePreview?
  }

  /** Call i is the first to make preview scratch after the last time it was freed, among
      the first n calls. */
  ghost predicate MakesPreview(us: seq<Use>, i: nat, n: nat)
    requires i < n <= |us|
  {
    && CanMakePreview(us[i]) && NotFreed(us, i, n)
    && forall j :: 0 <= j < i && CanMakePreview(us[j]) ==> !NotFreed(us, j, i)
  }

  lemma {:induction false} VideoAfter(us: seq<Use>, n: nat)
    requires n <= |us|
    ensures After(us, n).video.Missing? <==> forall j :: 0 <= j < n ==> !IsVideo(us[j])
    ensures forall i :: 0 <= i < n && MakesVideo(us, i) ==> After(us, n).video == Bytes(us[i].size)
  {
    if n > 0 {
      VideoAfter(us, n - 1);
    }
  }

  lemma {:induction false} FirstVideo(us: seq<Use>, n: nat) returns (i: nat)
    requires n <= |us| && exists j :: 0 <= j < n && IsVideo(us[j])
    ensures i < n && MakesVideo(us, i)
  {
    if exists j :: 0 <= j < n - 1 && IsVideo(us[j]) {
      i := FirstVideo(us, n - 1);
    } else {
      i := n - 1;
    }
  }

  lemma {:induction false} PreviewHeld(us: seq<Use>, j: nat, n: nat)
    requires j < n <= |us| && CanMakePreview(us[j]) && NotFreed(us, j, n)
    ensures After(us, n).preview.Bytes?
  {
    if j < n - 1 {
      PreviewHeld(us, j, n - 1);
    }
  }

  lemma {:induction false} PreviewMaker(us: seq<Use>, n: nat) returns (i: nat)
    requires n <= |us| && After(us, n).preview.Bytes?
    ensures i < n && MakesPreview(us, i, n) && After(us, n).preview.size == us[i].size
  {
    if After(us, n - 1).preview.Bytes? {
      i := PreviewMaker(us, n - 1);
    } else {
      i := n - 1;
      forall j | 0 <= j < i && CanMakePreview(us[j]) ensures !NotFreed(us, j, i) {
        if NotFreed(us, j, i) {
          PreviewHeld(us, j, i);
        }
      }
    }
  }

  lemma MakerFirst(us: seq<Use>, i: nat, j: nat, n: nat)
    requires i < n <= |us| && j < n && MakesPreview(us, i, n) && CanMakePreview(us[j]) && NotFreed(us, j, n)
    ensures i <= j
  {
    assert j < i ==> NotFreed(us, j, i);
  }

  /** Frame k is no larger than the frame its scratch memory was made for. */
  ghost predicate VideoNoLarger(us: seq<Use>, k: nat)
    requires k < |us|
  {
    IsVideo(us[k]) && us[k].turned ==> forall i :: 0 <= i <= k && MakesVideo(us, i) ==> us[k].size <= us[i].size
  }

  ghost predicate PreviewNoLarger(us: seq<Use>, k: nat)
    requires k < |us|
  {
    IsPreview(us[k]) ==>
      forall i, n :: 0 <= i < n == k + 1 && MakesPreview(us, i, n) ==> us[k].size <= us[i].size
  }

  ghost predicate NoLarger(us: seq<Use>, k: nat)
    requires k < |us|
  {
    VideoNoLarger(us, k) && PreviewNoLarger(us, k)
  }

  lemma VideoIff(us: seq<Use>, k: nat)
    requires k < |us|
    ensures VideoInside(After(us, k), us[k]) <==> VideoNoLarger(us, k)
  {
    if IsVideo(us[k]) {
      VideoAfter(us, k + 1);
      assert After(us, k + 1) == Next(After(us, k), us[k]);
      hide After, Next, MakesVideo;
      var i := FirstVideo(us, k + 1);
    }
  }

  lemma PreviewIff(us: seq<Use>, k: nat)
    requires k < |us|
    ensures PreviewInside(After(us, k), us[k]) <==> PreviewNoLarger(us, k)
  {
    var n := k + 1;
    assert After(us, n) == Next(After(us, k), us[k]);
    hide After, Next, MakesPreview, IsPreview, IsVideo;
    if After(us, n).preview.Bytes? {
      var i := PreviewMaker(us, n);
    }
    forall j, m | 0 <= j < m == n && MakesPreview(us, j, m) ensures After(us, m).preview == Bytes(us[j].size) {
      MadeBy(us, j, m);
    }
  }

  lemma MadeBy(us: seq<Use>, j: nat, n: nat)
    requires j < n <= |us| && MakesPreview(us, j, n)
    ensures After(us, n).preview == Bytes(us[j].size)
  {
    PreviewHeld(us, j, n);
    var i := PreviewMaker(us, n);
    MakersAgree(us, i, j, n);
  }

  lemma MakersAgree(us: seq<Use>, i: nat, j: nat, n: nat)
    requires i < n <= |us| && j < n && MakesPreview(us, i, n) && MakesPreview(us, j, n)
    ensures i == j
  {
    MakerFirst(us, i, j, n);
    MakerFirst(us, j, i, n);
  }

  /** In every run, all writes stay inside the scratch memory if and only if no frame that
      is turned is larger than the one its scratch memory was made for. */
  lemma AllInsideIff(us: seq<Use>)
    ensures AllInside(us) <==> forall k :: 0 <= k < |us| ==> NoLarger(us, k)
  {
    forall k | 0 <= k < |us| ensures Inside(After(us, k), us[k]) <==> NoLarger(us, k) {
      VideoIff(us, k);
      PreviewIff(us, k);
    }
  }

  /** The video scratch is never made anew: one small frame at first, and every larger one
      that is turned overruns it, whatever Starts and Stops lie between. */
  lemma SmallFirstFrame(us: seq<Use>, k: nat)
    requires 0 < k < |us| && IsVideo(us[0]) && IsVideo(us[k]) && us[k].turned && us[k].size > us[0].size
    ensures !AllInside(us)
  {
    AllInsideIff(us);
    assert MakesVideo(us, 0);
    assert !NoLarger(us, k);
  }
}
