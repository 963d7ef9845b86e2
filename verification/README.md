# Verified model of the wukong100 camera and audio adapters

This project models, in Dafny, the parts of the wukong100 board support that carry loops,
state or concurrency, and proves what they guarantee.

* **Frame transforms** (`Symmetry`, `SemiPlanar`, `Transforms`, `FrameLaws`). The five
  rotations and mirrors of semi-planar YUV 4:2:0 frames (NV12 / NV21) are methods over byte
  arrays with the source's nested loops and running indexes. Each is proved to compute one
  of the eight symmetries of a rectangle, acting on luma bytes and on whole chroma pairs.
  The laws between them are proved on whole buffers of every size.
* **Codec node** (`CodecNode`, `CodecLaws`, `CodecSession`, `SessionLaws`, `StillCapture`,
  `ScratchMemory`). The node is a class with the source's fields; its methods turn frames in
  place and move a session machine over `status`, `nodestatus`, `startflag` and
  `stillcaptureok_`, about which properties of every run are proved. `StillCapture`
  interleaves several delivering threads; `ScratchMemory` follows the size of the scratch
  buffers.
* **Frame queue** (`FrameQueue`, `FrameQueueSafety`, `FrameQueueOwners`,
  `FrameQueueProgress`, `FrameQueueLoss`, `FrameQueueStop`). Any number of threads in
  `QueueBuffer`, the thread in `loopBuffers` and the kernel queue, as a step system: one
  step is one ioctl, one counter update or one piece of code under `bufferLock_`. The
  kernel's part is the contract of VIDIOC_QBUF and VIDIOC_DQBUF: DQBUF returns an index that
  was queued and not yet returned, in any order.
* **Buffer object** (`AdapterBuffers`, `AdapterLaws`). The class behind those calls, one
  call at a time: binding of driver slots to user memory, the in-flight map, and the copy of
  each frame.
* **Uevent records** (`Uevent`). The scanner for ACTION, SUBSYSTEM and DEVNAME, against a
  meaning given on lists of records.
* **Playback** (`RenderWrite`, `RenderWriteLaws`, `RenderScene`, `RenderSceneLaws`). The
  write loop against an arbitrary sequence of device replies, and the scene machine that
  opens and closes the call-capture device.

Replies of ioctls, encoders, the sound library, `malloc` and mixer calls are inputs, and the
properties hold for all of them.

## What turned out not to hold as one might expect

* A failed `VspStart` leaves `status` at 1. The next frame is encoded all the same and
  leaves with OK status although there has been no key frame, and `CancelCapture` calls
  `VspStop` on an encoder that never started (`CodecSession.FailedStartUnnoticed`,
  `CodecSession.SessionsStartedIff`).
* `Start` or `Stop` in the middle of an encoder session clears `startflag`, so non-key
  frames then leave with OK status before any key frame (`CodecSession.FrameLeavesOkIff` has
  the exact condition).
* The scratch memory for video frames is made for the first frame and never again, so a
  larger frame that is turned overruns it (`ScratchMemory.AllInsideIff`).
* "At most one JPEG buffer leaves OK between two resets" holds of the encoding, which is
  under the mutex, but not of the buffers leaving the node, which happens after it; it does
  if resets wait for encoded buffers to be passed on (`StillCapture`).
* `StartStream` zeroes `currStartQueueBuffNum`. Frames queued before it, and failed DQBUFs,
  cost a count each for good. Eight of them stop the queue for ever
  (`FrameQueueLoss.StallsIff`, with a run in `EightCallsThenStartStall`); fewer leave as
  many frames undelivered (`FrameQueueProgress.ExitMeansDrained`).
* `StopStream` can overtake a `QueueBuffer` call that has inserted its frame and not yet
  counted it: the thread ends, `StreamOff` follows, and the frame stays in the map although
  no count was lost (`FrameQueueStop.StopOvertakesCall`, with the exact condition in
  `FrameQueueStop.AllDeliveredIff`).
* Mapping a slot for one frame binds it without lowering `adapterBufferMapNum`, and
  `V4L2ReleaseBuffers` does not reset it (`AdapterBuffers.BindNowBalanced`).
* A slot whose `mmap` failed keeps the error value, so that mapping it again succeeds
  without mapping it, and it can be bound and copied from
  (`AdapterBuffers.FailedMappingKept`).
* A uevent that fills its buffer with no empty record in it makes `strlen` read past the end
  (`Uevent.VisitsEveryRecord`).
* A call selected while the scene is MMAP_NOIRQ, as it is at first and whenever that scene
  has been selected, never opens the capture device, and every start in it fails
  (`RenderScene.CallFromMmapNoirq`).
* `RC_ERROR` is positive
  (`wukong100/camera/vdi_impl/v4l2/driver_adapter/include/v4l2_temp.h:113-119`) while the
  test after the copy is `rc < 0`, so a failed copy never marks a frame INVALID; the model
  has no such marking.

## Assumptions

* Frames have even width and height, as the chroma loops need; source and destination of a
  transform are different memory; a buffer holds the frame it describes; user buffers are
  disjoint from driver memory and at least as long as their slot.
* Frame queue: one camera, one consumer thread, one start and stop of the stream; a client
  queues an index again only after its callback; no `ReleaseBuffers` or `ReqBuffers` while
  streaming; `StreamOff` succeeds.
* The shared buffer object works on memory-mapped buffers, the only memory type the device
  selects (`wukong100/camera/vdi_impl/v4l2/driver_adapter/src/v4l2_dev.cpp:836-839`).
* `memcpy_s` fails exactly on a size of 0. An open of the capture PCM that fails leaves the
  handle as it was. The device never takes more frames than it is offered.
* `SndisBusy`, `SndMatchSelAdapter`, `SndCloseHandle` and what they do to the card, and the
  value of `AUDIO_ALSALIB_RETYR`, are not in the repository: they are arbitrary inputs (the
  retry count is at least 1 where termination is claimed).

## Model

| member | source | states |
|---|---|---|
| `Transforms.Yuv420RotRight90` | wukong100/camera/vdi_impl/v4l2/pipeline_core/src/node/codec_node.cpp:176-206 | For even width, the loops fill the first 3wh/2 bytes of dst with the whole frame turned right, writing each of those indexes exactly once and no other, and reading only src |
| `Transforms.Yuv420RotLeft90` | wukong100/camera/vdi_impl/v4l2/pipeline_core/src/node/codec_node.cpp:208-238 | Likewise for the left turn |
| `Transforms.Yuv420spRot180` | wukong100/camera/vdi_impl/v4l2/pipeline_core/src/node/codec_node.cpp:271-300 | Likewise for the half turn (the text of Yuv420Rot180 is the same) |
| `Transforms.Yuv420RotHMirror` | wukong100/camera/vdi_impl/v4l2/pipeline_core/src/node/codec_node.cpp:302-331 | Likewise for the left-to-right mirror |
| `Transforms.Yuv420RotVMirror` | wukong100/camera/vdi_impl/v4l2/pipeline_core/src/node/codec_node.cpp:333-361 | Likewise for the upside-down mirror |
| `Transforms.Yuv420RotRight90Luma` | wukong100/camera/vdi_impl/v4l2/pipeline_core/src/node/codec_node.cpp:178-191 | The luma loop writes dst[0..wh), each index once, and leaves n at wh |
| `Transforms.Yuv420RotRight90Chroma` | wukong100/camera/vdi_impl/v4l2/pipeline_core/src/node/codec_node.cpp:192-206 | The chroma loop goes on from there and leaves n at 3wh/2 (the other four transforms have the same pair of contracts) |
| `SemiPlanar.TransformCompose` | wukong100/camera/vdi_impl/v4l2/pipeline_core/src/node/codec_node.cpp:176-361 | On every frame buffer, one symmetry after another is their composition: the group law behind all laws below |
| `SemiPlanar.TransformInverse` | wukong100/camera/vdi_impl/v4l2/pipeline_core/src/node/codec_node.cpp:176-361 | Every symmetry is undone, byte for byte, by its inverse |
| `SemiPlanar.TransformPermutes` | wukong100/camera/vdi_impl/v4l2/pipeline_core/src/node/codec_node.cpp:176-361 | Output bytes are a rearrangement of the input bytes, luma within luma, and the chroma pairs, as pairs, within chroma |
| `FrameLaws.QuarterTurnsCancel` | wukong100/camera/vdi_impl/v4l2/pipeline_core/src/node/codec_node.cpp:176-238 | Left after right and right after left restore every byte, for all sizes |
| `FrameLaws.TwoQuarterTurns` | wukong100/camera/vdi_impl/v4l2/pipeline_core/src/node/codec_node.cpp:176-300 | Two turns the same way are the half turn |
| `FrameLaws.TurnThenMirror` | wukong100/camera/vdi_impl/v4l2/pipeline_core/src/node/codec_node.cpp:176-361 | HMirror after the right turn and VMirror after the left turn are both the transpose |
| `FrameLaws.MirrorsMakeHalfTurn` | wukong100/camera/vdi_impl/v4l2/pipeline_core/src/node/codec_node.cpp:271-361 | HMirror and VMirror in either order are the half turn |
| `FrameLaws.LumaMoved` | wukong100/camera/vdi_impl/v4l2/pipeline_core/src/node/codec_node.cpp:176-361 | For every symmetry, which source byte each luma position of the output holds |
| `FrameLaws.PairMoved` | wukong100/camera/vdi_impl/v4l2/pipeline_core/src/node/codec_node.cpp:176-361 | For every symmetry, which source pair each chroma position holds: two adjacent bytes, in the same order |
| `FrameLaws.RightTurnCells` | wukong100/camera/vdi_impl/v4l2/pipeline_core/src/node/codec_node.cpp:176-206 | Cell by cell, in row-major positions: out[r*h + c] is byte (h-1-c)*w + r of the source, and likewise for the pairs |
| `FrameLaws.LeftTurnCells` | wukong100/camera/vdi_impl/v4l2/pipeline_core/src/node/codec_node.cpp:208-238 | out[r*h + c] is byte c*w + (w-1-r) of the source, and likewise for the pairs |
| `FrameLaws.HalfTurnCells` | wukong100/camera/vdi_impl/v4l2/pipeline_core/src/node/codec_node.cpp:271-300 | out[r*w + c] is byte (h-1-r)*w + (w-1-c) of the source, and likewise for the pairs |
| `FrameLaws.HMirrorCells` | wukong100/camera/vdi_impl/v4l2/pipeline_core/src/node/codec_node.cpp:302-331 | out[r*w + c] is byte r*w + (w-1-c) of the source, and likewise for the pairs |
| `FrameLaws.VMirrorCells` | wukong100/camera/vdi_impl/v4l2/pipeline_core/src/node/codec_node.cpp:333-361 | out[r*w + c] is byte (h-1-r)*w + c of the source, and likewise for the pairs |
| `CodecNode.MirrorAddsVMirror` | wukong100/camera/vdi_impl/v4l2/pipeline_core/src/node/codec_node.cpp:684-699 | At every rotation, mirror-on is VMirror after mirror-off if and only if the camera is not the first |
| `CodecNode.MirrorOnFrame` | wukong100/camera/vdi_impl/v4l2/pipeline_core/src/node/codec_node.cpp:684-699 | The same, on the bytes of every frame |
| `CodecNode.SecondPassRestores` | wukong100/camera/vdi_impl/v4l2/pipeline_core/src/node/codec_node.cpp:668-707 | Applying the H264 transform twice with the same settings restores every frame |
| `CodecLaws.H264Cells` | wukong100/camera/vdi_impl/v4l2/pipeline_core/src/node/codec_node.cpp:684-699 | Cell by cell, for every camera but the first: at 90 and 270 degrees unchanged, or mirrored out[r][c] is cell (h-1-r, c); at every other rotation cell (h-1-r, w-1-c), or mirrored (r, w-1-c); the pairs likewise |
| `CodecLaws.FirstCameraUntouched` | wukong100/camera/vdi_impl/v4l2/pipeline_core/src/node/codec_node.cpp:681-683 | The first camera's frames are unchanged at every setting |
| `CodecLaws.CameraOfName` | wukong100/camera/vdi_impl/v4l2/pipeline_core/src/node/codec_node.cpp:368-381 | Which name is which camera; every other name is the first |
| `CodecNode.BufferSizeIsFrameLen` | wukong100/camera/vdi_impl/v4l2/pipeline_core/src/node/codec_node.cpp:671 | The 32-bit size computation gives the frame size if and only if 3wh does not wrap |
| `CodecNode.CodecNode.ConvertCameraId` | wukong100/camera/vdi_impl/v4l2/pipeline_core/src/node/codec_node.cpp:368-381 | The loop finds the first table entry of the id, or gives the first camera |
| `CodecNode.CodecNode.ApplyH264Transform` | wukong100/camera/vdi_impl/v4l2/pipeline_core/src/node/codec_node.cpp:668-707 | The frame is replaced in place by its symmetry for camera, rotation and mirror; exactly when it fails; the scratch memory is kept, or made for this frame; scratch memory has to be large enough only where the frame is turned |
| `CodecNode.CodecNode.Yuv420ToH264WithUnisoc` | wukong100/camera/vdi_impl/v4l2/pipeline_core/src/node/codec_node.cpp:709-758 | Fields, encoder calls, status and key-frame mark are those of the session machine; the bytes are those of the H264 symmetry |
| `CodecNode.CodecNode.CaptureStill` | wukong100/camera/vdi_impl/v4l2/pipeline_core/src/node/codec_node.cpp:815-823 | The part under stillcaptureMutex_ is the JPEG step of the session machine |
| `CodecNode.CodecNode.TurnForPreview` | wukong100/camera/vdi_impl/v4l2/pipeline_core/src/node/codec_node.cpp:835-848 | The frame shown is the half turn of the one received, except for the first camera; exactly when scratch memory is missing |
| `CodecNode.CodecNode.DeliverBuffer` | wukong100/camera/vdi_impl/v4l2/pipeline_core/src/node/codec_node.cpp:801-849 | Every branch is a step of the session machine, what it does to the bytes of the frame, and what becomes of the scratch memory; it asks exactly that its own writes to scratch memory stay inside |
| `CodecNode.CodecNode.Start` | wukong100/camera/vdi_impl/v4l2/pipeline_core/src/node/codec_node.cpp:115-146 | Resets startflag and stillcaptureok_ even when it fails; frees the preview scratch only when it succeeds |
| `CodecNode.CodecNode.Stop` | wukong100/camera/vdi_impl/v4l2/pipeline_core/src/node/codec_node.cpp:148-161 | Resets startflag and stillcaptureok_ and frees the preview scratch |
| `CodecNode.CodecNode.CancelCapture` | wukong100/camera/vdi_impl/v4l2/pipeline_core/src/node/codec_node.cpp:859-884 | A step of the session machine; from every reachable session it succeeds and closes |
| `ScratchMemory.AllInsideIff` | wukong100/camera/vdi_impl/v4l2/pipeline_core/src/node/codec_node.cpp:668-707 | In every run of deliveries, Starts and Stops, all writes stay inside the scratch memory if and only if no frame that is turned is larger than the one its scratch memory was made for |
| `ScratchMemory.SmallFirstFrame` | wukong100/camera/vdi_impl/v4l2/pipeline_core/src/node/codec_node.cpp:673-679 | The video scratch is never made anew: after a small first frame, a larger one that is turned overruns it |
| `CodecSession.RunInv` | wukong100/camera/vdi_impl/v4l2/pipeline_core/src/node/codec_node.cpp:709-884 | In every run, status = 1 implies nodestatus = 1 and a loaded encoder |
| `CodecSession.CallsAlternate` | wukong100/camera/vdi_impl/v4l2/pipeline_core/src/node/codec_node.cpp:709-758 | In every run, calls to VspStart and VspStop strictly alternate, VspEnc is called only between them, and status says which was called last; whether a start succeeded is the next row |
| `CodecSession.SessionsStartedIff` | wukong100/camera/vdi_impl/v4l2/pipeline_core/src/node/codec_node.cpp:729-736 | In every run, encoding and stopping happen only in a session whose VspStart succeeded, if and only if every VspStart but perhaps the last call succeeded |
| `CodecSession.FailedStartUnnoticed` | wukong100/camera/vdi_impl/v4l2/pipeline_core/src/node/codec_node.cpp:729-736 | Otherwise: after a failed VspStart the next frame is encoded and leaves OK with no key frame, and CancelCapture stops an encoder that never started |
| `CodecSession.CancelCloses` | wukong100/camera/vdi_impl/v4l2/pipeline_core/src/node/codec_node.cpp:859-884 | After every run, CancelCapture leaves status and nodestatus 0, with one VspStop exactly if status was 1 |
| `CodecSession.StartflagMeans` | wukong100/camera/vdi_impl/v4l2/pipeline_core/src/node/codec_node.cpp:709-758 | In every run, startflag is 1 if and only if a VspStart has succeeded since the latest key frame, Start or Stop |
| `CodecSession.FrameLeavesOkIff` | wukong100/camera/vdi_impl/v4l2/pipeline_core/src/node/codec_node.cpp:729-757 | In every run, a non-key frame the encoder returns leaves OK if and only if no VspStart has succeeded since the latest key frame, Start or Stop; and exactly when any other H264 frame does |
| `SessionLaws.CallsForFrame` | wukong100/camera/vdi_impl/v4l2/pipeline_core/src/node/codec_node.cpp:729-738 | In every run, VspStart is called for a frame exactly where no session is open, VspEnc exactly where one is or its start has just succeeded, and nothing else |
| `SessionLaws.NodestatusMeans` | wukong100/camera/vdi_impl/v4l2/pipeline_core/src/node/codec_node.cpp:826-827 | In every run, nodestatus is 1 if and only if an H264 frame has come since the latest CancelCapture |
| `SessionLaws.StillFlagMeans` | wukong100/camera/vdi_impl/v4l2/pipeline_core/src/node/codec_node.cpp:815-823 | In every run, stillcaptureok_ is 1 if and only if a still picture has left OK since the latest Start, Stop or CancelCapture |
| `SessionLaws.StillLeavesOkIff` | wukong100/camera/vdi_impl/v4l2/pipeline_core/src/node/codec_node.cpp:809-825 | In every run, a JPEG frame leaves OK if and only if it is encoded and none has left since the latest reset |
| `SessionLaws.PassedOn` | wukong100/camera/vdi_impl/v4l2/pipeline_core/src/node/codec_node.cpp:809-849 | Frames that came in invalid and frames not encoded are passed on as they are, and nothing else happens |
| `SessionLaws.ResetsElsewhere` | wukong100/camera/vdi_impl/v4l2/pipeline_core/src/node/codec_node.cpp:115-161 | What Start, Stop and CancelCapture leave alone |
| `StillCapture.OneEncodedBetweenResets` | wukong100/camera/vdi_impl/v4l2/pipeline_core/src/node/codec_node.cpp:813-823 | In every interleaving of delivering threads and resets, two successful JPEG encodings have a reset between them |
| `StillCapture.OneForwardedBetweenResets` | wukong100/camera/vdi_impl/v4l2/pipeline_core/src/node/codec_node.cpp:813-825 | In every run, two JPEG buffers that left with OK status have a reset between them, if resets wait for encoded pictures to be passed on |
| `StillCapture.ResetWhileHeld` | wukong100/camera/vdi_impl/v4l2/pipeline_core/src/node/codec_node.cpp:813-825 | Whenever a reset does not wait, two buffers can leave OK without a reset between them: the condition is needed |
| `StillCapture.ResetSafeIffNoneHeld` | wukong100/camera/vdi_impl/v4l2/pipeline_core/src/node/codec_node.cpp:813-825 | In every state whose resets have waited so far, a reset keeps the property in all continuations if and only if no encoded picture is waiting to be passed on |
| `StillCapture.HeldAfterEncoding` | wukong100/camera/vdi_impl/v4l2/pipeline_core/src/node/codec_node.cpp:813-825 | Such a picture is there one step after the start |
| `StillCapture.EncodedAreForwarded` | wukong100/camera/vdi_impl/v4l2/pipeline_core/src/node/codec_node.cpp:813-825 | In every interleaving, as many pictures are forwarded with each status as were encoded with it, less those still held |
| `FrameQueueSafety.StepKeepsInv` | wukong100/camera/vdi_impl/v4l2/driver_adapter/src/v4l2_buffer.cpp:67-125 | Every step of every thread keeps the invariant of lock, index ownership, in-flight map, counters and frame flow |
| `FrameQueueSafety.ReachableInv` | wukong100/camera/vdi_impl/v4l2/driver_adapter/src/v4l2_dev.cpp:320-355 | The invariant holds in every state any interleaving reaches |
| `FrameQueueSafety.DequeuedIndexIsFound` | wukong100/camera/vdi_impl/v4l2/driver_adapter/src/v4l2_buffer.cpp:195-227 | In every reachable state the index DQBUF returned is in the map, mapped to the very frame queued with it |
| `FrameQueueSafety.FramesConserved` | wukong100/camera/vdi_impl/v4l2/driver_adapter/src/v4l2_buffer.cpp:93-120 | Frames queued = frames called back + frames dropped + frames in the map + the frame in hand, as multisets, at every step |
| `FrameQueueSafety.CountersExact` | wukong100/camera/vdi_impl/v4l2/driver_adapter/src/v4l2_buffer.cpp:93-124 | bufCont and currStartQueueBuffNum are exact functions of map size, drops, held frame, threads between two updates and lost counts |
| `FrameQueueSafety.InFlightBounded` | wukong100/camera/vdi_impl/v4l2/driver_adapter/src/v4l2_buffer.cpp:93-120 | Never more than 8 frames in the map, with any number of producers |
| `FrameQueueOwners.WaitsIffEight` | wukong100/camera/vdi_impl/v4l2/driver_adapter/src/v4l2_buffer.cpp:93-102 | In every reachable state, a thread that finds the lock free waits if and only if there are exactly 8 frames in the map |
| `FrameQueueOwners.AtMostEight` | wukong100/camera/vdi_impl/v4l2/driver_adapter/src/v4l2_buffer.cpp:96-97 | There are never more than 8 |
| `FrameQueueOwners.AtClientIff` | wukong100/camera/vdi_impl/v4l2/driver_adapter/src/v4l2_buffer.cpp:67-125 | In every reachable state, an index is the client's to queue if and only if no thread is queueing it, neither kernel nor consumer has it, and no frame with it was dropped |
| `FrameQueueOwners.CallbackFreesIndex` | wukong100/camera/vdi_impl/v4l2/driver_adapter/src/v4l2_buffer.cpp:230-232 | After its callback an index can be queued again at once, by any thread |
| `FrameQueueOwners.FailedQbufFreesIndex` | wukong100/camera/vdi_impl/v4l2/driver_adapter/src/v4l2_buffer.cpp:104-108 | After a QBUF that fails too; nothing else has changed |
| `FrameQueueOwners.DeliveredAgainAndAgain` | wukong100/camera/vdi_impl/v4l2/driver_adapter/src/v4l2_buffer.cpp:67-235 | For every n, a run in which one index is queued and delivered n times |
| `FrameQueueOwners.NoDropWithCallback` | wukong100/camera/vdi_impl/v4l2/driver_adapter/src/v4l2_buffer.cpp:219-223 | Once a callback is set, no frame is dropped in any run |
| `FrameQueueSafety.ConsumerNeverStarves` | wukong100/camera/vdi_impl/v4l2/driver_adapter/src/v4l2_buffer.cpp:183-200 | Past the loop test, bufCont is at least 1 and the kernel has a frame to return |
| `FrameQueueProgress.NoStall` | wukong100/camera/vdi_impl/v4l2/driver_adapter/src/v4l2_dev.cpp:328-342 | With every producer waiting on a full map and fewer than 8 counts lost, both counters are positive, wherever the consumer is |
| `FrameQueueProgress.StalledIffEightLost` | wukong100/camera/vdi_impl/v4l2/driver_adapter/src/v4l2_dev.cpp:328-342 | With every producer waiting on a full map, the queue is stuck if and only if 8 counts were lost |
| `FrameQueueLoss.LostInRun` | wukong100/camera/vdi_impl/v4l2/driver_adapter/src/v4l2_dev.cpp:421 | In every run, the lost counts are exactly the QueueBuffer calls completed before StartStream plus the failed DQBUFs |
| `FrameQueueLoss.StallsIff` | wukong100/camera/vdi_impl/v4l2/driver_adapter/src/v4l2_dev.cpp:328-342 | So the queue is stuck if and only if those calls and failures are 8 or more |
| `FrameQueueLoss.EightCallsThenStartStall` | wukong100/camera/vdi_impl/v4l2/driver_adapter/src/v4l2_dev.cpp:405-437 | A run that stalls: 8 QueueBuffer calls, StartStream, and a ninth caller that waits for ever |
| `FrameQueueProgress.StalledForEver` | wukong100/camera/vdi_impl/v4l2/driver_adapter/src/v4l2_dev.cpp:328-355 | A stall is permanent under every continuation, StopStream included |
| `FrameQueueProgress.WaiterIsServed` | wukong100/camera/vdi_impl/v4l2/driver_adapter/src/v4l2_buffer.cpp:96-102 | From every reachable state with the consumer in its loop and fewer than 8 counts lost, whatever the other threads are doing, a waiting producer is let in by a run of the consumer and the calls under way |
| `FrameQueueProgress.EveryRunMakesRoom` | wukong100/camera/vdi_impl/v4l2/driver_adapter/src/v4l2_dev.cpp:328-342 | With the producers waiting and fewer than 8 counts lost, every run of the consumer without a failed DQBUF passes, within 9 steps, a state in which a waiter can have the lock |
| `FrameQueueProgress.DrainStepRanks` | wukong100/camera/vdi_impl/v4l2/driver_adapter/src/v4l2_dev.cpp:343-355 | After StopStream, without producers, every consumer step lowers a natural-number rank: loopBuffers terminates |
| `FrameQueueProgress.DrainStepExists` | wukong100/camera/vdi_impl/v4l2/driver_adapter/src/v4l2_dev.cpp:343-355 | ... and until it has ended it can always take a step without waiting |
| `FrameQueueProgress.ExitLeaves` | wukong100/camera/vdi_impl/v4l2/driver_adapter/src/v4l2_dev.cpp:345-354 | When the thread ends the counter is 0, and the map holds the lost counts and the frames of calls between their insertion and their count |
| `FrameQueueProgress.ExitMeansDrained` | wukong100/camera/vdi_impl/v4l2/driver_adapter/src/v4l2_dev.cpp:439-484 | If every caller has left by then, the map holds exactly as many frames as counts were lost |
| `FrameQueueProgress.ExitedDeliveredIff` | wukong100/camera/vdi_impl/v4l2/driver_adapter/src/v4l2_dev.cpp:345-354 | In every reachable state after the end of the thread: every accepted frame was delivered (or dropped) if and only if no count was lost, none came too late and none is still to come |
| `FrameQueueStop.LeftAfterExit` | wukong100/camera/vdi_impl/v4l2/driver_adapter/src/v4l2_dev.cpp:328-355 | In every run, what is left in the map after the end of the thread is exactly the calls completed before StartStream, the failed DQBUFs, the calls inserted but not counted at the last test of the counter, and the calls inserted later |
| `FrameQueueStop.AllDeliveredIff` | wukong100/camera/vdi_impl/v4l2/driver_adapter/src/v4l2_dev.cpp:328-355 | So every accepted frame was given back if and only if the run has none of these |
| `FrameQueueStop.StopOvertakesCall` | wukong100/camera/vdi_impl/v4l2/driver_adapter/src/v4l2_dev.cpp:284-289 | A run that loses no count and ends, StreamOff enabled and every caller gone, with a frame neither delivered nor dropped |
| `FrameQueueProgress.NothingLost` | wukong100/camera/vdi_impl/v4l2/driver_adapter/src/v4l2_dev.cpp:421 | If no DQBUF fails and nothing was queued before StartStream, no count is ever lost |
| `FrameQueueProgress.StopDeliversAll` | wukong100/camera/vdi_impl/v4l2/driver_adapter/src/v4l2_dev.cpp:439-484 | In a run that loses no count, if the callers leave before the thread does, the thread can run to its end and StreamOff finds no frame in map or kernel, the counter at 0 and every frame given back |
| `FrameQueueProgress.EveryStopDeliversAll` | wukong100/camera/vdi_impl/v4l2/driver_adapter/src/v4l2_dev.cpp:439-484 | The same, again if the callers leave first, for every run of the consumer: it is bounded, never blocked before its end, and ends with everything given back |
| `FrameQueueProgress.RequeueBeforeCallback` | wukong100/camera/vdi_impl/v4l2/driver_adapter/src/v4l2_buffer.cpp:195-227 | Requeueing an index before its callback breaks the pairing: the assumption on clients is needed |
| `AdapterBuffers.BindBalanced` | wukong100/camera/vdi_impl/v4l2/driver_adapter/src/v4l2_buffer.cpp:79-89 | One queue call keeps adapterBufferMapNum equal to the number of unbound slots if and only if its index is known and an unbound slot gets a non-null address |
| `AdapterBuffers.QueueRunAfterAlloc` | wukong100/camera/vdi_impl/v4l2/driver_adapter/src/v4l2_buffer.cpp:237-275 | After V4L2AllocBuffer on an empty map, over every run of such calls: the counter is the number of unbound slots, is never negative, and no bound slot is rebound |
| `AdapterBuffers.BindAllNeverRebinds` | wukong100/camera/vdi_impl/v4l2/driver_adapter/src/v4l2_buffer.cpp:79-89 | Whatever is queued, a bound slot keeps its address |
| `AdapterLaws.BindExactly` | wukong100/camera/vdi_impl/v4l2/driver_adapter/src/v4l2_buffer.cpp:79-89 | What one queue call does to its slot, field by field, and that it touches no other |
| `AdapterLaws.AllRepliesOkIff` | wukong100/camera/vdi_impl/v4l2/driver_adapter/src/v4l2_buffer.cpp:237-275 | Mapping succeeds if and only if every QUERYBUF gives a length above 0 and every mmap made succeeds, one for each slot without a start |
| `AdapterLaws.AllocExactly` | wukong100/camera/vdi_impl/v4l2/driver_adapter/src/v4l2_buffer.cpp:319-365 | What mapping leaves in each slot: the reported length and offset, the start it had or the new one, its user memory |
| `AdapterLaws.BindNowExactly` | wukong100/camera/vdi_impl/v4l2/driver_adapter/src/v4l2_buffer.cpp:367-411 | Likewise for mapping one frame, whose memory the slot gets; no other slot is touched |
| `AdapterLaws.EnqueueExactly` | wukong100/camera/vdi_impl/v4l2/driver_adapter/src/v4l2_buffer.cpp:93-120 | Inserting a frame files it under its index and changes nothing else |
| `AdapterLaws.EraseExactly` | wukong100/camera/vdi_impl/v4l2/driver_adapter/src/v4l2_buffer.cpp:210-227 | Erasing takes out that one frame and changes nothing else |
| `AdapterLaws.EachDeliveredOnce` | wukong100/camera/vdi_impl/v4l2/driver_adapter/src/v4l2_buffer.cpp:93-120 | Frames queued under distinct indexes and dequeued in any order are each handed over exactly once |
| `AdapterBuffers.BindNowBalanced` | wukong100/camera/vdi_impl/v4l2/driver_adapter/src/v4l2_buffer.cpp:367-411 | Mapping for one frame keeps the counter right if and only if the slot was unbound before exactly when the address is null |
| `AdapterBuffers.AllocKeepsUserBuffers` | wukong100/camera/vdi_impl/v4l2/driver_adapter/src/v4l2_buffer.cpp:319-365 | Mapping again keeps the user buffers of the slots |
| `AdapterBuffers.AllocSlotsOkIff` | wukong100/camera/vdi_impl/v4l2/driver_adapter/src/v4l2_buffer.cpp:319-365 | After a successful mapping with fitting replies every slot can be copied if and only if no slot had a failed mmap before |
| `AdapterBuffers.AllocSound` | wukong100/camera/vdi_impl/v4l2/driver_adapter/src/v4l2_buffer.cpp:237-275 | Such a mapping establishes the whole object invariant if and only if, besides, as many slots are unbound as were mapped; on an empty map both hold |
| `AdapterBuffers.FailedMappingKept` | wukong100/camera/vdi_impl/v4l2/driver_adapter/src/v4l2_buffer.cpp:342-352 | A failed mmap leaves its error value in the slot, and a second mapping succeeds without mapping it |
| `AdapterBuffers.ShortMapping` | wukong100/camera/vdi_impl/v4l2/driver_adapter/src/v4l2_buffer.cpp:319-365 | A mapping shorter than that leaves a slot that cannot be copied |
| `AdapterBuffers.HosV4L2Buffers.V4L2AllocBuffer` | wukong100/camera/vdi_impl/v4l2/driver_adapter/src/v4l2_buffer.cpp:237-275 | Succeeds if and only if every reply is good, and stops at the first that is not; the slots and the counter it leaves; when they satisfy the object invariant |
| `AdapterBuffers.HosV4L2Buffers.V4L2AllocBufferForFrame` | wukong100/camera/vdi_impl/v4l2/driver_adapter/src/v4l2_buffer.cpp:277-317 | Exactly when it succeeds, and the slot it binds |
| `AdapterBuffers.HosV4L2Buffers.V4L2QueueBuffer` | wukong100/camera/vdi_impl/v4l2/driver_adapter/src/v4l2_buffer.cpp:67-125 | How often it waits, whatever other threads make of the map meanwhile, and exactly when it fails and succeeds; the new slots, map and counter; frames stay filed under slots bound to their own memory |
| `AdapterBuffers.HosV4L2Buffers.V4L2DequeueBuffer` | wukong100/camera/vdi_impl/v4l2/driver_adapter/src/v4l2_buffer.cpp:183-235 | Under the object invariant, the delivered frame has, at its own address, exactly the bytes of its driver slot; no other memory is written; every other frame stays in flight as it was; each failing case |
| `AdapterBuffers.HosV4L2Buffers.V4L2ReqBuffers` | wukong100/camera/vdi_impl/v4l2/driver_adapter/src/v4l2_buffer.cpp:33-65 | Succeeds if and only if the driver grants the very number asked for; what is granted instead is given back by a second request, for none |
| `AdapterBuffers.HosV4L2Buffers.V4L2ReleaseBuffers` | wukong100/camera/vdi_impl/v4l2/driver_adapter/src/v4l2_buffer.cpp:413-429 | Unmaps exactly the slots with a start, forgets all of them but not the counter, which is right again only if it was 0, and returns what the driver answers |
| `Uevent.V4L2GetUsbValue` | wukong100/camera/vdi_impl/v4l2/driver_adapter/src/v4l2_uvc.cpp:237-254 | The text after the key's first occurrence, and exactly when there is none |
| `Uevent.VisitsEveryRecord` | wukong100/camera/vdi_impl/v4l2/driver_adapter/src/v4l2_uvc.cpp:264-302 | Of any message, each terminated record up to the first empty one is visited once and in order; exactly when the parser reads past the end of the buffer |
| `Uevent.ZeroStopsParser` | wukong100/camera/vdi_impl/v4l2/driver_adapter/src/v4l2_uvc.cpp:264-302 | A zero behind the message keeps it inside |
| `Uevent.FirstTextMeans` | wukong100/camera/vdi_impl/v4l2/driver_adapter/src/v4l2_uvc.cpp:266-298 | The value kept is that of the first record whose text after the key is not empty |
| `Uevent.V4L2GetUsbString` | wukong100/camera/vdi_impl/v4l2/driver_adapter/src/v4l2_uvc.cpp:256-305 | For any buffer, the loop terminates and gives each out-parameter that was empty the value of its key, ACTION=, SUBSYSTEM= or DEVNAME=, over the visited records; it reports when strlen leaves the buffer |
| `Uevent.UntilEmptyIs` | wukong100/camera/vdi_impl/v4l2/driver_adapter/src/v4l2_uvc.cpp:264-302 | The visited records end at the first empty one |
| `Uevent.PrintedValueFound` | wukong100/camera/vdi_impl/v4l2/driver_adapter/src/v4l2_uvc.cpp:266-298 | A printed KEY=VALUE is read back if and only if no earlier record says anything else about the key |
| `Uevent.PrintedEventParsed` | wukong100/camera/vdi_impl/v4l2/driver_adapter/src/v4l2_uvc.cpp:256-305 | Parsing undoes printing, for every uevent whose text holds no key before that key's record |
| `RenderWrite.RenderWriteiVdi` | wukong100/audio_alsa/vendor_render.c:1238-1295 | For any replies: the bytes handed over are a prefix of the buffer, bitsPerFrame / 8 for each frame taken, without gap or repeat; success if and only if all was written or the retries are spent; failure if and only if the last reply is fatal |
| `RenderWriteLaws.TakenIs` | wukong100/audio_alsa/vendor_render.c:1265-1270 | The frames taken are those the device says it wrote, until none are left |
| `RenderWriteLaws.PieceOf` | wukong100/audio_alsa/vendor_render.c:1268-1270 | Each reply of k > 0 frames is for the next k * (bitsPerFrame / 8) bytes, any other for none |
| `RenderWriteLaws.EndsIff` | wukong100/audio_alsa/vendor_render.c:1271-1291 | Which replies end the loop, by number: -77, a fault that is not mended, or the -11 that spends the retries |
| `RenderWriteLaws.RecoveriesIs` | wukong100/audio_alsa/vendor_render.c:1283-1291 | How many replies count as recoveries: no frames, or a fault other than -11 and -77, that is mended |
| `RenderWrite.RepliesAccountedFor` | wukong100/audio_alsa/vendor_render.c:1265-1292 | Every reply takes a frame, spends a retry or is recovered from; no more would-blocks than retries |
| `RenderWrite.PendingIsBounded` | wukong100/audio_alsa/vendor_render.c:1265-1292 | The loop ends after fewer replies than frames, retries and recoveries together |
| `RenderWrite.ZeroWritesStall` | wukong100/audio_alsa/vendor_render.c:1283-1291 | Zero-length writes that recover keep the loop going for ever, so the bound on recoveries is needed |
| `RenderScene.RunKeepsInv` | wukong100/audio_alsa/vendor_render.c:286-397 | In every run, a non-null CaptureHandle implies a call, and opens and closes of the capture device strictly alternate |
| `RenderScene.OpensMinusCloses` | wukong100/audio_alsa/vendor_render.c:123-158 | Capture opens minus closes is 1 exactly while the handle is not null |
| `RenderScene.OpenAfterIff` | wukong100/audio_alsa/vendor_render.c:303-344 | After any run, exactly which next event leaves the capture handle open |
| `RenderScene.CallWithoutCapture` | wukong100/audio_alsa/vendor_render.c:346-397 | A call without its capture device stays so, and no start in it succeeds, until another scene is selected |
| `RenderScene.CallFromMmapNoirq` | wukong100/audio_alsa/vendor_render.c:355-363 | Selecting a call from MMAP_NOIRQ leads there, in every run: it succeeds without opening the capture device |
| `RenderScene.MmapNoirqSelectable` | wukong100/audio_alsa/vendor_render.c:346-397 | That scene is not only the one at first: it can be selected from any |
| `RenderScene.StartInCall` | wukong100/audio_alsa/vendor_render.c:528-556 | A start in a call succeeds only with the capture device open |
| `RenderSceneLaws.StartOutsideCall` | wukong100/audio_alsa/vendor_render.c:558-571 | In every run, a start outside a call leaves a busy card as it is and succeeds; on a free card it opens the playback PCM and succeeds if and only if that does |
| `RenderSceneLaws.StartInsideCall` | wukong100/audio_alsa/vendor_render.c:528-556 | In every run, a start in a call succeeds if and only if both handles are open and all four steps succeed |
| `RenderSceneLaws.StartThenStop` | wukong100/audio_alsa/vendor_render.c:520-589 | A start that opens the playback PCM is followed by a stop that succeeds and closes it once, if the card was counted once |
| `RenderSceneLaws.StopExactly` | wukong100/audio_alsa/vendor_render.c:573-589 | In every run, what a stop does: nothing in a call, failure without a playback PCM, and otherwise the card is counted down |
| `RenderSceneLaws.CardCountsDown` | wukong100/audio_alsa/vendor_render.c:131-149 | Both handles of the card go when its count reaches 0, and only then |
| `RenderSceneLaws.SceneAfterSelect` | wukong100/audio_alsa/vendor_render.c:346-397 | The scene after a select, whatever fails |
| `RenderSceneLaws.SelectSucceedsIff` | wukong100/audio_alsa/vendor_render.c:303-397 | When a select succeeds |
| `RenderSceneLaws.CardAfterSelect` | wukong100/audio_alsa/vendor_render.c:303-344 | What a select does to the card |
| `RenderSceneLaws.CaptureAfterSelect` | wukong100/audio_alsa/vendor_render.c:303-344 | Which opens and closes of the capture device a select makes |
| `RenderScene.Render.PcmCloseHandle` | wukong100/audio_alsa/vendor_render.c:123-158 | The capture handle is closed once; the playback handles only when cardStatus reaches 0 |
| `RenderScene.Render.OpenCapturePcmAndSetParams` | wukong100/audio_alsa/vendor_render.c:236-259 | Once the open succeeds the handle stays open, even where the call returns failure |
| `RenderScene.Render.CheckSceneIsChange` | wukong100/audio_alsa/vendor_render.c:286-301 | A change is entering or leaving a call, or any select while the scene is MMAP_NOIRQ |
| `RenderScene.DevicesOnlyChangeWithCall` | wukong100/audio_alsa/vendor_render.c:346-397 | After any run, a select opens or closes devices only if it enters or leaves a call; any other only sets the scene; and leaving a call closes the capture device |
| `RenderScene.Render.ChangeScene` | wukong100/audio_alsa/vendor_render.c:303-344 | A change of the scene machine, whichever step fails |
| `RenderScene.Render.RenderSelectSceneImpl` | wukong100/audio_alsa/vendor_render.c:346-397 | A select of the scene machine; keeps its invariant |
| `RenderScene.Render.RenderStartImpl` | wukong100/audio_alsa/vendor_render.c:520-571 | A start of the scene machine |
| `RenderScene.Render.RenderStopImpl` | wukong100/audio_alsa/vendor_render.c:573-589 | A stop of the scene machine: nothing at all in a call |

## Left out

- Odd widths: the chroma loops then read past the row, so there is nothing to promise.
- Integer overflow in the index arithmetic of the transforms: indexes are unbounded, which agrees with the source as long as 3wh fits 31 bits.
- Yuv420Rot180: its text is that of Yuv420spRot180, which is modelled once.
- CodecNode.CodecNode.DeliverBuffer: what the encoders write into the buffer, its size, time stamp and debug dump are not modelled.
- CodecNode.CodecNode.ApplyH264Transform: what an overrun of the scratch memory does; it is undefined in the source, and ScratchMemory says exactly when it happens. The same holds for TurnForPreview and Yuv420ToH264WithUnisoc.
- JPEG flip, mirror and rotation flag tables: finite tables whose meaning lies in a closed library.
- CodecSession.CallsAlternate: one node and one thread delivering H264 frames; the encoder object is shared by all nodes in the source.
- FrameQueue: each ioctl, counter update or code under the lock is one step; the release of the lock is merged with the insertion or erasure before it, and the usleep of a waiting producer is a step that changes nothing.
- FrameQueue: repeated start and stop, StreamOff failing (it leaves the thread pointer set, so that a second StopStream lets the stream count underflow), StartStream while streaming, and two cameras sharing the first poll entry.
- CreateEpoll and EraseEpoll: they file the descriptor the consumer reads; with one camera it does not change while streaming.
- AdapterBuffers.HosV4L2Buffers.V4L2QueueBuffer: what other threads do to slots and counters while it waits for room; their effect on the map is an input, and their steps are the subject of FrameQueue.
- AdapterBuffers.HosV4L2Buffers.V4L2ReleaseBuffers: the order of the munmap calls, and their results, which the source ignores.
- Multi-planar buffer layout and the plane fields handed to the ioctls.
- Null-pointer guards of the audio entry points, and the drain or drop of the playback PCM: no state of the model depends on them.
- RenderScene.Render.ReOpenPcmAndSetParams: it succeeds or fails and leaves any card; its chain of calls into the sound library is not modelled.
- RenderWrite.RenderWriteiVdi: the wait after a would-block and the prepare after a bad state are calls whose results the source ignores, so they are not shown.
- Format enumeration, crop and frame rate, controls, sensor metadata, UVC device naming, the other pipeline nodes and the capture side of the audio adapter: they would only add easy members, or repeat the shapes modelled here.
