/** The buffer object behind one camera, one call at a time: binding of driver slots to
user memory, the in-flight map, and the copy of a dequeued frame.  How its calls
interleave is the subject of FrameQueue. */
module AdapterBuffers {

  type Byte = bv8

  datatype RetCode = RC_OK | RC_ERROR
  datatype Option<T> = None | Some(value: T)

  /** What the `start` pointer of a slot is: null, the mmap error value, or memory. */
  datatype Start = Unmapped | MapFailed | Mapped(mem: array<Byte>)

  datatype AdapterBuff = AdapterBuff(start: Start, length: nat, offset: nat, userBufPtr: array?<Byte>)

  const MAXBUFFER := 8

  const EMPTY_SLOT := AdapterBuff(Unmapped, 0, 0, null)

  datatype FrameSpec = FrameSpec(index: nat, virAddress: array?<Byte>)

  /** adapterBufferMap_ and adapterBufferMapNum. */
  datatype Slots = Slots(slots: map<nat, AdapterBuff>, num: int)

  // ---------------------------------------------------------------- binding

  /** The slots that no user buffer is bound to yet. */
  ghost function Unbound(slots: map<nat, AdapterBuff>): set<nat> {
    set i | i in slots && slots[i].userBufPtr == null
  }

  /** The counter says how many slots are unbound. */
  ghost predicate Balanced(s: Slots) {
    s.num == |Unbound(s.slots)|
  }

  /** What queueing a frame does to the slots: binding, if the counter is positive, and
      the entry that reading the map with operator[] creates. */
  function Bind(s: Slots, i: nat, address: array?<Byte>): Slots {
    var s1 :=
      if s.num > 0 && i in s.slots && s.slots[i].userBufPtr == null then
        Slots(s.slots[i := s.slots[i].(userBufPtr := address)], s.num - 1)
      else s;
    if i in s1.slots then s1 else s1.(slots := s1.slots[i := EMPTY_SLOT])
  }

  lemma UnboundUpdate(slots: map<nat, AdapterBuff>, i: nat, b: AdapterBuff)
    ensures |Unbound(slots[i := b])|
         == |Unbound(slots)| - (if i in Unbound(slots) then 1 else 0) + (if b.userBufPtr == null then 1 else 0)
  {
    var u := Unbound(slots);
    assert Unbound(slots[i := b]) == (if b.userBufPtr == null then u + {i} else u - {i});
  }

  /** One queue call keeps the counter right if and only if its index is a known slot
      and, when that slot is still unbound, its address is not null. */
  lemma BindBalanced(s: Slots, i: nat, address: array?<Byte>)
    requires Balanced(s)
    ensures Balanced(Bind(s, i, address)) <==> i in s.slots && (s.slots[i].userBufPtr == null ==> address != null)
  {
    if i in s.slots {
      UnboundUpdate(s.slots, i, s.slots[i].(userBufPtr := address));
      assert s.slots[i].userBufPtr == null ==> i in Unbound(s.slots);
    } else {
      UnboundUpdate(s.slots, i, EMPTY_SLOT);
    }
  }

  function BindAll(s: Slots, calls: seq<FrameSpec>): Slots {
    if calls == [] then s
    else Bind(BindAll(s, calls[..|calls| - 1]), calls[|calls| - 1].index, calls[|calls| - 1].virAddress)
  }

  /** Over any run of queue calls on known slots with non-null addresses, the counter is
      the number of unbound slots, so it never goes negative. */
  lemma {:induction false} BindAllBalanced(s: Slots, calls: seq<FrameSpec>)
    requires Balanced(s)
    requires forall k :: 0 <= k < |calls| ==> calls[k].index in s.slots && calls[k].virAddress != null
    ensures Balanced(BindAll(s, calls)) && BindAll(s, calls).num >= 0
    ensures BindAll(s, calls).slots.Keys == s.slots.Keys
  {
    if calls != [] {
      var n := |calls| - 1;
      BindAllBalanced(s, calls[..n]);
      BindBalanced(BindAll(s, calls[..n]), calls[n].index, calls[n].virAddress);
    }
  }

  /** Whatever is queued, a bound slot keeps its user buffer. */
  lemma {:induction false} BindAllNeverRebinds(s: Slots, calls: seq<FrameSpec>, i: nat)
    requires i in s.slots && s.slots[i].userBufPtr != null
    ensures i in BindAll(s, calls).slots && BindAll(s, calls).slots[i] == s.slots[i]
  {
    if calls != [] {
      BindAllNeverRebinds(s, calls[..|calls| - 1], i);
    }
  }

  /** Once its index has been queued in a balanced state, a slot is bound, to the first
      address it was queued with. */
  lemma BindBinds(s: Slots, i: nat, address: array?<Byte>)
    requires Balanced(s) && i in s.slots
    ensures i in Bind(s, i, address).slots
    ensures Bind(s, i, address).slots[i].userBufPtr
         == if s.slots[i].userBufPtr == null then address else s.slots[i].userBufPtr
  {
    if s.slots[i].userBufPtr == null {
      assert i in Unbound(s.slots);
    }
  }

  // ---------------------------------------------------------------- mapping the driver's slots

  /** The reply to one VIDIOC_QUERYBUF and, if it is called, to the mmap after it. */
  datatype QueryReply = QueryFailed | QueryOk(length: nat, offset: nat, mapping: Option<array<Byte>>)

  predicate NeedsMapping(slots: map<nat, AdapterBuff>, i: nat) {
    i !in slots || slots[i].start == Unmapped
  }

  /** SetAdapterBuffer on slot i. */
  function SetSlot(slots: map<nat, AdapterBuff>, i: nat, length: nat, offset: nat, mapping: Option<array<Byte>>)
    : map<nat, AdapterBuff>
  {
    var b := if i in slots then slots[i] else EMPTY_SLOT;
    var start := if b.start != Unmapped then b.start else if mapping.Some? then Mapped(mapping.value) else MapFailed;
    slots[i := AdapterBuff(start, length, offset, b.userBufPtr)]
  }

  /** QUERYBUF succeeds with a length, and mmap, if slot i still needs it, succeeds. */
  predicate ReplyOk(slots: map<nat, AdapterBuff>, i: nat, r: QueryReply) {
    r.QueryOk? && r.length > 0 && (NeedsMapping(slots, i) ==> r.mapping.Some?)
  }

  /** The slots once the first n replies have been worked off. */
  function AllocSlots(slots: map<nat, AdapterBuff>, replies: seq<QueryReply>, n: nat): map<nat, AdapterBuff>
    requires n <= |replies|
  {
    if n == 0 then slots
    else
      var before := AllocSlots(slots, replies, n - 1);
      match replies[n - 1]
      case QueryFailed => before
      case QueryOk(length, offset, mapping) => SetSlot(before, n - 1, length, offset, mapping)
  }

  predicate AllRepliesOk(slots: map<nat, AdapterBuff>, replies: seq<QueryReply>, n: nat)
    requires n <= |replies|
  {
    forall k :: 0 <= k < n ==> ReplyOk(AllocSlots(slots, replies, k), k, replies[k])
  }

  lemma AllocStep(slots: map<nat, AdapterBuff>, replies: seq<QueryReply>, n: nat)
    requires n < |replies| && replies[n].QueryOk?
    ensures AllocSlots(slots, replies, n + 1)
         == SetSlot(AllocSlots(slots, replies, n), n, replies[n].length, replies[n].offset, replies[n].mapping)
  {
  }

  lemma AllRepliesStep(slots: map<nat, AdapterBuff>, replies: seq<QueryReply>, n: nat)
    requires n < |replies|
    ensures AllRepliesOk(slots, replies, n + 1)
       <==> AllRepliesOk(slots, replies, n) && ReplyOk(AllocSlots(slots, replies, n), n, replies[n])
  {
    hide AllocSlots, ReplyOk;
  }

  lemma {:induction false} AllRepliesPrefix(slots: map<nat, AdapterBuff>, replies: seq<QueryReply>, m: nat, n: nat)
    requires m <= n <= |replies| && AllRepliesOk(slots, replies, n)
    ensures AllRepliesOk(slots, replies, m)
  {
    hide AllocSlots, ReplyOk;
  }

  /** The slots are exactly those with an index below n, all unbound. */
  ghost predicate FreshSlots(slots: map<nat, AdapterBuff>, n: nat) {
    (forall k: nat :: k in slots <==> k < n) && |Unbound(slots)| == n
  }

  lemma SetFreshSlot(slots: map<nat, AdapterBuff>, n: nat, length: nat, offset: nat, mapping: Option<array<Byte>>)
    requires FreshSlots(slots, n)
    ensures FreshSlots(SetSlot(slots, n, length, offset, mapping), n + 1)
  {
    var after := SetSlot(slots, n, length, offset, mapping);
    assert n !in slots && after[n].userBufPtr == null;
    assert n !in Unbound(slots);
    assert after == slots[n := after[n]];
    UnboundUpdate(slots, n, after[n]);
  }

  lemma NoFreshSlots(slots: map<nat, AdapterBuff>)
    requires slots == map[]
    ensures FreshSlots(slots, 0)
  {
    assert Unbound(slots) == {};
  }

  /** On an empty map, mapping n slots gives n unbound ones, with the indexes below n:
      the counter the method sets is right. */
  lemma {:induction false} AllocFromEmpty(slots: map<nat, AdapterBuff>, replies: seq<QueryReply>, n: nat)
    requires slots == map[] && n <= |replies| && AllRepliesOk(slots, replies, n)
    ensures FreshSlots(AllocSlots(slots, replies, n), n)
  {
    hide AllocSlots, FreshSlots, AllRepliesOk, SetSlot, NeedsMapping;
    if n == 0 {
      NoFreshSlots(slots);
      AllocNothing(slots, replies);
    } else {
      AllRepliesStep(slots, replies, n - 1);
      AllocFromEmpty(slots, replies, n - 1);
      AllocStep(slots, replies, n - 1);
      var r := replies[n - 1];
      SetFreshSlot(AllocSlots(slots, replies, n - 1), n - 1, r.length, r.offset, r.mapping);
    }
  }

  lemma {:induction false} AllocKeepsUserBuffers(slots: map<nat, AdapterBuff>, replies: seq<QueryReply>, n: nat, i: nat)
    requires n <= |replies| && i in slots
    ensures i in AllocSlots(slots, replies, n)
    ensures AllocSlots(slots, replies, n)[i].userBufPtr == slots[i].userBufPtr
  {
    if n > 0 {
      AllocKeepsUserBuffers(slots, replies, n - 1, i);
    }
  }

  lemma AllocNothing(slots: map<nat, AdapterBuff>, replies: seq<QueryReply>)
    ensures AllocSlots(slots, replies, 0) == slots && AllRepliesOk(slots, replies, 0)
  {
  }

  lemma AllocBalanced(slots: map<nat, AdapterBuff>, replies: seq<QueryReply>)
    requires AllRepliesOk(slots, replies, |replies|)
    ensures slots == map[] ==> Balanced(Slots(AllocSlots(slots, replies, |replies|), |replies|))
  {
    if slots == map[] {
      hide AllocSlots, AllRepliesOk;
      AllocFromEmpty(slots, replies, |replies|);
    }
  }

  /** The counter after mapping n slots of an empty map and any run of queue calls with
      indexes below n and non-null addresses: the number of unbound slots, never
      negative.  And a slot, once bound, keeps its address through the rest of the run. */
  lemma QueueRunAfterAlloc(slots: map<nat, AdapterBuff>, replies: seq<QueryReply>, calls: seq<FrameSpec>, m: nat,
                           i: nat)
    requires slots == map[] && AllRepliesOk(slots, replies, |replies|)
    requires forall k :: 0 <= k < |calls| ==> calls[k].index < |replies| && calls[k].virAddress != null
    requires m <= |calls| && i < |replies|
    ensures
      var fresh0 := Slots(AllocSlots(slots, replies, |replies|), |replies|);
      var before, after := BindAll(fresh0, calls[..m]), BindAll(fresh0, calls);
      && after.num == |Unbound(after.slots)| >= 0
      && i in before.slots && i in after.slots
      && (before.slots[i].userBufPtr != null ==> after.slots[i].userBufPtr == before.slots[i].userBufPtr)
  {
    hide AllocSlots, AllRepliesOk, BindAll;
    AllocFromEmpty(slots, replies, |replies|);
    var fresh0 := Slots(AllocSlots(slots, replies, |replies|), |replies|);
    BindAllBalanced(fresh0, calls);
    BindAllBalanced(fresh0, calls[..m]);
    BindAllSplit(fresh0, calls[..m], calls[m..]);
    assert calls[..m] + calls[m..] == calls;
    if BindAll(fresh0, calls[..m]).slots[i].userBufPtr != null {
      BindAllNeverRebinds(BindAll(fresh0, calls[..m]), calls[m..], i);
    }
  }

  lemma {:induction false} BindAllSplit(s: Slots, a: seq<FrameSpec>, b: seq<FrameSpec>)
    ensures BindAll(s, a + b) == BindAll(BindAll(s, a), b)
    decreases |b|
  {
    if b == [] {
      assert a + b == a;
    } else {
      var n := |b| - 1;
      BindAllSplit(s, a, b[..n]);
      assert (a + b)[..|a| + n] == a + b[..n];
    }
  }

  /** Mapping slot i for one frame binds it to that frame's memory at once. */
  function BindNow(slots: map<nat, AdapterBuff>, i: nat, r: QueryReply, address: array?<Byte>): map<nat, AdapterBuff>
    requires r.QueryOk?
  {
    var after := SetSlot(slots, i, r.length, r.offset, r.mapping);
    after[i := after[i].(userBufPtr := address)]
  }

  /** Mapping for one frame leaves the counter alone, so the counter stays right if and
      only if the slot was unbound before exactly when the frame's address is null: for
      frames with memory, only if the slot is new or already bound. */
  lemma BindNowBalanced(s: Slots, i: nat, r: QueryReply, address: array?<Byte>)
    requires Balanced(s) && r.QueryOk?
    ensures Balanced(s.(slots := BindNow(s.slots, i, r, address)))
       <==> ((i in s.slots && s.slots[i].userBufPtr == null) <==> address == null)
  {
    var after := BindNow(s.slots, i, r, address);
    assert after == s.slots[i := after[i]];
    UnboundUpdate(s.slots, i, after[i]);
    assert i in Unbound(s.slots) <==> i in s.slots && s.slots[i].userBufPtr == null;
  }

  // ---------------------------------------------------------------- what the object keeps

  /** A slot with user memory has driver memory, and the one can be copied to the other. */
  predicate SlotOk(b: AdapterBuff) {
    && b.start != MapFailed
    && (b.userBufPtr != null ==> b.start.Mapped?)
    && (b.start.Mapped? ==> b.length <= b.start.mem.Length)
    && (b.userBufPtr != null ==> b.length <= b.userBufPtr.Length)
    && (b.start.Mapped? && b.userBufPtr != null ==> b.start.mem != b.userBufPtr)
  }

  /** The copy from the slot, if it takes place, stays inside memory. */
  predicate CopyOk(b: AdapterBuff) {
    b.userBufPtr != null && b.start != Unmapped ==>
      && b.start.Mapped? && b.length <= b.start.mem.Length && b.length <= b.userBufPtr.Length
      && b.start.mem != b.userBufPtr
  }

  ghost predicate AllSlotsOk(slots: map<nat, AdapterBuff>) {
    forall i :: i in slots ==> SlotOk(slots[i])
  }

  type Queue = map<int, map<nat, FrameSpec>>

  /** The frame in flight under index i has the memory slot i is bound to. */
  ghost predicate FiledAt(slots: map<nat, AdapterBuff>, i: nat, f: FrameSpec) {
    f.index == i && i in slots && f.virAddress != null && slots[i].userBufPtr == f.virAddress
  }

  ghost predicate Filed(slots: map<nat, AdapterBuff>, queue: Queue) {
    forall fd, i :: fd in queue && i in queue[fd] ==> FiledAt(slots, i, queue[fd][i])
  }

  function Enqueue(queue: Queue, fd: int, f: FrameSpec): Queue {
    queue[fd := (if fd in queue then queue[fd] else map[])[f.index := f]]
  }

  function Erase(queue: Queue, fd: int, i: nat): Queue
    requires fd in queue
  {
    queue[fd := queue[fd] - {i}]
  }

  /** The frame has memory of its own, and it is the memory its slot is bound to, if it
      is bound. */
  ghost predicate FrameOk(slots: map<nat, AdapterBuff>, f: FrameSpec) {
    && f.index in slots && f.virAddress != null
    && SlotOk(slots[f.index].(userBufPtr := f.virAddress))
    && (slots[f.index].userBufPtr != null ==> slots[f.index].userBufPtr == f.virAddress)
  }

  ghost predicate Sound(s: Slots, queue: Queue) {
    Balanced(s) && AllSlotsOk(s.slots) && Filed(s.slots, queue)
  }

  lemma BindKeepsSound(s: Slots, queue: Queue, f: FrameSpec)
    requires Sound(s, queue) && FrameOk(s.slots, f)
    ensures Sound(Bind(s, f.index, f.virAddress), queue)
    ensures FiledAt(Bind(s, f.index, f.virAddress).slots, f.index, f)
  {
    BindBalanced(s, f.index, f.virAddress);
    BindBinds(s, f.index, f.virAddress);
  }

  lemma EnqueueKeepsFiled(slots: map<nat, AdapterBuff>, queue: Queue, fd: int, f: FrameSpec)
    requires Filed(slots, queue) && FiledAt(slots, f.index, f)
    ensures Filed(slots, Enqueue(queue, fd, f))
  {
    var after := Enqueue(queue, fd, f);
    forall d, i | d in after && i in after[d] ensures FiledAt(slots, i, after[d][i]) {
      assert d != fd || i != f.index ==> d in queue && i in queue[d] && after[d][i] == queue[d][i];
    }
  }

  lemma EnqueueKeepsSound(s: Slots, queue: Queue, fd: int, f: FrameSpec)
    requires Sound(s, queue) && FiledAt(s.slots, f.index, f)
    ensures Sound(s, Enqueue(queue, fd, f))
  {
    hide Balanced, AllSlotsOk, Filed, FiledAt, Enqueue;
    EnqueueKeepsFiled(s.slots, queue, fd, f);
  }

  /** What the entry of a descriptor holds after k waits. */
  function Seen(entry: map<nat, FrameSpec>, wakes: seq<map<nat, FrameSpec>>, k: nat): map<nat, FrameSpec>
    requires k <= |wakes|
  {
    if k == 0 then entry else wakes[k - 1]
  }

  ghost predicate FiledEntry(slots: map<nat, AdapterBuff>, entry: map<nat, FrameSpec>) {
    forall i :: i in entry ==> FiledAt(slots, i, entry[i])
  }

  ghost predicate AllFiled(slots: map<nat, AdapterBuff>, entries: seq<map<nat, FrameSpec>>) {
    forall k :: 0 <= k < |entries| ==> FiledEntry(slots, entries[k])
  }

  lemma WakeKeepsSound(s: Slots, queue: Queue, fd: int, entry: map<nat, FrameSpec>)
    requires Sound(s, queue) && FiledEntry(s.slots, entry)
    ensures Sound(s, queue[fd := entry])
  {
    hide Balanced, AllSlotsOk, FiledAt;
    var after := queue[fd := entry];
    forall d, i | d in after && i in after[d] ensures FiledAt(s.slots, i, after[d][i]) {
      assert d != fd ==> d in queue && after[d] == queue[d];
    }
  }

  lemma EraseKeepsFiled(slots: map<nat, AdapterBuff>, queue: Queue, fd: int, i: nat)
    requires Filed(slots, queue) && fd in queue
    ensures Filed(slots, Erase(queue, fd, i))
  {
    var after := Erase(queue, fd, i);
    forall d, j | d in after && j in after[d] ensures FiledAt(slots, j, after[d][j]) {
      assert d in queue && j in queue[d] && after[d][j] == queue[d][j];
    }
  }

  /** The memory that slot k has, or gets with this reply, is as long as the reply says. */
  predicate ReplyFits(slots: map<nat, AdapterBuff>, k: nat, r: QueryReply) {
    r.QueryOk? ==>
      if NeedsMapping(slots, k) then r.mapping.Some? ==> r.length <= r.mapping.value.Length
      else
        && (slots[k].start.Mapped? ==> r.length <= slots[k].start.mem.Length)
        && (slots[k].userBufPtr != null ==> r.length <= slots[k].userBufPtr.Length)
  }

  ghost predicate AllFit(slots: map<nat, AdapterBuff>, replies: seq<QueryReply>, n: nat)
    requires n <= |replies|
  {
    forall k :: 0 <= k < n ==> ReplyFits(slots, k, replies[k])
  }

  lemma {:induction false} AllocElsewhere(slots: map<nat, AdapterBuff>, replies: seq<QueryReply>, n: nat, k: nat)
    requires n <= k && n <= |replies|
    ensures k in AllocSlots(slots, replies, n) <==> k in slots
    ensures k in slots ==> AllocSlots(slots, replies, n)[k] == slots[k]
  {
    if n > 0 {
      AllocElsewhere(slots, replies, n - 1, k);
    }
  }

  lemma SetSlotOk(slots: map<nat, AdapterBuff>, k: nat, r: QueryReply)
    requires AllSlotsOk(slots) && ReplyOk(slots, k, r) && ReplyFits(slots, k, r)
    ensures AllSlotsOk(SetSlot(slots, k, r.length, r.offset, r.mapping))
  {
    assert k in slots ==> SlotOk(slots[k]);
    var after := SetSlot(slots, k, r.length, r.offset, r.mapping);
    assert SlotOk(after[k]);
  }

  lemma FitsElsewhere(slots: map<nat, AdapterBuff>, t: map<nat, AdapterBuff>, k: nat, r: QueryReply)
    requires ReplyFits(slots, k, r) && (k in t <==> k in slots) && (k in slots ==> t[k] == slots[k])
    ensures ReplyFits(t, k, r)
  {
  }

  /** Mapping leaves every slot fit for copying, when the driver's mappings are as long as
      it says. */
  lemma {:induction false} AllocKeepsSlotsOk(slots: map<nat, AdapterBuff>, replies: seq<QueryReply>, n: nat)
    requires n <= |replies| && AllSlotsOk(slots) && AllRepliesOk(slots, replies, n) && AllFit(slots, replies, n)
    ensures AllSlotsOk(AllocSlots(slots, replies, n))
  {
    hide AllocSlots, AllSlotsOk, AllRepliesOk, SetSlot, NeedsMapping, ReplyFits;
    if n == 0 {
      AllocNothing(slots, replies);
    } else {
      AllRepliesStep(slots, replies, n - 1);
      AllocKeepsSlotsOk(slots, replies, n - 1);
      AllocStep(slots, replies, n - 1);
      AllocElsewhere(slots, replies, n - 1, n - 1);
      FitsElsewhere(slots, AllocSlots(slots, replies, n - 1), n - 1, replies[n - 1]);
      SetSlotOk(AllocSlots(slots, replies, n - 1), n - 1, replies[n - 1]);
    }
  }

  lemma AllocKeepsFiled(slots: map<nat, AdapterBuff>, replies: seq<QueryReply>, n: nat, queue: Queue)
    requires n <= |replies| && Filed(slots, queue)
    ensures Filed(AllocSlots(slots, replies, n), queue)
  {
    hide AllocSlots;
    forall fd, i | fd in queue && i in queue[fd]
      ensures FiledAt(AllocSlots(slots, replies, n), i, queue[fd][i])
    {
      assert FiledAt(slots, i, queue[fd][i]);
      AllocKeepsUserBuffers(slots, replies, n, i);
    }
  }

  /** Fit for copying, but for slots whose mmap has failed. */
  ghost predicate OkOrFailed(slots: map<nat, AdapterBuff>) {
    forall i :: i in slots ==> SlotOk(slots[i]) || slots[i].start == MapFailed
  }

  ghost predicate NoneFailed(slots: map<nat, AdapterBuff>) {
    forall i :: i in slots ==> slots[i].start != MapFailed
  }

  lemma {:induction false} AllocKeepsFailed(slots: map<nat, AdapterBuff>, replies: seq<QueryReply>, n: nat, i: nat)
    requires n <= |replies| && i in slots && slots[i].start == MapFailed
    ensures i in AllocSlots(slots, replies, n) && AllocSlots(slots, replies, n)[i].start == MapFailed
  {
    if n > 0 {
      AllocKeepsFailed(slots, replies, n - 1, i);
    }
  }

  /** A successful mapping leaves every slot fit for copying if and only if no slot's mmap
      had failed before: the error value is not null, so such a slot is not mapped again,
      and the call succeeds all the same. */
  lemma AllocSlotsOkIff(slots: map<nat, AdapterBuff>, replies: seq<QueryReply>, n: nat)
    requires n <= |replies| && OkOrFailed(slots)
    requires AllRepliesOk(slots, replies, n) && AllFit(slots, replies, n)
    ensures AllSlotsOk(AllocSlots(slots, replies, n)) <==> NoneFailed(slots)
  {
    hide AllocSlots, AllRepliesOk, AllFit, ReplyFits;
    if NoneFailed(slots) {
      AllocKeepsSlotsOk(slots, replies, n);
    } else {
      var i :| i in slots && slots[i].start == MapFailed;
      AllocKeepsFailed(slots, replies, n, i);
      assert !SlotOk(AllocSlots(slots, replies, n)[i]);
    }
  }

  /** What a successful mapping makes of the object: it is whole if and only if no slot's
      mmap had failed before, and as many slots are unbound as were mapped.  On an empty
      map both hold. */
  lemma AllocSound(slots: map<nat, AdapterBuff>, replies: seq<QueryReply>, queue: Queue)
    requires OkOrFailed(slots) && Filed(slots, queue)
    requires AllRepliesOk(slots, replies, |replies|) && AllFit(slots, replies, |replies|)
    ensures
      var after := AllocSlots(slots, replies, |replies|);
      && (Sound(Slots(after, |replies|), queue) <==> NoneFailed(slots) && |Unbound(after)| == |replies|)
      && (slots == map[] ==> Sound(Slots(after, |replies|), queue))
  {
    hide AllocSlots, AllSlotsOk, AllRepliesOk, AllFit, Filed, Unbound, OkOrFailed;
    AllocSlotsOkIff(slots, replies, |replies|);
    AllocKeepsFiled(slots, replies, |replies|, queue);
    AllocBalanced(slots, replies);
  }

  /** Such a slot comes about where an mmap fails, and stays when mapping is tried again:
      the second call succeeds on it. */
  lemma FailedMappingKept(length: nat, mem: array<Byte>)
    requires 0 < length <= mem.Length
    ensures
      var none: map<nat, AdapterBuff> := map[];
      var first, second := [QueryOk(length, 0, None)], [QueryOk(length, 0, Some(mem))];
      var left := AllocSlots(none, first, 1);
      && !AllRepliesOk(none, first, 1) && left.Keys == {0} && left[0].start == MapFailed
      && AllRepliesOk(left, second, 1) && AllFit(left, second, 1)
      && !AllSlotsOk(AllocSlots(left, second, 1))
  {
    var none: map<nat, AdapterBuff> := map[];
    var first, second := [QueryOk(length, 0, None)], [QueryOk(length, 0, Some(mem))];
    AllocNothing(none, first);
    AllocStep(none, first, 0);
    AllRepliesStep(none, first, 0);
    var left := AllocSlots(none, first, 1);
    assert left == SetSlot(none, 0, length, 0, None) && left[0].start == MapFailed;
    AllocNothing(left, second);
    AllRepliesStep(left, second, 0);
    hide AllocSlots, AllRepliesOk;
    AllocKeepsFailed(left, second, 1, 0);
    assert !SlotOk(AllocSlots(left, second, 1)[0]);
  }

  /** The lengths have to fit: a driver that reports more than it mapped leaves a slot
      that cannot be copied. */
  lemma ShortMapping(mem: array<Byte>, length: nat)
    requires length > mem.Length
    ensures
      var slots: map<nat, AdapterBuff> := map[];
      var replies := [QueryOk(length, 0, Some(mem))];
      AllRepliesOk(slots, replies, 1) && !AllSlotsOk(AllocSlots(slots, replies, 1))
  {
    var slots: map<nat, AdapterBuff> := map[];
    var replies := [QueryOk(length, 0, Some(mem))];
    assert AllocSlots(slots, replies, 0) == slots;
    assert !SlotOk(AllocSlots(slots, replies, 1)[0]);
  }

  // ---------------------------------------------------------------- the object

  class HosV4L2Buffers {
    var adapterBufferMap: map<nat, AdapterBuff>
    var adapterBufferMapNum: int
    var queueBuffers: Queue
    var bufCont: int
    var dequeueBuffer: bool

    constructor ()
      ensures View() == Slots(map[], 0) && queueBuffers == map[] && bufCont == 0 && !dequeueBuffer
    {
      adapterBufferMap, adapterBufferMapNum, queueBuffers, bufCont := map[], 0, map[], 0;
      dequeueBuffer := false;
    }

    ghost function View(): Slots
      reads this
    {
      Slots(adapterBufferMap, adapterBufferMapNum)
    }

    ghost predicate Valid()
      reads this
    {
      Sound(View(), queueBuffers)
    }

    /** Maps the first buffcont driver slots. */
    method V4L2AllocBuffer(buffcont: nat, replies: seq<QueryReply>) returns (rc: RetCode)
      requires |replies| == buffcont
      modifies this`adapterBufferMap, this`adapterBufferMapNum
      ensures rc == RC_OK <==> AllRepliesOk(old(adapterBufferMap), replies, buffcont)
      ensures rc == RC_OK ==> View() == Slots(AllocSlots(old(adapterBufferMap), replies, buffcont), buffcont)
      ensures rc == RC_OK && old(OkOrFailed(adapterBufferMap) && Filed(adapterBufferMap, queueBuffers))
              && AllFit(old(adapterBufferMap), replies, buffcont) ==>
        && (Valid() <==> old(NoneFailed(adapterBufferMap)) && |Unbound(adapterBufferMap)| == buffcont)
        && (old(adapterBufferMap) == map[] ==> Valid())
      ensures rc == RC_ERROR ==>
        && adapterBufferMapNum == old(adapterBufferMapNum)
        && exists k ::
             && 0 <= k < buffcont && AllRepliesOk(old(adapterBufferMap), replies, k)
             && !ReplyOk(AllocSlots(old(adapterBufferMap), replies, k), k, replies[k])
             && adapterBufferMap == AllocSlots(old(adapterBufferMap), replies,
                                               if replies[k].QueryOk? && replies[k].length > 0 then k + 1 else k)
    {
      hide AllocSlots, AllRepliesOk, AllFit, OkOrFailed, NoneFailed, Filed, Sound, Unbound;
      ghost var slots := adapterBufferMap;
      AllocNothing(slots, replies);
      for i := 0 to buffcont
        invariant AllRepliesOk(slots, replies, i)
        invariant adapterBufferMap == AllocSlots(slots, replies, i)
        invariant adapterBufferMapNum == old(adapterBufferMapNum)
      {
        var r := replies[i];
        AllRepliesStep(slots, replies, i);
        if AllRepliesOk(slots, replies, buffcont) {
          AllRepliesPrefix(slots, replies, i + 1, buffcont);
        }
        if r.QueryFailed? || r.length == 0 {
          return RC_ERROR;
        }
        AllocStep(slots, replies, i);
        var needsMapping := NeedsMapping(adapterBufferMap, i);
        adapterBufferMap := SetSlot(adapterBufferMap, i, r.length, r.offset, r.mapping);
        if needsMapping && adapterBufferMap[i].start == MapFailed {
          return RC_ERROR;
        }
      }
      adapterBufferMapNum := buffcont;
      if OkOrFailed(slots) && Filed(slots, queueBuffers) && AllFit(slots, replies, buffcont) {
        AllocSound(slots, replies, queueBuffers);
      }
      rc := RC_OK;
    }

    /** Maps the slot of one frame, of `size` bytes, and binds it to the frame's memory. */
    method V4L2AllocBufferForFrame(frameSpec: Option<FrameSpec>, size: nat, r: QueryReply) returns (rc: RetCode)
      modifies this`adapterBufferMap
      ensures rc == RC_OK <==>
        && frameSpec.Some? && r.QueryOk? && r.length <= size
        && (NeedsMapping(old(adapterBufferMap), frameSpec.value.index) ==> r.mapping.Some?)
      ensures adapterBufferMap ==
        if frameSpec.Some? && r.QueryOk? && r.length <= size
        then BindNow(old(adapterBufferMap), frameSpec.value.index, r, frameSpec.value.virAddress)
        else old(adapterBufferMap)
    {
      if frameSpec.None? || r.QueryFailed? || r.length > size {
        return RC_ERROR;
      }
      var i := frameSpec.value.index;
      var slots := if i in adapterBufferMap then adapterBufferMap else adapterBufferMap[i := EMPTY_SLOT];
      var b := slots[i].(userBufPtr := frameSpec.value.virAddress, length := r.length, offset := r.offset);
      rc := RC_OK;
      if b.start == Unmapped {
        if r.mapping.Some? {
          b := b.(start := Mapped(r.mapping.value));
        } else {
          b := b.(start := MapFailed);
          rc := RC_ERROR;
        }
      }
      adapterBufferMap := slots[i := b];
    }

    /** Binds the frame's slot, if it is unbound, and looks the slot up. */
    method BindSlot(f: FrameSpec)
      modifies this`adapterBufferMap, this`adapterBufferMapNum
      ensures View() == Bind(old(View()), f.index, f.virAddress)
    {
      var i := f.index;
      if adapterBufferMapNum > 0 && i in adapterBufferMap && adapterBufferMap[i].userBufPtr == null {
        adapterBufferMap := adapterBufferMap[i := adapterBufferMap[i].(userBufPtr := f.virAddress)];
        adapterBufferMapNum := adapterBufferMapNum - 1;
      }
      if i !in adapterBufferMap {
        adapterBufferMap := adapterBufferMap[i := EMPTY_SLOT];
      }
    }

    /** One QueueBuffer call.  `qbufOk` is the ioctl's reply, and `wakes` is what other
        threads have made of the entry of fd each time the call has the lock again after a
        wait for room.  If it is still waiting after all of them, the result is None. */
    method V4L2QueueBuffer(fd: int, frameSpec: Option<FrameSpec>, qbufOk: bool, wakes: seq<map<nat, FrameSpec>>)
      returns (rc: Option<RetCode>, waits: nat)
      modifies this`adapterBufferMap, this`adapterBufferMapNum, this`queueBuffers, this`bufCont
      ensures waits <= |wakes| && (waits > 0 || rc == None ==> frameSpec.Some? && fd in old(queueBuffers))
      ensures frameSpec.Some? && fd in old(queueBuffers) ==>
        && (forall k :: 0 <= k < waits ==> |Seen(old(queueBuffers)[fd], wakes, k)| >= 8)
        && (rc == None <==> |Seen(old(queueBuffers)[fd], wakes, waits)| >= 8)
      ensures rc == None ==> waits == |wakes|
      ensures rc == Some(RC_OK) <==> frameSpec.Some? && qbufOk && rc != None
      ensures View() == (if frameSpec.None? then old(View())
                         else Bind(old(View()), frameSpec.value.index, frameSpec.value.virAddress))
      ensures
        var queue := if waits == 0 then old(queueBuffers) else old(queueBuffers)[fd := wakes[waits - 1]];
        queueBuffers == if rc == Some(RC_OK) then Enqueue(queue, fd, frameSpec.value) else queue
      ensures bufCont == old(bufCont) + (if rc == Some(RC_OK) then 1 else 0)
      ensures old(Valid()) && (frameSpec.Some? ==> FrameOk(old(adapterBufferMap), frameSpec.value)) ==>
        AllFiled(adapterBufferMap, wakes) ==> Valid()
    {
      waits := 0;
      if frameSpec.None? {
        return Some(RC_ERROR), 0;
      }
      hide Bind, Sound, FrameOk, Enqueue, FiledAt, FiledEntry;
      ghost var s, queue, f := View(), queueBuffers, frameSpec.value;
      BindSlot(frameSpec.value);
      var room := true;
      if fd in queueBuffers {
        room, waits := WaitForRoom(fd, wakes);
      }
      if Sound(s, queue) && FrameOk(s.slots, f) && AllFiled(adapterBufferMap, wakes) {
        BindKeepsSound(s, queue, f);
        if waits > 0 {
          WakeKeepsSound(View(), queue, fd, wakes[waits - 1]);
        }
        EnqueueKeepsSound(View(), queueBuffers, fd, f);
      }
      if !room {
        return None, waits;
      }
      if !qbufOk {
        return Some(RC_ERROR), waits;
      }
      InsertFrame(fd, frameSpec.value);
      bufCont := bufCont + 1;
      rc := Some(RC_OK);
    }

    /** Waits while the entry of fd is full. */
    method WaitForRoom(fd: int, wakes: seq<map<nat, FrameSpec>>) returns (room: bool, waits: nat)
      requires fd in queueBuffers
      modifies this`queueBuffers
      ensures waits <= |wakes|
      ensures queueBuffers == if waits == 0 then old(queueBuffers) else old(queueBuffers)[fd := wakes[waits - 1]]
      ensures forall k :: 0 <= k < waits ==> |Seen(old(queueBuffers)[fd], wakes, k)| >= 8
      ensures room <==> |Seen(old(queueBuffers)[fd], wakes, waits)| < 8
      ensures !room ==> waits == |wakes|
    {
      ghost var was := queueBuffers;
      waits := 0;
      while |queueBuffers[fd]| >= MAXBUFFER
        invariant waits <= |wakes| && fd in queueBuffers
        invariant queueBuffers == if waits == 0 then was else was[fd := wakes[waits - 1]]
        invariant forall k :: 0 <= k < waits ==> |Seen(was[fd], wakes, k)| >= MAXBUFFER
        decreases |wakes| - waits
      {
        assert queueBuffers[fd] == Seen(was[fd], wakes, waits);
        if waits == |wakes| {
          return false, waits;
        }
        queueBuffers := queueBuffers[fd := wakes[waits]];
        waits := waits + 1;
      }
      assert queueBuffers[fd] == Seen(was[fd], wakes, waits);
      room := true;
    }

    method InsertFrame(fd: int, f: FrameSpec)
      modifies this`queueBuffers
      ensures queueBuffers == Enqueue(old(queueBuffers), fd, f)
    {
      var i := f.index;
      if fd in queueBuffers {
        queueBuffers := queueBuffers[fd := queueBuffers[fd][i := f]];
      } else {
        queueBuffers := queueBuffers[fd := map[i := f]];
      }
    }

    /** The user memory a dequeued index is copied to. */
    ghost function Target(reply: Option<nat>): set<array<Byte>>
      reads this
    {
      if reply.Some? && reply.value in adapterBufferMap
         && adapterBufferMap[reply.value].userBufPtr != null && adapterBufferMap[reply.value].start.Mapped?
      then {adapterBufferMap[reply.value].userBufPtr}
      else {}
    }

    /** The copy from slot i, if both its ends are there.  No other memory is written. */
    method CopyFrame(i: nat)
      requires i in adapterBufferMap && CopyOk(adapterBufferMap[i])
      modifies Target(Some(i))
      ensures
        var b := adapterBufferMap[i];
        b.userBufPtr != null && b.start.Mapped? ==>
          && b.userBufPtr[..b.length] == old(b.start.mem[..b.length])
          && b.userBufPtr[b.length..] == old(b.userBufPtr[b.length..])
    {
      var b := adapterBufferMap[i];
      if b.userBufPtr != null && b.start.Mapped? {
        var user, driver := b.userBufPtr, b.start.mem;
        forall k | 0 <= k < b.length {
          user[k] := driver[k];
        }
      }
    }

    /** One DequeueBuffer call; `reply` is the index DQBUF returns, if it succeeds. */
    method V4L2DequeueBuffer(fd: int, reply: Option<nat>) returns (rc: RetCode, delivered: Option<FrameSpec>)
      requires bufCont >= 1 && reply.Some? && reply.value in adapterBufferMap ==>
        CopyOk(adapterBufferMap[reply.value])
      modifies this`adapterBufferMap, this`queueBuffers, this`bufCont, Target(reply)
      ensures old(bufCont) < 1 || reply.None? ==>
        && rc == RC_ERROR && delivered.None? && bufCont == old(bufCont)
        && adapterBufferMap == old(adapterBufferMap) && queueBuffers == old(queueBuffers)
      ensures old(bufCont) >= 1 && reply.Some? ==>
        var i := reply.value;
        var found := fd in old(queueBuffers) && i in old(queueBuffers)[fd];
        && adapterBufferMap == (if i in old(adapterBufferMap) then old(adapterBufferMap)
                                else old(adapterBufferMap)[i := EMPTY_SLOT])
        && (rc == RC_OK <==> found && dequeueBuffer)
        && delivered == (if found && dequeueBuffer then Some(old(queueBuffers)[fd][i]) else None)
        && bufCont == old(bufCont) - (if found && dequeueBuffer then 1 else 0)
        && queueBuffers == (if found then Erase(old(queueBuffers), fd, i) else old(queueBuffers))
        && (found ==> fd in queueBuffers && i !in queueBuffers[fd])
        && (forall d :: d in queueBuffers <==> d in old(queueBuffers))
        && (forall d, j :: d in queueBuffers && (d != fd || j != i) ==>
              && (j in queueBuffers[d] <==> j in old(queueBuffers)[d])
              && (j in queueBuffers[d] ==> queueBuffers[d][j] == old(queueBuffers)[d][j]))
      ensures old(Valid()) && delivered.Some? ==>
        var b, user := old(adapterBufferMap)[reply.value], delivered.value.virAddress;
        && FiledAt(old(adapterBufferMap), reply.value, delivered.value) && b.start.Mapped?
        && user[..b.length] == old(b.start.mem[..b.length]) && user[b.length..] == old(b.userBufPtr[b.length..])
      ensures old(Valid()) && (reply.Some? ==> reply.value in old(adapterBufferMap)) ==> Valid()
    {
      if bufCont < 1 || reply.None? {
        return RC_ERROR, None;
      }
      var i := reply.value;
      if i !in adapterBufferMap {
        adapterBufferMap := adapterBufferMap[i := EMPTY_SLOT];
      }
      CopyFrame(i);
      if fd !in queueBuffers || i !in queueBuffers[fd] {
        return RC_ERROR, None;
      }
      var framebuff := queueBuffers[fd][i];
      ghost var queue := queueBuffers;
      queueBuffers := queueBuffers[fd := queueBuffers[fd] - {i}];
      if Filed(adapterBufferMap, queue) {
        EraseKeepsFiled(adapterBufferMap, queue, fd, i);
      }
      if !dequeueBuffer {
        return RC_ERROR, None;
      }
      bufCont := bufCont - 1;
      return RC_OK, Some(framebuff);
    }

    /** Asks the driver for buffCont buffers; `reply` is how many it grants.  `requests` are
        the counts of the REQBUFS calls made: a grant of any other number is given back. */
    method V4L2ReqBuffers(buffCont: nat, reply: Option<nat>) returns (rc: RetCode, requests: seq<nat>)
      ensures rc == RC_OK <==> reply == Some(buffCont)
      ensures requests == if rc == RC_ERROR && reply.Some? then [buffCont, 0] else [buffCont]
    {
      requests := [buffCont];
      if reply.None? {
        return RC_ERROR, requests;
      }
      if reply.value != buffCont {
        return RC_ERROR, requests + [0];
      }
      rc := RC_OK;
    }

    /** Forgets every slot and the frames of fd; `unmapped` are the slots munmap was called
        for.  The counter is left as it is, so it is right again only if every slot was
        bound. */
    method V4L2ReleaseBuffers(fd: int, reply: Option<nat>) 
      returns (rc: RetCode, unmapped: set<nat>, requests: seq<nat>)
      modifies this`adapterBufferMap, this`queueBuffers
      ensures View() == Slots(map[], old(adapterBufferMapNum)) && queueBuffers == old(queueBuffers) - {fd}
      ensures Balanced(View()) <==> old(adapterBufferMapNum) == 0
      ensures unmapped == set i | i in old(adapterBufferMap) && old(adapterBufferMap)[i].start != Unmapped
      ensures (rc == RC_OK <==> reply == Some(0)) && requests == if reply in {None, Some(0)} then [0] else [0, 0]
    {
      queueBuffers := queueBuffers - {fd};
      unmapped := {};
      var todo := adapterBufferMap.Keys;
      while todo != {}
        invariant todo <= adapterBufferMap.Keys && adapterBufferMap == old(adapterBufferMap)
        invariant unmapped == set i | i in adapterBufferMap && i !in todo && adapterBufferMap[i].start != Unmapped
        decreases |todo|
      {
        var i :| i in todo;
        if adapterBufferMap[i].start != Unmapped {
          unmapped := unmapped + {i};
        }
        todo := todo - {i};
      }
      adapterBufferMap := map[];
      assert Unbound(adapterBufferMap) == {};
      rc, requests := V4L2ReqBuffers(0, reply);
    }
  }
}
