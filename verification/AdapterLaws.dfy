/** What the buffer object's operations do to each slot and to each frame in flight, one
by one. */
module AdapterLaws {
  import opened AdapterBuffers

  // ---------------------------------------------------------------- slots

  /** Queueing a frame binds its slot if that is unbound and the counter is positive, adds
      an empty slot if there is none, and touches no other slot and no other field. */
  lemma BindExactly(s: Slots, i: nat, address: array?<Byte>, k: nat)
    ensures
      var t := Bind(s, i, address);
      && i in t.slots
      && (k != i ==> (k in t.slots <==> k in s.slots) && (k in s.slots ==> t.slots[k] == s.slots[k]))
      && (i !in s.slots ==> t.slots[i] == AdapterBuff(Unmapped, 0, 0, null) && t.num == s.num)
      && (i in s.slots && s.num > 0 && s.slots[i].userBufPtr == null ==>
            && t.slots[i] == AdapterBuff(s.slots[i].start, s.slots[i].length, s.slots[i].offset, address)
            && t.num == s.num - 1)
      && (i in s.slots && (s.num <= 0 || s.slots[i].userBufPtr != null) ==>
            t.slots[i] == s.slots[i] && t.num == s.num)
  {
  }

  predicate HasStart(slots: map<nat, AdapterBuff>, k: nat) {
    k in slots && slots[k].start != Unmapped
  }

  predicate GoodReply(slots: map<nat, AdapterBuff>, k: nat, r: QueryReply) {
    r.QueryOk? && r.length > 0 && (HasStart(slots, k) || r.mapping.Some?)
  }

  lemma GoodReplyIff(slots: map<nat, AdapterBuff>, replies: seq<QueryReply>, k: nat)
    requires k < |replies|
    ensures ReplyOk(AllocSlots(slots, replies, k), k, replies[k]) <==> GoodReply(slots, k, replies[k])
  {
    AllocElsewhere(slots, replies, k, k);
    hide AllocSlots;
  }

  /** Mapping succeeds if and only if every QUERYBUF does, with a length above 0, and every
      mmap that is made, which is for each slot without a start. */
  lemma AllRepliesOkIff(slots: map<nat, AdapterBuff>, replies: seq<QueryReply>, n: nat)
    requires n <= |replies|
    ensures AllRepliesOk(slots, replies, n) <==> forall k :: 0 <= k < n ==> GoodReply(slots, k, replies[k])
  {
    hide ReplyOk, GoodReply, AllocSlots;
    forall k | 0 <= k < n
      ensures ReplyOk(AllocSlots(slots, replies, k), k, replies[k]) <==> GoodReply(slots, k, replies[k])
    {
      GoodReplyIff(slots, replies, k);
    }
  }

  /** What mapping leaves in slot k: the length and offset the driver reported, the start it
      had or else what mmap returned, and the user memory it was bound to. */
  lemma {:induction false} AllocExactly(slots: map<nat, AdapterBuff>, replies: seq<QueryReply>, n: nat, k: nat)
    requires k < n <= |replies| && replies[k].QueryOk?
    ensures
      var after := AllocSlots(slots, replies, n);
      && k in after && after[k].length == replies[k].length && after[k].offset == replies[k].offset
      && after[k].userBufPtr == (if k in slots then slots[k].userBufPtr else null)
      && after[k].start == if HasStart(slots, k) then slots[k].start
                           else if replies[k].mapping.Some? then Mapped(replies[k].mapping.value) else MapFailed
  {
    if k < n - 1 {
      AllocExactly(slots, replies, n - 1, k);
    } else {
      AllocElsewhere(slots, replies, k, k);
    }
  }

  /** Mapping for one frame likewise, except that the slot gets the frame's memory. */
  lemma BindNowExactly(slots: map<nat, AdapterBuff>, i: nat, r: QueryReply, address: array?<Byte>, k: nat)
    requires r.QueryOk?
    ensures
      var after := BindNow(slots, i, r, address);
      && i in after && after[i].length == r.length && after[i].offset == r.offset && after[i].userBufPtr == address
      && after[i].start == (if HasStart(slots, i) then slots[i].start
                            else if r.mapping.Some? then Mapped(r.mapping.value) else MapFailed)
      && (k != i ==> (k in after <==> k in slots) && (k in slots ==> after[k] == slots[k]))
  {
  }

  // ---------------------------------------------------------------- frames in flight

  /** The frame in flight under index i of descriptor fd. */
  function InFlight(queue: Queue, fd: int, i: nat): Option<FrameSpec> {
    if fd in queue && i in queue[fd] then Some(queue[fd][i]) else None
  }

  /** Inserting a frame files it under its index, and changes nothing else. */
  lemma EnqueueExactly(queue: Queue, fd: int, f: FrameSpec, d: int, j: nat)
    ensures
      var after := Enqueue(queue, fd, f);
      && after.Keys == queue.Keys + {fd}
      && InFlight(after, d, j) == if d == fd && j == f.index then Some(f) else InFlight(queue, d, j)
  {
  }

  /** Erasing an index takes out that one frame, and changes nothing else. */
  lemma EraseExactly(queue: Queue, fd: int, i: nat, d: int, j: nat)
    requires fd in queue
    ensures
      var after := Erase(queue, fd, i);
      && after.Keys == queue.Keys
      && InFlight(after, d, j) == if d == fd && j == i then None else InFlight(queue, d, j)
  {
  }

  function EnqueueAll(queue: Queue, fd: int, frames: seq<FrameSpec>): Queue {
    if frames == [] then queue
    else Enqueue(EnqueueAll(queue, fd, frames[..|frames| - 1]), fd, frames[|frames| - 1])
  }

  /** What dequeueing the indexes in this order hands over. */
  function DequeueAll(queue: Queue, fd: int, order: seq<nat>): seq<Option<FrameSpec>>
    decreases |order|
  {
    if order == [] then []
    else
      [InFlight(queue, fd, order[0])]
      + DequeueAll(if InFlight(queue, fd, order[0]).Some? then Erase(queue, fd, order[0]) else queue, fd, order[1..])
  }

  predicate Distinct(xs: seq<nat>) {
    forall a, b :: 0 <= a < b < |xs| ==> xs[a] != xs[b]
  }

  function Indexes(frames: seq<FrameSpec>): (xs: seq<nat>)
    ensures |xs| == |frames| && forall k :: 0 <= k < |xs| ==> xs[k] == frames[k].index
  {
    seq(|frames|, k requires 0 <= k < |frames| => frames[k].index)
  }

  lemma {:induction false} EnqueuedInFlight(queue: Queue, fd: int, frames: seq<FrameSpec>, k: nat)
    requires k < |frames| && Distinct(Indexes(frames))
    ensures InFlight(EnqueueAll(queue, fd, frames), fd, frames[k].index) == Some(frames[k])
  {
    var n := |frames| - 1;
    var xs := Indexes(frames);
    EnqueueExactly(EnqueueAll(queue, fd, frames[..n]), fd, frames[n], fd, frames[k].index);
    hide Enqueue;
    if k < n {
      assert xs[k] != xs[n];
      var ys := Indexes(frames[..n]);
      assert forall a :: 0 <= a < n ==> ys[a] == xs[a];
      EnqueuedInFlight(queue, fd, frames[..n], k);
      assert frames[..n][k] == frames[k];
    }
  }

  lemma {:induction false} DequeuedInOrder(queue: Queue, fd: int, order: seq<nat>, k: nat)
    requires k < |order| && Distinct(order)
    ensures |DequeueAll(queue, fd, order)| == |order|
    ensures DequeueAll(queue, fd, order)[k] == InFlight(queue, fd, order[k])
    decreases |order|
  {
    var rest := order[1..];
    var next := if InFlight(queue, fd, order[0]).Some? then Erase(queue, fd, order[0]) else queue;
    assert forall a :: 0 <= a < |rest| ==> rest[a] == order[a + 1];
    if k > 0 {
      assert order[0] != order[k];
      DequeuedInOrder(next, fd, rest, k - 1);
      if InFlight(queue, fd, order[0]).Some? {
        EraseExactly(queue, fd, order[0], fd, order[k]);
      }
    } else if rest != [] {
      DequeuedInOrder(next, fd, rest, 0);
    }
  }

  /** Frames queued under distinct indexes and dequeued in any order are each handed over
      exactly once: dequeue k hands over the frame with its index, and every frame has its
      one k. */
  lemma EachDeliveredOnce(queue: Queue, fd: int, frames: seq<FrameSpec>, order: seq<nat>, m: nat)
    requires Distinct(Indexes(frames)) && Distinct(order) && multiset(order) == multiset(Indexes(frames))
    requires m < |frames|
    ensures
      var handed := DequeueAll(EnqueueAll(queue, fd, frames), fd, order);
      && |handed| == |order| == |frames|
      && (forall k :: 0 <= k < |order| ==> handed[k].Some? && handed[k].value.index == order[k])
      && (exists k :: 0 <= k < |order| && handed[k] == Some(frames[m]))
      && (forall j, k :: 0 <= j < |order| && 0 <= k < |order| && handed[j] == handed[k] == Some(frames[m]) ==> j == k)
  {
    hide EnqueueAll, DequeueAll;
    var full, xs := EnqueueAll(queue, fd, frames), Indexes(frames);
    var handed := DequeueAll(full, fd, order);
    assert |order| == |multiset(order)| == |multiset(xs)| == |xs|;
    DequeuedInOrder(full, fd, order, 0);
    forall k | 0 <= k < |order|
      ensures handed[k].Some? && handed[k].value.index == order[k]
    {
      DequeuedInOrder(full, fd, order, k);
      assert order[k] in multiset(order);
      assert order[k] in xs;
      var a :| 0 <= a < |xs| && xs[a] == order[k];
      EnqueuedInFlight(queue, fd, frames, a);
    }
    assert xs[m] in multiset(xs);
    assert xs[m] in order;
    var k :| 0 <= k < |order| && order[k] == xs[m];
    DequeuedInOrder(full, fd, order, k);
    EnqueuedInFlight(queue, fd, frames, m);
    assert handed[k] == Some(frames[m]);
  }
}
