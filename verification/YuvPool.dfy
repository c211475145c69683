/** The pool of YUV frame buffers: a list of free buffers, a queue of used ones, and buffers
    held by the camera thread that fills them or the encoder that reads them. */
module YuvPool {
  import opened Departures

  /** The picture in a buffer, by its identity. */
  type Frame = int

  class Yuv {
    var next: Yuv?
    var pre: Yuv?          // set by the operations, never read by them
    var frame: Frame
    ghost var owner: BufList?

    constructor (frame: Frame)
      ensures next == null && owner == null && this.frame == frame
    {
      next, pre, this.frame, owner := null, null, frame, null;
    }
  }

  /** A list with its head, its last buffer and its counter: freeHead, pFreeLast and freeBufNum,
      or usedHead, pUsedLast and usedBufNum. */
  class BufList {
    var head: Yuv?
    var last: Yuv?
    var num: int
    ghost var nodes: seq<Yuv>
    ghost var frames: seq<Frame>      // the frames in the buffers

    ghost predicate Valid()
      reads this, nodes`next, nodes`owner, nodes`frame
    {
      && num == |nodes| == |frames|
      && (forall i :: 0 <= i < |nodes| ==> nodes[i].frame == frames[i])
      && head == (if nodes == [] then null else nodes[0])
      && last == (if nodes == [] then null else nodes[|nodes| - 1])
      && (forall i {:trigger nodes[i].next} :: 0 <= i < |nodes| ==>
            nodes[i].next == if i + 1 < |nodes| then nodes[i + 1] else null)
      && (forall i, j :: 0 <= i < j < |nodes| ==> nodes[i] != nodes[j])
      && (forall b :: b in nodes ==> b.owner == this)
    }

    constructor ()
      ensures Valid() && nodes == [] && frames == []
    {
      head, last, num, nodes, frames := null, null, 0, [], [];
    }

    /** Put a buffer at the end. */
    method Append(b: Yuv)
      requires Valid() && b.owner == null
      modifies this, nodes`next, b`next, b`pre, b`owner
      ensures Valid() && nodes == old(nodes) + [b] && b.owner == this && frames == old(frames) + [b.frame]
    {
      if last == null {
        head := b;
        last := b;
        b.next := null;
        b.pre := null;
      } else {
        var tmp := last;
        assert tmp == nodes[|nodes| - 1];
        tmp.next := b;
        last := b;
        b.next := null;
        b.pre := tmp;
      }
      num := num + 1;
      b.owner := this;
      nodes := nodes + [b];
      frames := frames + [b.frame];
    }

    lemma Distinct()
      requires Valid()
      ensures |set b | b in nodes| == |nodes| == num
    {
      DistinctCount(nodes);
    }

    lemma Owned()
      requires Valid()
      ensures forall b :: b in nodes ==> b.owner == this
      ensures num == |nodes| && (head == null <==> nodes == [])
    {
    }

    /** Take the first buffer; `error` is set in the branches where the source reports that the
        counter and the list disagree. */
    method TakeFirst() returns (b: Yuv, error: bool)
      requires Valid() && nodes != []
      modifies this, nodes`pre, nodes`owner
      ensures Valid() && b == old(nodes)[0] && nodes == old(nodes)[1..] && [b.frame] + frames == old(frames) && !error
      ensures b in old(nodes) && forall c :: c in old(nodes) ==> c == b || c in nodes
      ensures forall c :: c in nodes ==> c in old(nodes)
      ensures b !in nodes && b.owner == null && forall c :: c in nodes ==> c.owner == this
    {
      b, error := head, false;
      assert nodes[0].next == head.next;
      head := b.next;
      num := num - 1;
      if head == null {
        last := null;
        if num != 0 {
          error := true;
        }
      } else {
        head.pre := null;
        if num == 0 {
          error := true;
        }
      }
      b.owner := null;
      assert nodes == [nodes[0]] + nodes[1..] && b == nodes[0];
      nodes := nodes[1..];
      frames := frames[1..];
    }
  }

  lemma {:induction false} DistinctCount<T>(s: seq<T>)
    requires forall i, j :: 0 <= i < j < |s| ==> s[i] != s[j]
    ensures |set x | x in s| == |s|
  {
    if s != [] {
      var n := |s| - 1;
      DistinctCount(s[..n]);
      assert s == s[..n] + [s[n]];
      assert (set x | x in s) == (set x | x in s[..n]) + {s[n]};
    }
  }

  lemma PutBack<T>(s: set<T>, x: T)
    requires x !in s
    ensures (s + {x}) - {x} == s
  {
  }

  const MAX_YUV_QUEUE_NUM: nat := 3

  class YuvQueue {
    const free: BufList
    const used: BufList
    ghost var held: set<Yuv>          // handed out and not given back
    ghost var bufs: set<Yuv>
    ghost var inserted: seq<Frame>    // every frame inserted so far
    ghost var departed: seq<Departure<Frame>>

    /** Every buffer is free, used or held, and only one of the three. */
    ghost predicate Placed()
      reads this`held, this`bufs, free, used, bufs`owner
      reads free.nodes`next, free.nodes`owner, free.nodes`frame, used.nodes`next, used.nodes`owner, used.nodes`frame
    {
      && free != used && free.Valid() && used.Valid()
      && (forall b :: b in free.nodes ==> b in bufs)
      && (forall b :: b in used.nodes ==> b in bufs)
      && (forall b :: b in held ==> b in bufs && b.owner == null)
      && (forall b :: b in bufs ==> b.owner == free || b.owner == used || b.owner == null)
      && (forall b :: b in bufs && b.owner == free ==> b in free.nodes)
      && (forall b :: b in bufs && b.owner == used ==> b in used.nodes)
      && (forall b :: b in bufs && b.owner == null ==> b in held)
    }

    /** The frames inserted are those that have left, followed by those in the queue. */
    ghost predicate InOrder()
      reads this`inserted, this`departed, used`frames
    {
      inserted == FramesOf(departed) + used.frames
    }

    ghost predicate Valid()
      reads this, free, used, bufs`owner
      reads free.nodes`next, free.nodes`owner, free.nodes`frame, used.nodes`next, used.nodes`owner, used.nodes`frame
    {
      Placed() && InOrder() && |bufs| == MAX_YUV_QUEUE_NUM
    }

    /** streamInitYuvQueue. */
    constructor (frame: Frame)
      ensures Valid() && fresh(free) && fresh(used) && fresh(bufs)
      ensures held == {} && used.nodes == [] && inserted == [] && departed == []
    {
      free := new BufList();
      used := new BufList();
      held, bufs, inserted, departed := {}, {}, [], [];
      new;
      assert Placed() && InOrder();
      hide Placed, InOrder, BufList.Valid;
      var i := 0;
      while i < MAX_YUV_QUEUE_NUM
        invariant i <= MAX_YUV_QUEUE_NUM && Placed() && InOrder() && held == {} && used.nodes == []
        invariant fresh(bufs) && |bufs| == i && inserted == [] && departed == []
      {
        AddBuffer(frame);
        i := i + 1;
      }
      IsValid();
    }

    method AddBuffer(frame: Frame)
      requires Placed() && InOrder()
      modifies this`bufs, this`held, free, bufs`next, bufs`pre, bufs`owner
      ensures Placed() && InOrder() && held == old(held) && used.nodes == old(used.nodes)
      ensures old(bufs) <= bufs && fresh(bufs - old(bufs)) && |bufs| == old(|bufs|) + 1
    {
      Owners();
      hide *;
      ghost var before := held;
      var b := NewBuffer(frame);
      GiveFree(b);
      PutBack(before, b);
    }

    /** One more buffer in the pool, held by its maker. */
    method NewBuffer(frame: Frame) returns (b: Yuv)
      requires Placed()
      modifies this`bufs, this`held
      ensures Placed() && fresh(b) && b !in old(held) && b !in old(bufs)
      ensures bufs == old(bufs) + {b} && held == old(held) + {b}
    {
      Owners();
      hide BufList.Valid;
      b := new Yuv(frame);
      bufs := bufs + {b};
      held := held + {b};
    }

    lemma Owners()
      requires Placed()
      ensures free != used
      ensures forall b :: b in free.nodes ==> b in bufs && b.owner == free && b !in used.nodes && b !in held
      ensures forall b :: b in used.nodes ==> b in bufs && b.owner == used && b !in free.nodes && b !in held
      ensures forall b :: b in held ==> b in bufs && b.owner == null
      ensures (free.head == null <==> free.nodes == []) && (used.head == null <==> used.nodes == [])
      ensures held == bufs <==> free.nodes == [] && used.nodes == []
    {
      free.Owned();
      used.Owned();
      if free.nodes != [] { assert free.nodes[0] in free.nodes; }
      if used.nodes != [] { assert used.nodes[0] in used.nodes; }
      if free.nodes == [] && used.nodes == [] { assert forall b :: b in bufs ==> b in held; }
    }

    method TakeFree() returns (b: Yuv, error: bool)
      requires Placed() && free.nodes != []
      modifies this`held, free, bufs`pre, bufs`owner
      ensures Placed() && !error && b in bufs && b !in old(held)
      ensures held == old(held) + {b} && b == old(free.nodes)[0] && free.nodes == old(free.nodes)[1..]
    {
      Owners();
      hide BufList.Valid;
      b, error := free.TakeFirst();
      assert forall x :: x in used.nodes ==> x.next == old(x.next);
      assert used.Valid();
      held := held + {b};
    }

    method TakeUsed() returns (b: Yuv, error: bool)
      requires Placed() && used.nodes != []
      modifies this`held, used, bufs`pre, bufs`owner
      ensures Placed() && !error && b in bufs && b !in old(held)
      ensures held == old(held) + {b} && b == old(used.nodes)[0] && used.nodes == old(used.nodes)[1..]
      ensures [b.frame] + used.frames == old(used.frames)
    {
      Owners();
      hide BufList.Valid;
      b, error := used.TakeFirst();
      assert forall x :: x in free.nodes ==> x.next == old(x.next);
      assert free.Valid();
      held := held + {b};
    }

    method GiveFree(b: Yuv)
      requires Placed() && b in held
      modifies this`held, free, bufs`next, bufs`pre, bufs`owner
      ensures Placed() && free.nodes == old(free.nodes) + [b] && held == old(held) - {b}
    {
      Owners();
      hide BufList.Valid;
      free.Append(b);
      assert forall x :: x in used.nodes ==> x.next == old(x.next);
      assert used.Valid();
      held := held - {b};
    }

    method GiveUsed(b: Yuv)
      requires Placed() && b in held
      modifies this`held, used, bufs`next, bufs`pre, bufs`owner
      ensures Placed() && used.nodes == old(used.nodes) + [b] && held == old(held) - {b}
      ensures used.frames == old(used.frames) + [b.frame]
    {
      Owners();
      hide BufList.Valid;
      used.Append(b);
      assert forall x :: x in free.nodes ==> x.next == old(x.next);
      assert free.Valid();
      held := held - {b};
    }

    /** streamGetYuvWriteBuffer: a free buffer, or else the one with the oldest frame, which is
        dropped; null only when every buffer is held. */
    method GetWriteBuffer() returns (b: Yuv?, error: bool)
      requires Valid()
      modifies this`held, this`departed, free, used, bufs`next, bufs`pre, bufs`owner
      ensures Valid() && !error
      ensures b == null <==> old(held == bufs)
      ensures held == old(held) + (if b == null then {} else {b}) && (b != null ==> b !in old(held) && b in bufs)
      ensures old(free.nodes) != [] ==>
        && b == old(free.nodes)[0] && free.nodes == old(free.nodes)[1..]
        && used.nodes == old(used.nodes) && departed == old(departed)
      ensures old(free.nodes) == [] ==>
        && free.nodes == []
        && (if old(used.nodes) == [] then used.nodes == [] && departed == old(departed)
            else b == old(used.nodes)[0] && used.nodes == old(used.nodes)[1..]
                 && departed == old(departed) + [Dropped(b.frame)])
    {
      ValidOwners();
      hide *;
      b, error := null, false;
      if free.head == null {
        if used.head != null {
          b, error := TakeOldest(true);
        }
      } else {
        b, error := TakeFreeBuffer();
      }
    }

    /** The counters and the buffers in use add up to the size of the pool. */
    lemma CountersAddUp()
      requires Valid()
      ensures free.num + used.num + |held| == MAX_YUV_QUEUE_NUM
      ensures free.num == |free.nodes| && used.num == |used.nodes|
    {
      Owners();
      free.Distinct();
      used.Distinct();
      var f, u := set b | b in free.nodes, set b | b in used.nodes;
      assert f !! u && (f + u) !! held && f + u + held == bufs;
    }

    lemma ValidOwners()
      requires Valid()
      ensures free != used
      ensures (free.head == null <==> free.nodes == []) && (used.head == null <==> used.nodes == [])
      ensures held == bufs <==> free.nodes == [] && used.nodes == []
    {
      Owners();
    }

    /** Take the oldest used buffer, to deliver its frame or to drop it. */
    method TakeOldest(ghost dropped: bool) returns (b: Yuv, error: bool)
      requires Valid() && used.nodes != []
      modifies this`held, this`departed, used, bufs`pre, bufs`owner
      ensures Valid() && !error && b in bufs && b !in old(held)
      ensures held == old(held) + {b} && b == old(used.nodes)[0] && used.nodes == old(used.nodes)[1..]
      ensures departed == old(departed) + [if dropped then Dropped(b.frame) else Delivered(b.frame)]
    {
      ValidMeans();
      hide *;
      ghost var was, before := used.frames, departed;
      b, error := TakeUsed();
      ghost var d := if dropped then Dropped(b.frame) else Delivered(b.frame);
      departed := departed + [d];
      Left(b, was, before, d);
      IsValid();
    }

    lemma ValidMeans()
      requires Valid()
      ensures Placed() && inserted == FramesOf(departed) + used.frames && |bufs| == MAX_YUV_QUEUE_NUM
      ensures free != used && (forall b :: b in used.nodes ==> b in bufs) && held <= bufs
    {
      Owners();
    }

    lemma IsValid()
      requires Placed() && InOrder() && |bufs| == MAX_YUV_QUEUE_NUM
      ensures Valid()
    {
    }

    method TakeFreeBuffer() returns (b: Yuv, error: bool)
      requires Valid() && free.nodes != []
      modifies this`held, free, bufs`next, bufs`pre, bufs`owner
      ensures Valid() && !error && b in bufs && b !in old(held)
      ensures held == old(held) + {b} && b == old(free.nodes)[0] && free.nodes == old(free.nodes)[1..]
    {
      Owners();
      hide Placed, InOrder;
      b, error := TakeFree();
      Unlink(b);
    }

    method Unlink(b: Yuv)
      requires Placed() && b in held
      modifies b`next, b`pre
      ensures Placed()
    {
      Owners();
      hide BufList.Valid;
      b.pre := null;
      b.next := null;
    }

    /** streamInsertYuvQueue: the frame in a held buffer joins the queue. */
    method Insert(b: Yuv)
      requires Valid() && b in held
      modifies this`held, this`inserted, used, bufs`next, bufs`pre, bufs`owner
      ensures Valid() && used.nodes == old(used.nodes) + [b] && held == old(held) - {b}
      ensures inserted == old(inserted) + [b.frame]
    {
      ValidMeans();
      hide *;
      ghost var was := used.frames;
      GiveUsed(b);
      inserted := inserted + [b.frame];
      Joined(b, was);
      IsValid();
    }

    /** A frame has joined the queue. */
    lemma Joined(b: Yuv, was: seq<Frame>)
      requires used.frames == was + [b.frame] && inserted == FramesOf(departed) + was + [b.frame]
      ensures InOrder()
    {
    }

    /** streamGetYuvUsedBuffer: the buffer with the oldest frame, null when there is none. */
    method GetUsedBuffer() returns (b: Yuv?, error: bool)
      requires Valid()
      modifies this`held, this`departed, used, bufs`pre, bufs`owner
      ensures Valid() && !error
      ensures old(used.nodes) == [] ==> b == null && used.nodes == [] && held == old(held) && departed == old(departed)
      ensures old(used.nodes) != [] ==>
        && b != null && b == old(used.nodes)[0] && used.nodes == old(used.nodes)[1..]
        && held == old(held) + {b} && b !in old(held)
        && departed == old(departed) + [Delivered(b.frame)]
    {
      ValidOwners();
      hide *;
      b, error := null, false;
      if used.head != null {
        b, error := TakeOldest(false);
      }
    }

    /** streamFreeYuvUsedBuffer: give a held buffer back. */
    method FreeUsedBuffer(b: Yuv)
      requires Valid() && b in held
      modifies this`held, free, bufs`next, bufs`pre, bufs`owner
      ensures Valid() && free.nodes == old(free.nodes) + [b] && held == old(held) - {b}
    {
      Owners();
      hide Placed, InOrder;
      GiveFree(b);
    }

    /** The frame at the front of the queue has left it. */
    lemma Left(b: Yuv, was: seq<Frame>, before: seq<Departure<Frame>>, d: Departure<Frame>)
      requires [b.frame] + used.frames == was && inserted == FramesOf(before) + was
      requires departed == before + [d] && d.frame == b.frame
      ensures InOrder()
    {
      assert FramesOf(departed) == FramesOf(before) + [b.frame];
    }
  }
}
