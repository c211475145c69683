/** The byte ring between the network thread and the frame parser: frames are received straight
    into the ring, in one piece each, and popped across the end of the buffer. */
module ByteRing {
  import opened Options
  import opened Departures
  import opened Bytes
  import opened Modulo

  // ------------------------------------------------- positions and frames

  /** `x` places from the start of a buffer of `n`, once round at most. */
  function Wrap(x: nat, n: nat): (p: nat)
    requires x < 2 * n
    ensures p < n
  {
    if x < n then x else x - n
  }

  lemma ModIsWrap(x: nat, n: nat)
    requires x < 2 * n
    ensures x % n == Wrap(x, n)
  {
    ModIs(x, n, if x < n then 0 else 1, Wrap(x, n));
  }

  function Concat(frames: seq<Text>): (t: Text)
  {
    if frames == [] then [] else Concat(frames[..|frames| - 1]) + frames[|frames| - 1]
  }

  lemma {:induction false} ConcatFront(frames: seq<Text>)
    requires frames != []
    ensures Concat(frames) == frames[0] + Concat(frames[1..])
  {
    var n := |frames| - 1;
    if n > 0 {
      ConcatFront(frames[..n]);
      assert frames[..n][1..] == frames[1..][..n - 1];
    }
  }

  lemma ConcatBack(frames: seq<Text>, f: Text)
    ensures Concat(frames + [f]) == Concat(frames) + f
  {
    assert (frames + [f])[..|frames|] == frames;
  }

  ghost predicate NoneEmpty(frames: seq<Text>) { forall i :: 0 <= i < |frames| ==> |frames[i]| > 0 }

  lemma NoneEmptyParts(frames: seq<Text>, f: Text)
    requires NoneEmpty(frames) && f != []
    ensures NoneEmpty(frames + [f]) && NoneEmpty([]) && NoneEmpty(if frames == [] then [] else frames[1..])
  {
  }

  function AllDropped(frames: seq<Text>): (ds: seq<Departure<Text>>)
    ensures FramesOf(ds) == frames && forall d :: d in ds ==> d.Dropped?
  {
    seq(|frames|, i requires 0 <= i < |frames| => Dropped(frames[i]))
  }

  function AllLost(frames: seq<Text>): (ds: seq<Departure<Text>>)
    ensures FramesOf(ds) == frames && forall d :: d in ds ==> d.Lost?
  {
    seq(|frames|, i requires 0 <= i < |frames| => Lost(frames[i]))
  }

  // ------------------------------------------------- the contents of a ring

  /** The bytes `data` lie on the ring from `start` to `end`; the ring is never exactly full. */
  ghost predicate Holds(buf: Text, start: nat, end: nat, data: Text) {
    && start < |buf| && |data| < |buf|
    && end == Wrap(start + |data|, |buf|)
    && forall i :: 0 <= i < |data| ==> buf[Wrap(start + i, |buf|)] == data[i]
  }

  /** A contiguous write of `f` at `end`, into the room there is before `start` or before the end
      of the buffer. */
  lemma WriteKeeps(buf: Text, buf': Text, start: nat, end: nat, data: Text, f: Text)
    requires Holds(buf, start, end, data) && |buf'| == |buf| && f != []
    requires end + |f| <= |buf| && buf'[end..end + |f|] == f
    requires forall i :: 0 <= i < |buf| && !(end <= i < end + |f|) ==> buf'[i] == buf[i]
    requires start > end ==> |f| <= start - end
    requires start == end ==> end == 0
    ensures |data| + |f| <= |buf|
    ensures |data| + |f| < |buf| ==> Holds(buf', start, Wrap(end + |f|, |buf|), data + f)
    ensures |data| + |f| == |buf| ==> Wrap(end + |f|, |buf|) == start
  {
    var n := |buf|;
    if |data| + |f| < n {
      forall i | 0 <= i < |data| + |f| ensures buf'[Wrap(start + i, n)] == (data + f)[i] {
        if i >= |data| { assert buf'[end..end + |f|][i - |data|] == f[i - |data|]; }
      }
    }
  }

  lemma PopKeeps(buf: Text, start: nat, end: nat, f: Text, rest: Text)
    requires Holds(buf, start, end, f + rest)
    ensures Holds(buf, Wrap(start + |f|, |buf|), end, rest)
  {
    forall i | 0 <= i < |rest| ensures buf[Wrap(Wrap(start + |f|, |buf|) + i, |buf|)] == rest[i] {
      assert (f + rest)[|f| + i] == rest[i];
    }
  }

  // ------------------------------------------------- the ring

  /** What became of a frame: Empty when there was nothing to receive, Outside when it is written behind
      the end of the buffer, where nothing is defined any more. */
  datatype Reception = Stored | Empty | Failed | Outside

  /** What a call of recv answers: some bytes, of which it takes no more than asked for, none meaning a
      closed connection; nothing for now (EINTR, EWOULDBLOCK or EAGAIN); or another error. */
  datatype Answer = Bytes(n: nat) | Again | Broken

  /** So many answers of "nothing for now" in a row, and the receive gives up. */
  const PATIENCE: nat := 200

  /** What becomes of a frame of `size` bytes in a ring of `cap` when recv answers as in `script`, of
      which `total` bytes have arrived and the last `retries` answers were Again.  An empty frame is over
      with the first answer: no bytes read as a closed connection, but Again leaves nothing to wait for. */
  ghost function Outcome(script: seq<Answer>, size: nat, cap: nat, total: nat, retries: nat): Reception
    requires total <= size
    decreases |script|
  {
    if 0 < total == size then Stored
    else if script == [] then Failed
    else if size == 0 then if script[0] == Again then Empty else Failed
    else
      match script[0]
      case Broken => Failed
      case Again => if retries + 1 >= PATIENCE then Failed else Outcome(script[1..], size, cap, total, retries + 1)
      case Bytes(n) =>
        var k := if n < size - total then n else size - total;
        if k == 0 then Failed
        else if total + k > cap then Outside
        else Outcome(script[1..], size, cap, total + k, 0)
  }

  /** Only a frame that fits is stored, and only one longer than the ring is written behind it. */
  lemma {:induction false} OutcomeFits(script: seq<Answer>, size: nat, cap: nat, total: nat, retries: nat)
    requires total <= size && total <= cap
    ensures Outcome(script, size, cap, total, retries) == Stored ==> 0 < size <= cap
    ensures Outcome(script, size, cap, total, retries) == Outside ==> size > cap
    ensures Outcome(script, size, cap, total, retries) == Empty ==> size == 0
    decreases |script|
  {
    if 0 < size && total < size && script != [] {
      match script[0]
      case Broken =>
      case Again => OutcomeFits(script[1..], size, cap, total, retries + 1);
      case Bytes(n) =>
        var k := if n < size - total then n else size - total;
        if 0 < k && total + k <= cap { OutcomeFits(script[1..], size, cap, total + k, 0); }
    }
  }

  lemma OutcomeStep(script: seq<Answer>, size: nat, cap: nat, total: nat, retries: nat)
    requires total < size && script != []
    ensures Outcome(script, size, cap, total, retries) ==
      match script[0]
      case Broken => Failed
      case Again => if retries + 1 >= PATIENCE then Failed else Outcome(script[1..], size, cap, total, retries + 1)
      case Bytes(n) =>
        var k := if n < size - total then n else size - total;
        if k == 0 then Failed
        else if total + k > cap then Outside
        else Outcome(script[1..], size, cap, total + k, 0)
  {
  }

  function Agains(n: nat): (s: seq<Answer>)
    ensures |s| == n && forall i :: 0 <= i < n ==> s[i] == Again
  {
    seq(n, _ => Again)
  }

  /** For a frame that is not empty, fewer than 200 answers of Again in a row change nothing; 200 are the
      end. */
  lemma {:induction false} Retries(a: seq<Answer>, n: nat, c: seq<Answer>, size: nat, cap: nat, total: nat,
      retries: nat)
    requires 0 < size && total <= size
    requires (if a == [] then retries == 0 else a[|a| - 1] != Again) && (c != [] ==> c[0] != Again)
    ensures Outcome(a + Agains(n) + c, size, cap, total, retries)
         == if n < PATIENCE then Outcome(a + c, size, cap, total, retries) else Outcome(a, size, cap, total, retries)
    decreases |a|
  {
    if a == [] {
      assert [] + Agains(n) + c == Agains(n) + c && [] + c == c;
      RetriesFirst(n, c, size, cap, total, 0);
    } else if total < size {
      OutcomeStep(a + Agains(n) + c, size, cap, total, retries);
      OutcomeStep(a + c, size, cap, total, retries);
      OutcomeStep(a, size, cap, total, retries);
      hide *;
      HeadOf(a, Agains(n), c);
      match a[0]
      case Broken =>
      case Again =>
        assert |a| > 1;
        Retries(a[1..], n, c, size, cap, total, retries + 1);
      case Bytes(m) =>
        var k := if m < size - total then m else size - total;
        Retries(a[1..], n, c, size, cap, total + k, 0);
    }
  }

  lemma HeadOf(a: seq<Answer>, b: seq<Answer>, c: seq<Answer>)
    requires a != []
    ensures (a + b + c)[0] == a[0] == (a + c)[0] && (a + b + c)[1..] == a[1..] + b + c && (a + c)[1..] == a[1..] + c
  {
  }

  lemma {:induction false} RetriesFirst(n: nat, c: seq<Answer>, size: nat, cap: nat, total: nat, retries: nat)
    requires 0 < size && total <= size && retries < PATIENCE && (c != [] ==> c[0] != Again)
    ensures Outcome(Agains(n) + c, size, cap, total, retries)
         == if retries + n < PATIENCE then Outcome(c, size, cap, total, 0)
            else if 0 < total == size then Stored else Failed
    decreases n
  {
    if n == 0 {
      assert Agains(0) + c == c;
    } else if 0 < size && total < size {
      var all := Agains(n) + c;
      assert all[0] == Again && all[1..] == Agains(n - 1) + c;
      if retries + 1 < PATIENCE { RetriesFirst(n - 1, c, size, cap, total, retries + 1); }
    }
  }

  /** A peer that sends at least one byte for each call. */
  predicate Prompt(script: seq<Answer>, size: nat) {
    size <= |script| && forall a :: a in script ==> a.Bytes? && a.n > 0
  }

  lemma {:induction false} PromptOutcome(script: seq<Answer>, size: nat, cap: nat, total: nat)
    requires 0 < size && total <= size && total <= cap && Prompt(script, size - total)
    ensures Outcome(script, size, cap, total, 0) == if size <= cap then Stored else Outside
    decreases |script|
  {
    if 0 < size && total < size {
      var n := script[0].n;
      var k := if n < size - total then n else size - total;
      assert script[0] in script && forall a :: a in script[1..] ==> a in script;
      if total + k <= cap { PromptOutcome(script[1..], size, cap, total + k); }
    }
  }

  class Ring {
    const buf: array<Byte>
    var dataStart: nat
    var dataEnd: nat
    ghost var frames: seq<Text>          // received and pending
    ghost var received: seq<Text>        // every frame received so far
    ghost var departed: seq<Departure<Text>>

    ghost predicate Shape()
      reads this
    {
      0 < buf.Length && dataStart < buf.Length && dataEnd < buf.Length
    }

    /** The ring holds the pending frames, and every frame received has left or is pending. */
    ghost predicate Valid()
      reads this, buf
    {
      && Shape() && Holds(buf[..], dataStart, dataEnd, Concat(frames))
      && NoneEmpty(frames)
      && received == FramesOf(departed) + frames
    }

    /** ring_init. */
    constructor (size: nat)
      requires 0 < size
      ensures Valid() && fresh(buf) && buf.Length == size && received == frames == [] && dataStart == dataEnd == 0
    {
      buf := new Byte[size](_ => 0);
      dataStart, dataEnd, frames, received, departed := 0, 0, [], [], [];
    }

    /** ring_used_size. */
    function UsedSize(): (n: int)
      reads this
      requires Shape()
    {
      if dataEnd != 0 && dataEnd == dataStart then buf.Length - dataStart
      else (dataEnd - dataStart + buf.Length) % buf.Length
    }

    /** ring_free_size_ex: the room for a contiguous write at dataEnd. */
    function FreeSizeEx(): (n: int)
      reads this
      requires Shape()
    {
      if dataEnd != 0 && dataEnd == dataStart then 0
      else if dataStart > dataEnd then dataStart - dataEnd
      else buf.Length - dataEnd
    }

    /** ring_reset: every pending frame is discarded, whole. */
    method Reset()
      requires Valid()
      modifies this
      ensures Valid() && frames == [] && dataStart == dataEnd == 0 && received == old(received)
      ensures departed == old(departed) + AllDropped(old(frames))
    {
      dataEnd := 0;
      dataStart := 0;
      departed := departed + AllDropped(frames);
      frames := [];
    }

    /** The frames that stay when a frame of `size` bytes is received: none if it does not fit. */
    ghost function Kept(size: nat): seq<Text>
      reads this
      requires Shape()
    {
      if FreeSizeEx() < size then [] else frames
    }

    ghost predicate FillsUp(frame: Text)
      reads this
      requires Shape()
    {
      |Concat(Kept(|frame|))| + |frame| == buf.Length
    }

    /** The frame is neither empty nor longer than the ring. */
    predicate Fits(frame: Text) { 0 < |frame| <= buf.Length }

    /** Private_Protocol_RecvStreamToRingBuf, once the header has announced the frame: the ring is
        reset if there is no room for the frame, and the frame is received in pieces at dataEnd.  A
        receive that fills the ring exactly loses what is pending and the frame itself, and only a frame
        longer than the ring is written behind it. */
    method Receive(frame: Text, script: seq<Answer>) returns (r: Reception)
      requires Valid()
      modifies this, buf
      ensures r == Outcome(script, |frame|, buf.Length, 0, 0)
      ensures (r == Stored ==> Fits(frame)) && (r == Outside ==> |frame| > buf.Length) && (r == Empty ==> frame == [])
      ensures r != Outside ==> Valid()
      ensures received == old(received) + if r == Stored then [frame] else []
      ensures r != Stored ==> frames == old(Kept(|frame|))
      ensures dataStart == if old(FreeSizeEx()) < |frame| then 0 else old(dataStart)
      ensures r == Stored ==> frames == if old(FillsUp(frame)) then [] else old(Kept(|frame|)) + [frame]
      ensures departed == old(departed)
        + AllDropped(if old(FreeSizeEx()) < |frame| then old(frames) else [])
        + AllLost(if r == Stored && old(FillsUp(frame)) then old(Kept(|frame|)) + [frame] else [])
    {
      ghost var kept := Kept(|frame|);
      assert departed + [] + [] == departed && departed + [] == departed;
      if FreeSizeEx() < |frame| {
        Reset();
      }
      RoomEnough(|frame|);
      r := RecvAll(frame, script);
      if r == Stored {
        SetDataEnd(frame);
      }
    }

    /** A frame of `size` bytes has contiguous room at dataEnd. */
    ghost predicate Room(size: nat)
      reads this
    {
      && dataEnd + size <= buf.Length
      && (dataStart > dataEnd ==> size <= dataStart - dataEnd)
      && (dataStart == dataEnd ==> dataEnd == 0)
    }

    /** A write of `size` bytes at dataEnd would overwrite pending byte number `k`. */
    ghost predicate Overwrites(size: nat, k: nat)
      reads this
      requires Shape() && k < buf.Length
    {
      dataEnd <= Wrap(dataStart + k, buf.Length) < dataEnd + size
    }

    /** The free size is exactly the room for a contiguous write behind the pending bytes, except that a
        ring that has become empty anywhere but at its start counts as full. */
    lemma FreeSizeIsRoom(size: nat)
      requires Valid() && 0 < size
      ensures |Concat(frames)| < buf.Length
      ensures size <= FreeSizeEx() <==>
        && dataEnd + size <= buf.Length && !(dataStart == dataEnd != 0)
        && forall k: nat :: k < |Concat(frames)| ==> !Overwrites(size, k)
    {
      var n := |Concat(frames)|;
      hide Concat, NoneEmpty, FramesOf;
      assert dataEnd == Wrap(dataStart + n, buf.Length) && n < buf.Length;
      if dataStart > dataEnd && size > dataStart - dataEnd {
        assert n > 0 && Overwrites(size, 0);
      }
    }

    /** After the reset, if there was one, a frame that fits the ring has room. */
    lemma RoomEnough(size: nat)
      requires Valid() && (size <= FreeSizeEx() || (frames == [] && dataStart == dataEnd == 0))
      ensures 0 < size <= buf.Length ==> Room(size)
      ensures size > buf.Length ==> frames == [] && dataStart == dataEnd == 0
    {
    }

    /** The loop of recv calls, which answer as in `script`, and then no more. */
    method RecvAll(frame: Text, script: seq<Answer>) returns (r: Reception)
      requires Valid() && (Fits(frame) ==> Room(|frame|))
      requires |frame| > buf.Length ==> frames == [] && dataStart == dataEnd == 0
      modifies buf
      ensures r != Outside ==> Holds(buf[..], dataStart, dataEnd, Concat(frames))
      ensures r == Stored ==> Fits(frame) && Arrived(frame, |frame|)
      ensures (r == Outside ==> |frame| > buf.Length) && (r == Empty ==> frame == [])
      ensures r == Outcome(script, |frame|, buf.Length, 0, 0)
    {
      hide Concat, Holds, NoneEmpty, FramesOf, Arrived;
      if frame == [] {
        return if script != [] && script[0].Again? then Empty else Failed;
      }
      OutcomeFits(script, |frame|, buf.Length, 0, 0);
      var nTotal: nat, timeoutNum: nat, calls: nat := 0, 0, 0;
      NoneArrived(frame);
      r := Stored;
      assert script[0..] == script;
      while nTotal != |frame| && r == Stored
        invariant nTotal <= |frame| && dataEnd + nTotal <= buf.Length && calls <= |script|
        invariant Arrived(frame, nTotal)
        invariant forall i :: 0 <= i < buf.Length && !(dataEnd <= i < dataEnd + |frame|) ==> buf[i] == old(buf[i])
        invariant r == Stored ==>
          Outcome(script, |frame|, buf.Length, 0, 0)
          == Outcome(script[calls..], |frame|, buf.Length, nTotal, timeoutNum)
        invariant r != Stored ==> r == Failed == Outcome(script, |frame|, buf.Length, 0, 0)
        decreases r == Stored, |script| - calls
      {
        var nLeft := |frame| - nTotal;
        if calls == |script| || script[calls].Broken? {
          r := Failed;
        } else if script[calls].Again? {
          timeoutNum := timeoutNum + 1;
          if timeoutNum >= PATIENCE {
            r := Failed;
          }
        } else {
          var nRead := if script[calls].n < nLeft then script[calls].n else nLeft;
          if nRead == 0 {
            r := Failed;
          } else if dataEnd + nTotal + nRead > buf.Length {
            return Outside;
          } else {
            Piece(frame, nTotal, nRead);
            timeoutNum := 0;
            nTotal := nTotal + nRead;
          }
        }
        if r == Stored {
          assert script[calls..][1..] == script[calls + 1..];
          calls := calls + 1;
        }
      }
      if |frame| <= buf.Length {
        StillHeld(old(buf[..]), buf[..], dataStart, dataEnd, Concat(frames), |frame|);
      } else {
        NothingHeld();
      }
    }

    /** The first `n` bytes of the frame lie at dataEnd. */
    ghost predicate Arrived(frame: Text, n: nat)
      reads this`dataEnd, buf
    {
      dataEnd + n <= buf.Length && n <= |frame| && buf[dataEnd..dataEnd + n] == frame[..n]
    }

    method Piece(frame: Text, nTotal: nat, nRead: nat)
      requires nTotal + nRead <= |frame| && dataEnd + nTotal + nRead <= buf.Length && Arrived(frame, nTotal)
      modifies buf
      ensures Arrived(frame, nTotal + nRead)
      ensures forall i :: 0 <= i < buf.Length && !(dataEnd <= i < dataEnd + |frame|) ==> buf[i] == old(buf[i])
    {
      Store(buf, dataEnd + nTotal, frame[nTotal..nTotal + nRead]);
      assert frame[..nTotal + nRead] == frame[..nTotal] + frame[nTotal..nTotal + nRead];
    }

    lemma NoneArrived(frame: Text)
      requires Shape()
      ensures Arrived(frame, 0)
    {
    }

    lemma NothingHeld()
      requires Shape() && frames == [] && dataStart == dataEnd
      ensures Holds(buf[..], dataStart, dataEnd, Concat(frames))
    {
      EmptyHolds(buf[..], dataStart);
    }

    /** ring_set_data_end, and the account of the frame. */
    method SetDataEnd(frame: Text)
      requires Valid() && frame != [] && Room(|frame|)
      requires Arrived(frame, |frame|)
      modifies this`dataEnd, this`frames, this`received, this`departed
      ensures Valid() && received == old(received) + [frame]
      ensures var full := |Concat(old(frames))| + |frame| == buf.Length;
        && frames == (if full then [] else old(frames) + [frame])
        && departed == old(departed) + AllLost(if full then old(frames) + [frame] else [])
    {
      ghost var full := |Concat(frames)| + |frame| == buf.Length;
      ghost var after := if full then [] else frames + [frame];
      ghost var lost := AllLost(if full then frames + [frame] else []);
      Placed(buf[..], dataStart, dataEnd, frames, frame, after);
      Account(received, departed, frames, frame, full, after, lost);
      hide *;
      dataEnd := (dataEnd + |frame|) % buf.Length;
      received := received + [frame];
      departed := departed + lost;
      frames := after;
      IsValid();
    }

    lemma IsValid()
      requires Shape() && Holds(buf[..], dataStart, dataEnd, Concat(frames)) && NoneEmpty(frames)
      requires received == FramesOf(departed) + frames
      ensures Valid()
    {
    }

    /** ring_pop_n. */
    method PopN(n: nat, buffSize: nat) returns (ok: bool, out: Text)
      requires Valid()
      modifies this
      ensures Shape()
      ensures ok == (0 < n <= buffSize && n <= old(UsedSize()))
      ensures !ok ==> Valid() && frames == old(frames) && received == old(received) && departed == old(departed)
      ensures old(frames) != [] && n == |old(frames)[0]| <= buffSize ==>
        && ok && Valid() && out == old(frames)[0] && frames == old(frames)[1..]
        && received == old(received) && departed == old(departed) + [Delivered(out)]
    {
      UsedIsPending();
      out := [];
      if UsedSize() < n || n <= 0 || n > buffSize {
        return false, out;
      }
      out := Copy(n);
      ok := true;
      if frames != [] && n == |frames[0]| {
        NoneEmptyParts(frames, out);
        Popping(out);
        hide *;
        departed := departed + [Delivered(out)];
        frames := frames[1..];
      }
      dataStart := (dataStart + n) % buf.Length;
    }

    method Copy(n: nat) returns (out: Text)
      requires Shape()
      ensures |out| == n && forall k :: 0 <= k < n ==> out[k] == buf[(dataStart + k) % buf.Length]
    {
      out := [];
      var i := 0;
      while i < n
        invariant i <= n && |out| == i
        invariant forall k :: 0 <= k < i ==> out[k] == buf[(dataStart + k) % buf.Length]
      {
        out := out + [buf[(dataStart + i) % buf.Length]];
        i := i + 1;
      }
    }

    /** While something is pending, ring_used_size is the number of pending bytes. */
    lemma UsedIsPending()
      requires Valid()
      ensures frames != [] ==> UsedSize() == |Concat(frames)| && 0 < |frames[0]| <= |Concat(frames)|
    {
      if frames != [] {
        ConcatFront(frames);
        ModIsWrap(dataEnd - dataStart + buf.Length, buf.Length);
      }
    }

    /** The bytes popped are the first pending frame, and the rest stays. */
    lemma Popping(out: Text)
      requires Valid() && frames != [] && |out| == |frames[0]|
      requires forall k :: 0 <= k < |out| ==> out[k] == buf[(dataStart + k) % buf.Length]
      ensures out == frames[0]
      ensures Holds(buf[..], (dataStart + |out|) % buf.Length, dataEnd, Concat(frames[1..]))
      ensures received == FramesOf(departed + [Delivered(out)]) + frames[1..]
    {
      ConcatFront(frames);
      hide Concat;
      forall k | 0 <= k < |out| ensures out[k] == buf[..][Wrap(dataStart + k, buf.Length)] {
        ModIsWrap(dataStart + k, buf.Length);
      }
      FirstBytes(buf[..], dataStart, dataEnd, frames[0], Concat(frames[1..]), out);
      ModIsWrap(dataStart + |out|, buf.Length);
      PopKeeps(buf[..], dataStart, dataEnd, frames[0], Concat(frames[1..]));
      hide Holds;
      assert FramesOf(departed + [Delivered(out)]) == FramesOf(departed) + [out];
    }
  }

  /** What is pending on an empty ring lies nowhere. */
  lemma EmptyRing(ring: Ring)
    requires ring.Valid() && ring.frames == []
    ensures ring.dataEnd == ring.dataStart && ring.UsedSize() < ring.buf.Length
  {
    ModIs(ring.dataEnd - ring.dataStart + ring.buf.Length, ring.buf.Length, 1, 0);
  }

  lemma NothingKept(ring: Ring, frame: Text)
    requires ring.Valid() && ring.frames == []
    ensures ring.Kept(|frame|) == [] && (ring.FillsUp(frame) <==> |frame| == ring.buf.Length)
    ensures ring.Fits(frame) <==> 0 < |frame| <= ring.buf.Length
  {
  }

  /** The loop that receives a frame and pops it at once; the limit on the size of a pop is the size
      of the ring.  A frame that is stored comes out intact exactly when it is shorter than the ring;
      one as long as the ring does not come out at all, and of an empty one there is nothing to come.  The
      loop goes on until a frame is neither stored nor empty. */
  method Alternate(size: nat, frames: seq<Text>, scripts: seq<seq<Answer>>) returns (parsed: seq<Option<Text>>)
    requires 0 < size && |scripts| == |frames|
    ensures |parsed| <= |frames|
    ensures forall i :: 0 <= i < |parsed| ==>
      && Outcome(scripts[i], |frames[i]|, size, 0, 0) in {Stored, Empty}
      && parsed[i] == if 0 < |frames[i]| < size then Some(frames[i]) else None
    ensures |parsed| < |frames| ==> Outcome(scripts[|parsed|], |frames[|parsed|]|, size, 0, 0) in {Failed, Outside}
  {
    hide *;
    var ring := new Ring(size);
    parsed := [];
    var i := 0;
    while i < |frames|
      invariant |parsed| == i <= |frames| && fresh(ring) && fresh(ring.buf) && ring.buf.Length == size
      invariant ring.Valid() && ring.frames == []
      invariant forall k :: 0 <= k < i ==>
        && Outcome(scripts[k], |frames[k]|, size, 0, 0) in {Stored, Empty}
        && parsed[k] == if 0 < |frames[k]| < size then Some(frames[k]) else None
    {
      var received, out := ReceiveAndParse(ring, frames[i], scripts[i]);
      if received == Failed || received == Outside {
        return;                        // the connection is closed, or nothing is defined any more
      }
      parsed := parsed + [out];
      i := i + 1;
    }
  }

  /** One turn of the loop, on a ring with nothing pending. */
  method ReceiveAndParse(ring: Ring, frame: Text, script: seq<Answer>) returns (received: Reception, out: Option<Text>)
    requires ring.Valid() && ring.frames == []
    modifies ring, ring.buf
    ensures received == Outcome(script, |frame|, ring.buf.Length, 0, 0)
    ensures received == Stored || received == Empty ==>
      && ring.Valid() && ring.frames == []
      && |frame| <= ring.buf.Length && out == if 0 < |frame| < ring.buf.Length then Some(frame) else None
  {
    EmptyRing(ring);
    NothingKept(ring, frame);
    hide *;
    assert [] + [frame] == [frame];
    out := None;
    received := ring.Receive(frame, script);
    if received == Stored || received == Empty {
      out := ParseFrame(ring, frame);
    }
  }

  /** Pop what has just been received. */
  method ParseFrame(ring: Ring, frame: Text) returns (out: Option<Text>)
    requires ring.Valid() && |frame| <= ring.buf.Length
    requires ring.frames == if frame == [] || |frame| == ring.buf.Length then [] else [frame]
    modifies ring
    ensures ring.Valid() && ring.frames == [] && out == if 0 < |frame| < ring.buf.Length then Some(frame) else None
  {
    if |frame| == ring.buf.Length { EmptyRing(ring); }
    hide *;
    var ok, bytes := ring.PopN(|frame|, ring.buf.Length);
    out := if ok then Some(bytes) else None;
  }

  lemma FirstBytes(buf: Text, start: nat, end: nat, f: Text, rest: Text, out: Text)
    requires Holds(buf, start, end, f + rest) && |out| == |f|
    requires forall k :: 0 <= k < |out| ==> out[k] == buf[Wrap(start + k, |buf|)]
    ensures out == f
  {
    forall k | 0 <= k < |f| ensures out[k] == f[k] { assert (f + rest)[k] == f[k]; }
  }

  /** What the ring holds once dataEnd is behind the frame. */
  lemma Placed(buf: Text, start: nat, end: nat, frames: seq<Text>, f: Text, after: seq<Text>)
    requires Holds(buf, start, end, Concat(frames)) && f != [] && end < |buf|
    requires end + |f| <= |buf| && buf[end..end + |f|] == f
    requires start > end ==> |f| <= start - end
    requires start == end ==> end == 0
    requires after == if |Concat(frames)| + |f| == |buf| then [] else frames + [f]
    ensures Holds(buf, start, (end + |f|) % |buf|, Concat(after)) && (end + |f|) % |buf| < |buf|
  {
    hide Concat;
    var n := |buf|;
    assert start < n;
    WriteKeeps(buf, buf, start, end, Concat(frames), f);
    ConcatBack(frames, f);
    ModIsWrap(end + |f|, n);
    EmptyHolds(buf, start);
    hide *;
  }

  lemma Account(received: seq<Text>, departed: seq<Departure<Text>>, frames: seq<Text>, f: Text, full: bool,
                after: seq<Text>, lost: seq<Departure<Text>>)
    requires received == FramesOf(departed) + frames && NoneEmpty(frames) && f != []
    requires after == (if full then [] else frames + [f])
    requires lost == AllLost(if full then frames + [f] else [])
    ensures received + [f] == FramesOf(departed + lost) + after && NoneEmpty(after)
  {
  }

  lemma EmptyHolds(buf: Text, start: nat)
    requires start < |buf|
    ensures Holds(buf, start, start, Concat([]))
  {
  }

  lemma StillHeld(buf: Text, buf': Text, start: nat, end: nat, data: Text, n: nat)
    requires Holds(buf, start, end, data) && |buf'| == |buf| && end + n <= |buf|
    requires start > end ==> n <= start - end
    requires start == end ==> end == 0
    requires forall i :: 0 <= i < |buf| && !(end <= i < end + n) ==> buf'[i] == buf[i]
    ensures Holds(buf', start, end, data)
  {
  }
}
