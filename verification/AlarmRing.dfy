/** The alarm ring: one writer that overwrites the oldest alarm, and readers with their own
    cursors, which read the write position twice without the writer's lock. */
module AlarmRing {

  import opened Modulo

  // ------------------------------------------------- positions on the ring

  /** The place of alarm number `k` on a ring of `n`. */
  function Place(k: nat, n: nat): (p: nat)
    requires n > 0
    ensures p < n
  {
    k % n
  }

  lemma FirstPlace(n: nat)
    requires n > 0
    ensures Place(0, n) == 0
  {
  }

  /** The test of the reader for positions in cyclic order. */
  predicate InOrder(readBegin: int, readEnd: int, writePos: int) {
    || (readBegin <= readEnd && readEnd <= writePos)
    || (readEnd <= writePos && writePos <= readBegin)
    || (writePos <= readBegin && readBegin <= readEnd)
  }

  /** For a reader at most one ring behind, the test holds, and "all three equal" means that
      nothing is left or that a whole ring has arrived since the reader had caught up. */
  lemma PositionsTell(r: nat, e: nat, w: nat, n: nat)
    requires n > 0 && r <= e <= w <= r + n && e < r + n
    ensures InOrder(Place(r, n), Place(e, n), Place(w, n))
    ensures (Place(r, n) == Place(e, n) == Place(w, n)) == (r == e && (w == r || w == r + n))
  {
    Ahead(r, e - r, n);
    Ahead(r, w - r, n);
  }

  /** Whole rings do not matter to a place. */
  lemma WholeRings(r: nat, q: nat, m: nat, n: nat)
    requires n > 0
    ensures Place(r + q * n + m, n) == Place(r + m, n)
  {
    var p := (r + m) / n;
    assert r + m == p * n + (r + m) % n && (p + q) * n == p * n + q * n;
    ModIs(r + q * n + m, n, p + q, (r + m) % n);
  }

  /** The test fails exactly when the writer is between the two cursors, on whatever lap. */
  lemma InOrderMeans(r: nat, e: nat, w: nat, n: nat)
    requires n > 0 && r <= e < r + n && e <= w
    ensures InOrder(Place(r, n), Place(e, n), Place(w, n)) <==> !(0 < Place(w - r, n) < e - r)
  {
    Division(w - r, n);
    hide Place;
    var q, m := (w - r) / n, Place(w - r, n);
    assert r + q * n + m == w;
    WholeRings(r, q, m, n);
    Apart(r, e - r, n);
    Apart(r, m, n);
  }

  lemma Division(d: nat, n: nat)
    requires n > 0
    ensures d / n * n + Place(d, n) == d && d / n >= 0
  {
  }

  lemma Apart(a: nat, d: nat, n: nat)
    requires 0 <= d < n
    ensures Place(a + d, n) == if Place(a, n) + d < n then Place(a, n) + d else Place(a, n) + d - n
  {
    Ahead(a, d, n);
  }

  /** The newest of `w` alarms at the place of alarm `r`. */
  function Newest(r: nat, w: nat, n: nat): (i: int)
    requires n > 0 && r < w
  {
    w - 1 - Place(w - 1 - r, n)
  }

  lemma NewestMeans(r: nat, w: nat, n: nat)
    requires n > 0 && r < w
    ensures var i := Newest(r, w, n); r <= i < w <= i + n && Place(i, n) == Place(r, n) && (i == r <==> w <= r + n)
  {
    var d := w - 1 - r;
    var q, m := d / n, d % n;
    assert r + q * n + 0 == w - 1 - m;
    WholeRings(r, q, 0, n);
    if q > 0 {
      AtLeastOne(q, n);
    }
  }

  // ------------------------------------------------- the queue

  class AlarmQueue<T> {
    const size: nat           // MAX_ALARM_QUEUE_NUM
    const info: array<T>
    var writePos: nat
    ghost var alarms: seq<T>  // every alarm inserted so far

    /** The ring holds the last alarms, each at its number modulo the size. */
    ghost predicate Valid()
      reads this, info
    {
      && size > 0 && info.Length == size
      && writePos == Place(|alarms|, size)
      && (forall i: nat :: i < |alarms| <= i + size ==> info[Place(i, size)] == alarms[i])
    }

    constructor (size: nat, zero: T)
      requires size > 0
      ensures Valid() && fresh(info) && alarms == [] && this.size == size
    {
      this.size := size;
      info := new T[size](_ => zero);
      writePos, alarms := 0, [];
    }

    /** streamInsertAlarmToAlarmQueue. */
    method Insert(alarm: T)
      requires Valid()
      modifies this, info
      ensures Valid() && alarms == old(alarms) + [alarm]
    {
      var w := |alarms|;
      forall i: nat | i < w < i + size ensures Place(i, size) != Place(w, size) {
        Ahead(i, w - i, size);
      }
      Ahead(w, 1, size);
      NextIs(writePos, size);
      info[writePos] := alarm;
      alarms := alarms + [alarm];
      writePos := (writePos + 1) % size;
    }
  }

  // ------------------------------------------------- a reader

  class Reader<T> {
    var readBegin: int
    var readEnd: int
    var received: seq<T>      // the alarms handed to the caller, in order
    var lost: bool            // the branch "lost alarm" has been taken
    ghost var joined: bool
    ghost var seen: nat       // how many alarms there were when the read end was last set

    /** The alarms received are the first of those written, and the cursors say how many. */
    ghost predicate InStep(q: AlarmQueue<T>)
      reads this, q
    {
      && q.size > 0 && |received| <= |q.alarms| && received == q.alarms[..|received|] && !lost
      && if joined then
           && readBegin == Place(|received|, q.size) && readEnd == Place(seen, q.size)
           && |received| <= seen <= |q.alarms| && seen < |received| + q.size
         else readBegin == readEnd == -1 && received == []
    }

    constructor ()
      ensures readBegin == readEnd == -1 && received == [] && !lost && !joined
    {
      readBegin, readEnd, received, lost, joined, seen := -1, -1, [], false, false, 0;
    }

    /** How many alarms have been written that the reader has not received. */
    ghost function Backlog(q: AlarmQueue<T>): int
      reads this, q
    {
      |q.alarms| - |received|
    }

    /** The cursors before joining, or positions on the ring. */
    predicate Cursors(size: nat)
      reads this`readBegin, this`readEnd
    {
      || readBegin == readEnd == -1
      || (0 <= readBegin < size && 0 <= readEnd < size)
    }

    /** At most a ring behind, counting what is arriving. */
    ghost predicate KeepsUp(q: AlarmQueue<T>, arriving: seq<T>)
      reads this, q
    {
      InStep(q) && Backlog(q) + |arriving| <= q.size
    }

    /** The reader has exactly a full ring to read, and had caught up at its last read. */
    ghost predicate LooksEmpty(q: AlarmQueue<T>)
      reads this, q
    {
      Backlog(q) == q.size && seen == |received|
    }

    /** streamGetAlarmFromNetPool; `arriving` is what the writer inserts between the two looks at
        the write position.  The first call only joins, at position 0.  A reader that is not
        more than a ring behind gets the next alarm, except when exactly a ring has arrived
        since it had caught up, which it takes for an empty ring. */
    method Get(q: AlarmQueue<T>, arriving: seq<T>) returns (ok: bool)
      requires q.Valid() && Cursors(q.size)
      modifies this, q, q.info
      ensures q.Valid() && Cursors(q.size)
      ensures q.alarms == old(q.alarms) + if old(readBegin == readEnd == q.writePos) then [] else arriving
      ensures |received| == |old(received)| + if ok then 1 else 0
      ensures old(KeepsUp(q, arriving)) ==>
        && InStep(q) && joined
        && ok == old(joined && 0 < Backlog(q) && !LooksEmpty(q))
        && q.alarms == old(q.alarms) + (if old(joined) && !ok then [] else arriving)
        && received == old(received) + (if ok then [q.alarms[|old(received)|]] else [])
        && seen == if ok then |q.alarms| else if old(joined) then old(seen) else 0
    {
      hide Place, InOrder;
      FirstPlace(q.size);
      ghost var keepsUp := KeepsUp(q, arriving);
      if keepsUp && joined {
        PositionsTell(|received|, seen, |q.alarms|, q.size);
      }
      if readBegin == readEnd == q.writePos {
        return false;
      }
      InsertAll(q, arriving);
      if readBegin == -1 && readEnd == -1 {
        readBegin, readEnd := 0, 0;
        joined, seen := true, 0;
        return false;
      }
      ok := Take(q);
    }

    /** The part of the call behind the second look at the write position. */
    method Take(q: AlarmQueue<T>) returns (ok: bool)
      requires q.Valid() && Cursors(q.size) && readBegin >= 0
      modifies this
      ensures Cursors(q.size)
      ensures ok == old(InOrder(readBegin, readEnd, q.writePos))
      ensures received == old(received) + (if ok then [q.info[old(readBegin)]] else []) && lost == (old(lost) || !ok)
      ensures readEnd == q.writePos && readBegin == (old(readBegin) + if ok then 1 else 10) % q.size
      ensures old(InStep(q) && |received| < |q.alarms| <= |received| + q.size) ==>
        && ok && InStep(q) && joined && seen == |q.alarms|
        && received == old(received) + [q.alarms[|old(received)|]]
    {
      ghost var inStep := InStep(q) && |received| < |q.alarms| <= |received| + q.size;
      if inStep {
        PositionsTell(|received|, seen, |q.alarms|, q.size);
        Ahead(|received|, 1, q.size);
      }
      NextIs(readBegin, q.size);
      var writePos := q.writePos;
      if InOrder(readBegin, readEnd, writePos) {
        readEnd := writePos;
        received := received + [q.info[readBegin]];
        readBegin := (readBegin + 1) % q.size;
        seen := |q.alarms|;
        ok := true;
      } else {
        readEnd := writePos;
        readBegin := (readBegin + 10) % q.size;
        lost := true;
        ok := false;
      }
    }
  }

  /** A reader whose cursors stand at the alarms `r` and `e`, behind by any number of rings, is told that
      alarms are lost exactly if the writer has stopped between its cursors; otherwise it is given the
      newest alarm at its place, which is alarm `r` only while it is at most a ring behind. */
  lemma Overtaken<T>(q: AlarmQueue<T>, r: nat, e: nat)
    requires q.Valid() && r <= e < r + q.size && e <= |q.alarms| && r < |q.alarms|
    ensures !InOrder(Place(r, q.size), Place(e, q.size), q.writePos) <==> 0 < Place(|q.alarms| - r, q.size) < e - r
    ensures var i := Newest(r, |q.alarms|, q.size);
      r <= i < |q.alarms| && q.info[Place(r, q.size)] == q.alarms[i] && (i == r <==> |q.alarms| <= r + q.size)
  {
    hide Newest, InOrder, Place;
    InOrderMeans(r, e, |q.alarms|, q.size);
    NewestMeans(r, |q.alarms|, q.size);
  }

  method InsertAll<T>(q: AlarmQueue<T>, arriving: seq<T>)
    requires q.Valid()
    modifies q, q.info
    ensures q.Valid() && q.alarms == old(q.alarms) + arriving
  {
    var i := 0;
    assert arriving[..0] == [];
    while i < |arriving|
      invariant i <= |arriving| && q.Valid() && q.alarms == old(q.alarms) + arriving[..i]
    {
      q.Insert(arriving[i]);
      assert arriving[..i + 1] == arriving[..i] + [arriving[i]];
      i := i + 1;
    }
    assert arriving[..i] == arriving;
  }

  // ------------------------------------------------- whole runs

  datatype Event<T> = Write(alarm: T) | Read(arriving: seq<T>)

  /** What a run amounts to: the alarms written, how many of them the reader has been given, how many
      there were when it last looked, and whether more than a ring was waiting at some read. */
  datatype Tally<T> = Tally(alarms: seq<T>, joined: bool, given: nat, seen: nat, behind: bool)

  ghost function Waiting<T>(t: Tally<T>): int { |t.alarms| - t.given }

  /** A ring has arrived since the reader had caught up. */
  ghost predicate TakenForEmpty<T>(t: Tally<T>, size: nat) { Waiting(t) == size && t.seen == t.given }

  /** A read joins first; after that it gives the next alarm if one is waiting, and returns before
      anything can arrive if none is, or if it takes the ring for empty. */
  ghost function Counting<T>(t: Tally<T>, e: Event<T>, size: nat): Tally<T> {
    match e
    case Write(alarm) => t.(alarms := t.alarms + [alarm])
    case Read(arriving) =>
      if t.behind || Waiting(t) + |arriving| > size then t.(behind := true)
      else if !t.joined then t.(alarms := t.alarms + arriving, joined := true, seen := 0)
      else if Waiting(t) == 0 || TakenForEmpty(t, size) then t
      else t.(alarms := t.alarms + arriving, given := t.given + 1, seen := |t.alarms + arriving|)
  }

  ghost function Total<T>(script: seq<Event<T>>, size: nat): Tally<T> {
    if script == [] then Tally([], false, 0, 0, false)
    else Counting(Total(script[..|script| - 1], size), script[|script| - 1], size)
  }

  /** One event more. */
  lemma OneMore<T>(script: seq<Event<T>>, more: seq<Event<T>>, e: Event<T>, size: nat)
    ensures script + (more + [e]) == script + more + [e]
    ensures Total(script + more + [e], size) == Counting(Total(script + more, size), e, size)
  {
    assert (script + more + [e])[..|script + more|] == script + more;
  }

  /** A reader that is not behind is where the tally says. */
  ghost predicate Matches<T>(q: AlarmQueue<T>, reader: Reader<T>, t: Tally<T>)
    reads q, reader
  {
    && reader.InStep(q) && q.alarms == t.alarms && reader.joined == t.joined
    && |reader.received| == t.given && (t.joined ==> reader.seen == t.seen)
  }

  /** Any run of the writer and one reader on a new ring: unless more than a ring is waiting at some
      read, the reader never takes the "lost alarm" branch, and has received as many alarms as the
      tally gives, the first ones written, in order and each once. */
  method Run<T>(size: nat, zero: T, script: seq<Event<T>>) returns (q: AlarmQueue<T>, reader: Reader<T>)
    requires size > 0
    ensures q.Valid() && q.size == size
    ensures var t := Total(script, size);
      !t.behind ==>
        && q.alarms == t.alarms && |reader.received| == t.given <= |q.alarms|
        && reader.received == q.alarms[..t.given] && !reader.lost
  {
    q := new AlarmQueue(size, zero);
    reader := new Reader();
    var i := 0;
    hide Total, Counting, Matches, AlarmQueue.Valid, Reader.InStep, Reader.Cursors;
    NothingYet(q, reader, script);
    while i < |script|
      invariant i <= |script| && q.Valid() && q.size == size && reader.Cursors(size)
      invariant fresh(q) && fresh(q.info) && fresh(reader)
      invariant !Total(script[..i], size).behind ==> Matches(q, reader, Total(script[..i], size))
    {
      NextEvent(script, i, size);
      Play(q, reader, script[i], Total(script[..i], size));
      i := i + 1;
    }
    assert script[..i] == script;
    Matched(q, reader, Total(script, size));
  }

  /** One event of a run. */
  method Play<T>(q: AlarmQueue<T>, reader: Reader<T>, e: Event<T>, ghost t: Tally<T>)
    requires q.Valid() && reader.Cursors(q.size) && (!t.behind ==> Matches(q, reader, t))
    modifies q, q.info, reader
    ensures q.Valid() && reader.Cursors(q.size)
    ensures !Counting(t, e, q.size).behind ==> Matches(q, reader, Counting(t, e, q.size))
  {
    match e {
      case Write(alarm) =>
        hide AlarmQueue.Valid;
        q.Insert(alarm);
      case Read(arriving) =>
        hide AlarmQueue.Valid, Reader.Cursors, Reader.InStep;
        var _ := reader.Get(q, arriving);
    }
  }

  lemma NothingYet<T>(q: AlarmQueue<T>, reader: Reader<T>, script: seq<Event<T>>)
    requires q.size > 0 && q.alarms == [] && reader.readBegin == reader.readEnd == -1
    requires reader.received == [] && !reader.lost && !reader.joined
    ensures reader.Cursors(q.size) && script[..0] == [] && Matches(q, reader, Total(script[..0], q.size))
  {
  }

  lemma NextEvent<T>(script: seq<Event<T>>, i: nat, size: nat)
    requires i < |script|
    ensures Total(script[..i + 1], size) == Counting(Total(script[..i], size), script[i], size)
    ensures Counting(Total(script[..i], size), script[i], size).behind || !Total(script[..i], size).behind
  {
    assert script[..i + 1][..i] == script[..i];
  }

  lemma Matched<T>(q: AlarmQueue<T>, reader: Reader<T>, t: Tally<T>)
    ensures Matches(q, reader, t) ==>
      && q.alarms == t.alarms && |reader.received| == t.given <= |q.alarms|
      && reader.received == q.alarms[..t.given] && !reader.lost
  {
  }

  /** Reads that find nothing arriving. */
  function Reads<T>(n: nat): (es: seq<Event<T>>)
    ensures |es| == n
  {
    if n == 0 then [] else Reads(n - 1) + [Read([])]
  }

  function Writes<T>(alarms: seq<T>): (es: seq<Event<T>>)
    ensures |es| == |alarms|
  {
    if alarms == [] then [] else Writes(alarms[..|alarms| - 1]) + [Write(alarms[|alarms| - 1])]
  }

  /** Nothing is left behind: a reader that has joined, is not behind and does not take the ring for
      empty is given every alarm that is waiting by that many reads. */
  lemma {:induction false} ReadsCatchUp<T>(script: seq<Event<T>>, size: nat, n: nat)
    requires size > 0
    requires var t := Total(script, size);
      t.joined && !t.behind && n <= Waiting(t) <= size && !TakenForEmpty(t, size)
    ensures var t, t' := Total(script, size), Total(script + Reads(n), size);
      t' == t.(given := t.given + n, seen := if n == 0 then t.seen else |t.alarms|)
  {
    assert Reads<T>(n) == if n == 0 then [] else Reads(n - 1) + [Read([])];
    hide Total, Reads, Counting;
    if n == 0 {
      assert script + [] == script;
    } else {
      ReadsCatchUp(script, size, n - 1);
      OneMore(script, Reads(n - 1), Read([]), size);
      OneRead(Total(script + Reads(n - 1), size), size);
    }
  }

  lemma OneRead<T>(t: Tally<T>, size: nat)
    requires t.joined && !t.behind && 0 < Waiting(t) <= size && !TakenForEmpty(t, size)
    ensures Counting(t, Read([]), size) == t.(given := t.given + 1, seen := |t.alarms|)
  {
    assert t.alarms + [] == t.alarms;
  }

  lemma {:induction false} OnlyWrites<T>(script: seq<Event<T>>, size: nat, alarms: seq<T>)
    ensures Total(script + Writes(alarms), size) == Total(script, size).(alarms := Total(script, size).alarms + alarms)
  {
    if alarms == [] {
      assert script + Writes(alarms) == script;
    } else {
      var n := |alarms| - 1;
      OnlyWrites(script, size, alarms[..n]);
      OneMore(script, Writes(alarms[..n]), Write(alarms[n]), size);
      assert alarms == alarms[..n] + [alarms[n]];
      hide Total;
      assert Total(script, size).alarms + alarms == Total(script, size).alarms + alarms[..n] + [alarms[n]];
    }
  }

  /** The exception is real, for a ring of any size: a reader that has joined an empty ring and finds
      exactly a ring of alarms gets none of them in any number of reads, and is behind by the first
      read after one more is written. */
  lemma {:induction false} FullRingLooksEmpty<T>(alarms: seq<T>, n: nat, last: T)
    requires |alarms| > 0
    ensures var found := [Read([])] + Writes(alarms);
      && Total(found + Reads(n), |alarms|) == Tally(alarms, true, 0, 0, false)
      && Total(found + Reads(n) + [Write(last)] + [Read([])], |alarms|).behind
  {
    var size, found := |alarms|, [Read([])] + Writes(alarms);
    if n == 0 {
      RingFound(alarms);
      assert found + Reads(0) == found;
    } else {
      FullRingLooksEmpty(alarms, n - 1, last);
      OneMore(found, Reads(n - 1), Read([]), size);
      assert Reads<T>(n) == Reads(n - 1) + [Read([])];
    }
    hide Total, Reads, Writes;
    OneMoreIsTooMany(found + Reads(n), alarms, last);
  }

  lemma OneMoreIsTooMany<T>(script: seq<Event<T>>, alarms: seq<T>, last: T)
    requires Total(script, |alarms|) == Tally(alarms, true, 0, 0, false)
    ensures Total(script + [Write(last)] + [Read([])], |alarms|).behind
  {
    var s := script + [Write(last)];
    assert s[..|script|] == script && (s + [Read([])])[..|s|] == s;
  }

  lemma RingFound<T>(alarms: seq<T>)
    requires |alarms| > 0
    ensures Total([Read([])] + Writes(alarms), |alarms|) == Tally(alarms, true, 0, 0, false)
  {
    var joins: seq<Event<T>> := [Read([])];
    assert joins[..0] == [] && Total(joins, |alarms|) == Tally([], true, 0, 0, false);
    OnlyWrites(joins, |alarms|, alarms);
    assert [] + alarms == alarms;
    hide Total;
  }
}
