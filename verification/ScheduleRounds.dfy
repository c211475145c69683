/** One pass over the ready list, one over the blocked list, and an iteration of the loop; what holds
    at every select, and two runs in which the source does not do what is wanted. */
module ScheduleRounds {
  import opened Handlers
  import opened Schedule
  import opened ScheduleSteps

  // One turn of the scheduler.

  /** The state in the walk over the ready list, with `rest` still to be dispatched. */
  ghost predicate Walking(m: State, serverFd: int, rest: seq<Request>) {
    Sound(m, serverFd) && AllWatched(m) && FiledBut(m, rest)
  }

  /** The requests on `s` have been dispatched once more, and no others. */
  ghost predicate Counted(m: State, m': State, s: seq<Request>) {
    forall r :: r in m.handled ==> r in m'.handled && m'.handled[r] == m.handled[r] + if r in s then 1 else 0
  }

  /** The live requests that are not on `s` are where they were, for the same reason, and no bit is
      left behind by a time-out. */
  ghost predicate Spares(m: State, m': State, s: seq<Request>) {
    && m'.strays == m.strays
    && (forall r :: r in m.ready && r !in s ==> SameFile(m, m', r))
    && (forall r :: r in m.blocked && r !in s ==> SameFile(m, m', r))
  }

  lemma SparesOn(m: State, m1: State, m': State, s: seq<Request>)
    requires Spares(m, m1, s) && Spares(m1, m', s)
    ensures Spares(m, m', s)
  {
    forall r | (r in m.ready || r in m.blocked) && r !in s ensures SameFile(m, m', r) {
      assert SameFile(m, m1, r);
      assert SameFile(m1, m', r);
    }
  }

  lemma CountedOn(m: State, m1: State, m': State, s: seq<Request>, t: seq<Request>)
    requires Counted(m, m1, s) && Counted(m1, m', t) && forall r :: r in s ==> r !in t
    ensures Counted(m, m', s + t)
  {
  }

  lemma DispatchingSpares(m: State, r: Request, c: Control, open: set<int>, retval: int)
    requires Lists(m) && r in m.ready && r in m.ctl && r in m.handled
    ensures var m' := Dispatching(m, r, c, open, retval); Counted(m, m', [r]) && Spares(m, m', [r])
  {
    hide Distinct, LastOf;
  }

  lemma PuttingSpares(m: State, r: Request, c: Control)
    requires Lists(m) && r in m.ready
    ensures Counted(m, Putting(m, r, c), []) && Spares(m, Putting(m, r, c), [r])
  {
    hide Distinct;
  }

  lemma AdmittingSpares(m: State, r: Request, fd: int, kaMax: int)
    requires Lists(m) && Available(m, r)
    ensures Counted(m, Admitting(m, r, fd, kaMax), []) && Spares(m, Admitting(m, r, fd, kaMax), [])
  {
    hide Distinct;
  }

  lemma BlockingSpares(m: State, r: Request, front: seq<Request>, tail: seq<Request>)
    requires Lists(m) && m.ready == front + [r] + tail && r in m.ctl
    ensures var m' := Blocking(m, r, front, tail); Counted(m, m', []) && Spares(m, m', [r])
  {
    hide Distinct, WaitOf;
  }

  lemma ClosingSpares(m: State, r: Request, front: seq<Request>, tail: seq<Request>)
    requires Lists(m) && m.ready == front + [r] + tail && r in m.ctl
    ensures var m' := Closing(Detaching(m, r, front, tail), r); Counted(m, m', []) && Spares(m, m', [r])
  {
    hide Distinct;
  }

  lemma KeepingSpares(m: State, r: Request, front: seq<Request>, tail: seq<Request>, conn: Request)
    requires Lists(m) && m.ready == front + [r] + tail && r in m.ctl && Available(m, conn)
    ensures var m' := Keeping(Detaching(m, r, front, tail), r, conn); Counted(m, m', []) && Spares(m, m', [r])
  {
    hide Distinct, Renewed;
  }

  lemma FreeingSpares(m: State, r: Request, front: seq<Request>, tail: seq<Request>, conn: Request?)
    requires Lists(m) && m.ready == front + [r] + tail && r in m.ctl
    requires conn == null || (!StillSending(m.ctl[r]) && Available(m, conn))
    ensures var m' := Freeing(m, r, front, tail, conn); Counted(m, m', []) && Spares(m, m', [r])
  {
    assert m.ready[|front|] == r;
    hide Lists, Counted, Spares, Available, StillSending, Detaching, Keeping, Closing, Putting;
    if StillSending(m.ctl[r]) {
      PuttingSpares(m, r, m.ctl[r].(status := Done));
    } else if conn == null {
      ClosingSpares(m, r, front, tail);
    } else {
      KeepingSpares(m, r, front, tail, conn);
    }
  }

  /** The switch on the result of a dispatch. */
  function Filing(m: State, r: Request, front: seq<Request>, tail: seq<Request>, retval: int, conn: Request?): State
    requires r in m.ctl
  {
    if retval == -1 then Blocking(m, r, front, tail)
    else if retval == 0 then Freeing(m, r, front, tail, conn)
    else m
  }

  lemma FilingKeeps(m: State, r: Request, front: seq<Request>, tail: seq<Request>, retval: int, conn: Request?,
                    serverFd: int, before: Control)
    requires Walking(m, serverFd, [r] + tail) && m.ready == front + [r] + tail
    requires r in m.ctl && r in m.last && m.last[r] == LastOf(retval, before)
    requires retval == -1 ==> Explained(m.ctl[r], m.last[r])
    requires conn == null || (retval == 0 && !StillSending(m.ctl[r]) && KeepsAlive(m.ctl[r]) && Available(m, conn))
    ensures var m' := Filing(m, r, front, tail, retval, conn);
      Walking(m', serverFd, tail) && Counted(m, m', []) && Spares(m, m', [r])
  {
    hide Sound, AllWatched, FiledBut, Counted, Spares, StillSending, KeepsAlive, Available, Explained, Blocking,
         Freeing;
    hide EagainSource;
    SoundMeans(m, serverFd);
    if retval == -1 {
      BlockingKeeps(m, r, front, tail, serverFd);
      BlockingSpares(m, r, front, tail);
    } else if retval == 0 {
      FreeingKeeps(m, r, front, tail, conn, serverFd);
      FreeingSpares(m, r, front, tail, conn);
    } else {
      assert m.ready[|front|] == r;
      assert Filed(m, r);
      FiledToo(m, r, tail);
      NothingSpared(m, [r]);
    }
  }

  lemma NothingSpared(m: State, s: seq<Request>)
    requires Lists(m)
    ensures Counted(m, m, []) && Spares(m, m, s)
  {
    hide Distinct;
  }

  /** Only the bits and the globals beside the requests differ. */
  ghost predicate SameRequests(m: State, m': State) {
    && m'.ready == m.ready && m'.blocked == m.blocked && m'.free == m.free
    && m'.ctl == m.ctl && m'.last == m.last && m'.handled == m.handled && m'.total == m.total && m'.open == m.open
  }

  lemma SameRequestsKeep(m: State, m': State, serverFd: int, rest: seq<Request>)
    requires Sound(m, serverFd) && FiledBut(m, rest) && SameRequests(m, m') && BitsAccounted(m', serverFd)
    ensures Sound(m', serverFd) && FiledBut(m', rest) && Counted(m, m', [])
    ensures m'.strays == m.strays ==> Spares(m, m', [])
  {
    SoundMeans(m, serverFd);
    SameListsKeep(m, m');
    SameFiles(m, m', rest);
    hide Sound, Lists, View, Descriptors, FiledBut, Counted, Spares, BitsAccounted, Explained;
    IsSound(m', serverFd);
  }

  lemma SameFiles(m: State, m': State, rest: seq<Request>)
    requires Lists(m) && FiledBut(m, rest) && SameRequests(m, m')
    ensures FiledBut(m', rest) && Counted(m, m', []) && (m'.strays == m.strays ==> Spares(m, m', []))
  {
    hide Distinct, WaitOf;
    forall q | q in m'.ctl && q !in rest ensures Filed(m', q) { assert Filed(m, q); }
  }

  lemma WalkingMeans(m: State, serverFd: int, rest: seq<Request>)
    requires Walking(m, serverFd, rest)
    ensures Sound(m, serverFd) && AllWatched(m) && FiledBut(m, rest) && Lists(m)
  {
  }

  lemma IsWalking(m: State, serverFd: int, rest: seq<Request>)
    requires Sound(m, serverFd) && AllWatched(m) && FiledBut(m, rest)
    ensures Walking(m, serverFd, rest)
  {
  }

  /** The current request of the walk. */
  lemma Current(m: State, serverFd: int, r: Request, front: seq<Request>, tail: seq<Request>)
    requires Walking(m, serverFd, [r] + tail) && m.ready == front + [r] + tail
    ensures Sound(m, serverFd) && r in m.ready && r in m.ctl && r in m.last && r in m.handled && r !in m.blocked
    ensures GoodControl(m.ctl[r], m.open, serverFd) && {0, 1, 2, serverFd} <= m.open
  {
    assert m.ready[|front|] == r;
    Live(m, r, serverFd);
    hide Distinct, GoodControl;
  }

  /** What a dispatch leaves of the current request, for the switch on its result. */
  ghost predicate Stands(m: State, r: Request, retval: int, before: Control) {
    && r in m.ctl && r in m.last && m.last[r] == LastOf(retval, before)
    && (retval == -1 ==> Explained(m.ctl[r], m.last[r]))
    && (MustEnd(before) ==> retval == 0 && m.ctl[r].bufferEnd == 0)
  }

  lemma TurnDispatched(m: State, r: Request, c: Control, open: set<int>, retval: int, serverFd: int,
                       front: seq<Request>, tail: seq<Request>)
    requires Walking(m, serverFd, [r] + tail) && m.ready == front + [r] + tail && r in m.ctl && r in m.handled
    requires Dispatched(m.ctl[r], c, m.open, open, serverFd, retval)
    requires MustEnd(m.ctl[r]) ==> retval == 0 && c.bufferEnd == 0
    ensures var m' := Dispatching(m, r, c, open, retval);
      && Walking(m', serverFd, [r] + tail) && m'.ready == front + [r] + tail && Stands(m', r, retval, m.ctl[r])
      && Counted(m, m', [r]) && Spares(m, m', [r])
  {
    Current(m, serverFd, r, front, tail);
    SoundMeans(m, serverFd);
    hide Sound, AllWatched, FiledBut, Counted, Spares, Lists, GoodControl, EagainSource, Explained;
    DispatchingKeeps(m, r, c, open, retval, serverFd, [r] + tail);
    DispatchingSpares(m, r, c, open, retval);
  }

  lemma TurnSquashed(m: State, r: Request, retval: int, before: Control, serverFd: int, front: seq<Request>,
                     tail: seq<Request>)
    requires Walking(m, serverFd, [r] + tail) && m.ready == front + [r] + tail && Stands(m, r, retval, before)
    ensures var m' := Putting(m, r, m.ctl[r].(keepalive := KaStopped));
      && Walking(m', serverFd, [r] + tail) && m'.ready == front + [r] + tail && Stands(m', r, retval, before)
      && Counted(m, m', []) && Spares(m, m', [r])
  {
    Current(m, serverFd, r, front, tail);
    SoundMeans(m, serverFd);
    hide Sound, AllWatched, FiledBut, Counted, Spares, Lists, GoodControl, EagainSource;
    PuttingKeeps(m, r, m.ctl[r].(keepalive := KaStopped), serverFd, [r] + tail);
    PuttingSpares(m, r, m.ctl[r].(keepalive := KaStopped));
  }

  lemma PolledKeeps(m: State, a: Accept, conn: Request?, m': State, serverFd: int, rest: seq<Request>)
    requires Walking(m, serverFd, rest) && Polled(m, a, conn, m')
    ensures Walking(m', serverFd, rest) && Counted(m, m', []) && Spares(m, m', [])
    ensures m'.ready == (if conn == null then [] else [conn]) + m.ready
  {
    WalkingMeans(m, serverFd, rest);
    if conn == null {
      assert [] + m.ready == m.ready;
      SameFlags(m, m', serverFd, rest);
    } else {
      hide Sound, AllWatched, FiledBut, Counted, Spares, Lists, Available;
      AdmittingKeeps(m, conn, a.fd, a.kaMax, serverFd, rest);
      AdmittingSpares(m, conn, a.fd, a.kaMax);
    }
  }

  /** The two flags are not part of what is kept. */
  lemma SameFlags(m: State, m': State, serverFd: int, rest: seq<Request>)
    requires Walking(m, serverFd, rest) && m' == m.(pending := m'.pending, sigterm := m'.sigterm)
    ensures Walking(m', serverFd, rest) && Counted(m, m', []) && Spares(m, m', [])
  {
    WalkingMeans(m, serverFd, rest);
    SoundMeans(m, serverFd);
    assert SameRequests(m, m');
    SameBlockedKeeps(m, m', serverFd) by { BlockedKnown(m); }
    hide *;
    SameRequestsKeep(m, m', serverFd, rest);
    IsWalking(m', serverFd, rest);
  }

  /** Where a request is that a dispatch of `before` with the result `retval` left as `after`: blocked,
      waiting for the call that would have blocked; finished, and free unless it is still sending; or
      still ready. */
  ghost predicate Disposed(m: State, r: Request, retval: int, before: Control, after: Control) {
    && r in m.ctl
    && (retval == -1 ==> r in m.blocked && m.ctl[r] == after && WaitOf(after) == EagainSource(before))
    && (retval == 0 ==>
          if after.bufferEnd != 0 && after.status != Dead then r in m.ready && m.ctl[r] == after.(status := Done)
          else r in m.free)
    && (retval != -1 && retval != 0 ==> r in m.ready && m.ctl[r] == after)
    && (MustEnd(before) ==> r in m.free)
  }

  lemma FilingDisposes(m: State, r: Request, front: seq<Request>, tail: seq<Request>, retval: int, conn: Request?,
                       serverFd: int, before: Control)
    requires Walking(m, serverFd, [r] + tail) && m.ready == front + [r] + tail && Stands(m, r, retval, before)
    requires conn == null || (retval == 0 && !StillSending(m.ctl[r]) && Available(m, conn))
    ensures Disposed(Filing(m, r, front, tail, retval, conn), r, retval, before, m.ctl[r])
  {
    Current(m, serverFd, r, front, tail);
    hide Walking, WaitOf, EagainSource, Renewed;
  }

  lemma Prepended(m: State, m': State, conn: Request?, front: seq<Request>, r: Request, tail: seq<Request>)
    requires m.ready == front + [r] + tail && m'.ready == (if conn == null then [] else [conn]) + m.ready
    ensures var front2 := (if conn == null then [] else [conn]) + front;
      m'.ready == front2 + [r] + tail && ListOf(m', Ready) == front2 + [r] + tail
  {
  }

  lemma StandsStill(m: State, m': State, r: Request, retval: int, before: Control, front: seq<Request>,
                    tail: seq<Request>)
    requires Stands(m, r, retval, before) && m.ready == front + [r] + tail && Spares(m, m', [])
    ensures Stands(m', r, retval, before) && m'.ctl[r] == m.ctl[r]
    ensures r in m'.ctl && r in m'.last && m'.last[r] == LastOf(retval, before)
    ensures retval == -1 ==> Explained(m'.ctl[r], m'.last[r])
  {
    assert m.ready[|front|] == r;
    assert SameFile(m, m', r);
    hide Explained, EagainSource;
  }

  lemma VisitSpares(m0: State, m1: State, m2: State, m3: State, r: Request)
    requires Counted(m0, m1, [r]) && Spares(m0, m1, [r])
    requires Counted(m1, m2, []) && Spares(m1, m2, [])
    requires Counted(m2, m3, []) && Spares(m2, m3, [r])
    ensures Counted(m0, m3, [r]) && Spares(m0, m3, [r])
  {
    hide SameFile;
    assert Spares(m1, m2, [r]);
    SparesOn(m0, m1, m2, [r]);
    SparesOn(m0, m2, m3, [r]);
  }

  // The walk over the ready list.

  lemma WalkStarts(m: State, serverFd: int)
    requires Walking(m, serverFd, m.ready)
    ensures Counted(m, m, []) && Spares(m, m, m.ready) && [] + m.ready == m.ready && Distinct(m.ready)
  {
    SoundMeans(m, serverFd);
    NothingSpared(m, m.ready);
    ListsDistinct(m);
    hide *;
  }

  lemma Walk(m: State, serverFd: int, start: seq<Request>, walked: seq<Request>, rest: seq<Request>,
      front: seq<Request>)
    requires Walking(m, serverFd, rest) && m.ready == front + rest && start == walked + rest && rest != []
    ensures m.ready == front + [rest[0]] + rest[1..] && [rest[0]] + rest[1..] == rest && rest[0] in m.ctl
    ensures start == (walked + [rest[0]]) + rest[1..]
  {
    assert [rest[0]] + rest[1..] == rest;
    Current(m, serverFd, rest[0], front, rest[1..]);
    hide *;
  }

  lemma WalkCounted(m0: State, m1: State, m: State, start: seq<Request>, walked: seq<Request>, rest: seq<Request>)
    requires start == walked + rest && rest != [] && Distinct(start)
    requires Counted(m0, m1, walked) && Spares(m0, m1, start)
    requires Counted(m1, m, [rest[0]]) && Spares(m1, m, [rest[0]])
    ensures Counted(m0, m, walked + [rest[0]]) && Spares(m0, m, start)
  {
    assert start[|walked|] == rest[0];
    forall r | r in walked ensures r !in [rest[0]] {
      var i :| 0 <= i < |walked| && walked[i] == r;
      assert start[i] == r;
    }
    hide SameFile;
    CountedOn(m0, m1, m, walked, [rest[0]]);
    assert Spares(m1, m, start);
    SparesOn(m0, m1, m, start);
  }

  lemma PassStarts(m: State, m': State, conn: Request?, serverFd: int)
    requires Lists(m) && Walking(m', serverFd, m.ready) && m'.ready == (if conn == null then [] else [conn]) + m.ready
    requires Spares(m, m', [])
    ensures Walking(m', serverFd, m'.ready) && Distinct(m'.ready)
    ensures m'.ready == m.ready || (|m'.ready| > 0 && m'.ready[1..] == m.ready && m'.ready[0] !in m.blocked)
  {
    SoundMeans(m', serverFd);
    assert forall r :: r in m.ready ==> r in m'.ready;
    assert conn != null ==> m'.ready[0] == conn;
    hide Sound, AllWatched, Distinct, SameFile, Filed;
  }

  lemma PassCounted(m0: State, m1: State, m: State, start: seq<Request>)
    requires Counted(m0, m1, []) && Spares(m0, m1, []) && Counted(m1, m, start) && Spares(m1, m, start)
    ensures Counted(m0, m, start) && Spares(m0, m, start)
  {
    hide SameFile;
    assert Spares(m0, m1, start);
    SparesOn(m0, m1, m, start);
  }

  // The walk over the blocked list.

  /** What is left of `front` once `r` has been looked at. */
  function Kept(m: State, r: Request, front: seq<Request>, timedOut: bool): seq<Request>
    requires r in m.ctl
  {
    if WokenBy(m, TimedOut(m.ctl[r], timedOut)) then front else front + [r]
  }

  /** fdset_update from the request `rest[0]` on, `timedOut` being those that time out. */
  ghost function Updates(m: State, front: seq<Request>, rest: seq<Request>, timedOut: set<Request>): State
    requires forall r :: r in rest ==> r in m.ctl
    decreases |rest|
  {
    if rest == [] then m
    else Updates(Updating(m, rest[0], front, rest[1..], rest[0] in timedOut),
                 Kept(m, rest[0], front, rest[0] in timedOut), rest[1..], timedOut)
  }

  /** The requests on `rest` are on the blocked list, behind `front`. */
  ghost predicate Looking(m: State, front: seq<Request>, rest: seq<Request>, serverFd: int) {
    && Sound(m, serverFd) && WatchedAll(m, front) && FiledBut(m, m.ready)
    && m.blocked == front + rest && (forall r :: r in rest ==> r in m.ctl)
  }

  lemma HeadAndTail(rest: seq<Request>)
    requires rest != []
    ensures forall q :: q in rest <==> q == rest[0] || q in rest[1..]
  {
    assert rest == [rest[0]] + rest[1..];
  }

  lemma LookingOn(m: State, front: seq<Request>, rest: seq<Request>, b: bool, serverFd: int)
    requires Looking(m, front, rest, serverFd) && rest != []
    ensures Looking(Updating(m, rest[0], front, rest[1..], b), Kept(m, rest[0], front, b), rest[1..], serverFd)
    ensures m.blocked == front + [rest[0]] + rest[1..] && rest[0] !in rest[1..] && rest[0] !in front
  {
    assert m.blocked == front + [rest[0]] + rest[1..];
    UpdatingKeeps(m, rest[0], front, rest[1..], b, serverFd);
    SoundMeans(m, serverFd);
    ListsDistinct(m);
    Unlinked(rest[0], front, rest[1..]);
    hide Sound, WatchedAll, FiledBut, Distinct, WokenBy;
  }

  lemma UpdatesOn(m: State, front: seq<Request>, rest: seq<Request>, timedOut: set<Request>)
    requires m.blocked == front + rest && rest != [] && forall r :: r in rest ==> r in m.ctl
    ensures var b := rest[0] in timedOut;
      var m1 := Updating(m, rest[0], front, rest[1..], b); var front1 := Kept(m, rest[0], front, b);
      && m1.blocked == front1 + rest[1..] && (forall r :: r in rest[1..] ==> r in m1.ctl)
      && m.blocked == front + [rest[0]] + rest[1..]
      && Updates(m, front, rest, timedOut) == Updates(m1, front1, rest[1..], timedOut)
  {
    assert rest == [rest[0]] + rest[1..];
    hide WaitOf, Left;
  }

  lemma {:induction false} UpdatesKeep(m: State, front: seq<Request>, rest: seq<Request>, timedOut: set<Request>,
                                       serverFd: int)
    requires Looking(m, front, rest, serverFd)
    ensures var m' := Updates(m, front, rest, timedOut); Walking(m', serverFd, m'.ready)
    decreases |rest|
  {
    if rest != [] {
      LookingOn(m, front, rest, rest[0] in timedOut, serverFd);
      hide Looking, Updating, Kept, Walking;
      UpdatesKeep(Updating(m, rest[0], front, rest[1..], rest[0] in timedOut),
                  Kept(m, rest[0], front, rest[0] in timedOut), rest[1..], timedOut, serverFd);
    } else {
      assert front + [] == front;
      hide Sound, FiledBut;
    }
  }

  /** What becomes of a blocked request: awake if dead or selected, otherwise still blocked. */
  ghost predicate Looked(m: State, m': State, r: Request, timedOut: set<Request>) {
    && r in m.ctl && r in m'.ctl && m'.ctl[r] == TimedOut(m.ctl[r], r in timedOut)
    && (if WokenBy(m, m'.ctl[r]) then r in m'.ready else r in m'.blocked)
  }

  /** Looking at one request changes nothing of the others. */
  lemma UpdatingSpares(m: State, front: seq<Request>, rest: seq<Request>, b: bool, serverFd: int)
    requires Looking(m, front, rest, serverFd) && rest != []
    ensures var m1 := Updating(m, rest[0], front, rest[1..], b);
      && m1 == m.(ready := m1.ready, blocked := m1.blocked, ctl := m1.ctl,
                  bits := m1.bits, maxFd := m1.maxFd, strays := m1.strays)
      && m1.ctl == m.ctl[rest[0] := TimedOut(m.ctl[rest[0]], b)]
      && (forall q :: q in m.ready ==> q in m1.ready)
      && (if WokenBy(m, m1.ctl[rest[0]]) then rest[0] in m1.ready else rest[0] in Kept(m, rest[0], front, b))
      && (forall q :: q in front ==> q in Kept(m, rest[0], front, b))
      && m1.strays == m.strays + Left(m, m.ctl[rest[0]], b) - Woken(m, TimedOut(m.ctl[rest[0]], b))
  {
    hide Sound, WatchedAll, FiledBut, WaitOf;
  }

  lemma TestsDiffer(m: State, q: Request, r: Request)
    requires WaitsApart(m) && q in m.blocked && r in m.blocked && q != r && q in m.ctl && r in m.ctl
    ensures forall b, bq :: WaitOf(TimedOut(m.ctl[q], bq)) != WaitOf(TimedOut(m.ctl[r], b))
    ensures forall b :: WaitOf(m.ctl[q]) != WaitOf(TimedOut(m.ctl[r], b))
  {
    hide WaitOf;
  }

  /** The test for any request still to be looked at comes out the same. */
  lemma UpdatingTests(m: State, front: seq<Request>, rest: seq<Request>, b: bool, serverFd: int, q: Request, bq: bool)
    requires Looking(m, front, rest, serverFd) && rest != [] && q in rest[1..]
    ensures var m1 := Updating(m, rest[0], front, rest[1..], b);
      && q in m.ctl && q in m1.ctl && m1.ctl[q] == m.ctl[q] && q in rest
      && WokenBy(m1, TimedOut(m.ctl[q], bq)) == WokenBy(m, TimedOut(m.ctl[q], bq))
      && LeavesBit(m.ctl[q], m1.bits, bq) == LeavesBit(m.ctl[q], m.bits, bq)
  {
    var r := rest[0];
    LookingOn(m, front, rest, b, serverFd);
    UpdatingSpares(m, front, rest, b, serverFd);
    HeadAndTail(rest);
    WaitsDiffer(m, serverFd);
    TestsDiffer(m, q, r);
    hide Sound, WatchedAll, FiledBut, WaitOf, Looking, WaitsApart;
  }

  lemma LookingLess(m: State, m1: State, front: seq<Request>, front1: seq<Request>, rest: seq<Request>,
                    serverFd: int, b: bool)
    requires Looking(m, front, rest, serverFd) && rest != [] && front1 == Kept(m, rest[0], front, b)
    requires Looking(m1, front1, rest[1..], serverFd)
    ensures forall q :: q in m1.blocked ==> q in m.blocked
  {
    HeadAndTail(rest);
    hide Sound, WatchedAll, FiledBut, WokenBy;
  }

  lemma {:induction false} UpdatesSpare(m: State, front: seq<Request>, rest: seq<Request>, timedOut: set<Request>,
          serverFd: int)
    requires Looking(m, front, rest, serverFd)
    ensures var m' := Updates(m, front, rest, timedOut);
      && m' == m.(ready := m'.ready, blocked := m'.blocked, ctl := m'.ctl,
                  bits := m'.bits, maxFd := m'.maxFd, strays := m'.strays)
      && m'.ctl.Keys == m.ctl.Keys
      && (forall q :: q in m.ctl && q !in rest ==> m'.ctl[q] == m.ctl[q])
      && (forall q :: q in m.ready ==> q in m'.ready) && (forall q :: q in front ==> q in m'.blocked)
      && (forall q :: q in m'.blocked ==> q in m.blocked)
    decreases |rest|
  {
    if rest != [] {
      var m1 := Updating(m, rest[0], front, rest[1..], rest[0] in timedOut);
      var front1 := Kept(m, rest[0], front, rest[0] in timedOut);
      LookingOn(m, front, rest, rest[0] in timedOut, serverFd);
      UpdatingSpares(m, front, rest, rest[0] in timedOut, serverFd);
      UpdatesSpare(m1, front1, rest[1..], timedOut, serverFd);
      HeadAndTail(rest);
      LookingLess(m, m1, front, front1, rest, serverFd, rest[0] in timedOut);
      hide Looking, Updating, WokenBy, Kept;
    } else {
      assert front + [] == front;
    }
  }

  /** fdset_update looks at every blocked request. */
  lemma {:induction false} UpdatesLook(m: State, front: seq<Request>, rest: seq<Request>, timedOut: set<Request>,
                                       serverFd: int, r: Request)
    requires Looking(m, front, rest, serverFd) && r in rest
    ensures Looked(m, Updates(m, front, rest, timedOut), r, timedOut)
    decreases |rest|
  {
    var b := rest[0] in timedOut;
    var m1 := Updating(m, rest[0], front, rest[1..], b);
    var front1 := Kept(m, rest[0], front, b);
    LookingOn(m, front, rest, b, serverFd);
    UpdatingSpares(m, front, rest, b, serverFd);
    if r == rest[0] {
      UpdatesSpare(m1, front1, rest[1..], timedOut, serverFd);
    } else {
      HeadAndTail(rest);
      UpdatesLook(m1, front1, rest[1..], timedOut, serverFd, r);
      UpdatingTests(m, front, rest, b, serverFd, r, r in timedOut);
    }
    hide Looking, Updating, WokenBy, Kept;
  }

  /** The bits that the time-outs of one fdset_update leave behind. */
  ghost function LeftBehind(m: State, rest: seq<Request>, timedOut: set<Request>): set<Wait>
    requires forall r :: r in rest ==> r in m.ctl
  {
    set r | r in rest && LeavesBit(m.ctl[r], m.bits, r in timedOut) :: WaitOf(m.ctl[r])
  }

  /** The bits that one fdset_update clears: those of the requests it wakes. */
  ghost function Cleared(m: State, rest: seq<Request>, timedOut: set<Request>): set<Wait>
    requires forall r :: r in rest ==> r in m.ctl
  {
    set r | r in rest && WokenBy(m, TimedOut(m.ctl[r], r in timedOut)) :: WaitOf(TimedOut(m.ctl[r], r in timedOut))
  }

  function Woken(m: State, c: Control): set<Wait> { if WokenBy(m, c) then {WaitOf(c)} else {} }

  lemma LeftBehindHead(m: State, rest: seq<Request>, timedOut: set<Request>)
    requires rest != [] && forall r :: r in rest ==> r in m.ctl
    ensures forall r :: r in rest[1..] ==> r in m.ctl
    ensures LeftBehind(m, rest, timedOut)
         == LeftBehind(m, rest[1..], timedOut) + Left(m, m.ctl[rest[0]], rest[0] in timedOut)
    ensures Cleared(m, rest, timedOut)
      == Cleared(m, rest[1..], timedOut) + Woken(m, TimedOut(m.ctl[rest[0]], rest[0] in timedOut))
  {
    HeadAndTail(rest);
    hide LeavesBit, WaitOf, WokenBy, TimedOut;
  }

  lemma LeftBehindSame(m: State, m1: State, rest: seq<Request>, timedOut: set<Request>)
    requires forall r :: r in rest ==> r in m.ctl && r in m1.ctl && m1.ctl[r] == m.ctl[r]
    requires forall r :: r in rest ==>
      && LeavesBit(m.ctl[r], m1.bits, r in timedOut) == LeavesBit(m.ctl[r], m.bits, r in timedOut)
      && WokenBy(m1, TimedOut(m.ctl[r], r in timedOut)) == WokenBy(m, TimedOut(m.ctl[r], r in timedOut))
    ensures LeftBehind(m1, rest, timedOut) == LeftBehind(m, rest, timedOut)
    ensures Cleared(m1, rest, timedOut) == Cleared(m, rest, timedOut)
  {
    hide LeavesBit, WaitOf, WokenBy, TimedOut;
  }

  lemma LeftBehindOn(m: State, front: seq<Request>, rest: seq<Request>, timedOut: set<Request>, serverFd: int)
    requires Looking(m, front, rest, serverFd) && rest != []
    ensures var b := rest[0] in timedOut; var m1 := Updating(m, rest[0], front, rest[1..], b);
      && (forall r :: r in rest[1..] ==> r in m1.ctl)
      && LeftBehind(m, rest, timedOut) == LeftBehind(m1, rest[1..], timedOut) + Left(m, m.ctl[rest[0]], b)
      && Cleared(m, rest, timedOut) == Cleared(m1, rest[1..], timedOut) + Woken(m, TimedOut(m.ctl[rest[0]], b))
  {
    var b := rest[0] in timedOut;
    var m1 := Updating(m, rest[0], front, rest[1..], b);
    LeftBehindHead(m, rest, timedOut);
    hide *;
    forall q | q in rest[1..]
      ensures q in m.ctl && q in m1.ctl && m1.ctl[q] == m.ctl[q]
           && LeavesBit(m.ctl[q], m1.bits, q in timedOut) == LeavesBit(m.ctl[q], m.bits, q in timedOut)
           && WokenBy(m1, TimedOut(m.ctl[q], q in timedOut)) == WokenBy(m, TimedOut(m.ctl[q], q in timedOut))
    {
      UpdatingTests(m, front, rest, b, serverFd, q, q in timedOut);
    }
    LeftBehindSame(m, m1, rest[1..], timedOut);
  }

  /** No bit that is left behind is cleared again in the same pass. */
  lemma LeftIsNotCleared(m: State, front: seq<Request>, rest: seq<Request>, timedOut: set<Request>, serverFd: int)
    requires Looking(m, front, rest, serverFd) && rest != []
    ensures Left(m, m.ctl[rest[0]], rest[0] in timedOut) !! Cleared(m, rest, timedOut)
  {
    var r := rest[0];
    HeadAndTail(rest);
    WaitsDiffer(m, serverFd);
    forall q | q in rest ensures q != r ==> WaitOf(m.ctl[r]) != WaitOf(TimedOut(m.ctl[q], q in timedOut)) {
      assert q in m.blocked && r in m.blocked;
      if q != r { TestsDiffer(m, r, q); }
    }
    hide Looking, WaitOf, WokenBy, WaitsApart;
  }

  lemma {:induction false} UpdatesStrays(m: State, front: seq<Request>, rest: seq<Request>, timedOut: set<Request>,
                                         serverFd: int)
    requires Looking(m, front, rest, serverFd)
    ensures Updates(m, front, rest, timedOut).strays
         == m.strays - Cleared(m, rest, timedOut) + LeftBehind(m, rest, timedOut)
    decreases |rest|
  {
    if rest != [] {
      var b := rest[0] in timedOut;
      var m1, c := Updating(m, rest[0], front, rest[1..], b), TimedOut(m.ctl[rest[0]], b);
      LookingOn(m, front, rest, b, serverFd);
      UpdatingSpares(m, front, rest, b, serverFd);
      LeftBehindOn(m, front, rest, timedOut, serverFd);
      LeftIsNotCleared(m, front, rest, timedOut, serverFd);
      hide Looking, Updating, Kept, LeavesBit, WaitOf, LeftBehind, Cleared, Left, WokenBy, TimedOut;
      UpdatesStrays(m1, Kept(m, rest[0], front, b), rest[1..], timedOut, serverFd);
      StraySets(m.strays, Left(m, m.ctl[rest[0]], b), Woken(m, c), Cleared(m1, rest[1..], timedOut),
                LeftBehind(m1, rest[1..], timedOut));
    }
  }

  lemma StraySets(strays: set<Wait>, left: set<Wait>, woken: set<Wait>, cleared: set<Wait>, behind: set<Wait>)
    requires left !! (cleared + woken)
    ensures strays + left - woken - cleared + behind == strays - (cleared + woken) + (behind + left)
  {
  }

  /** Every bit is the listening socket's or that of a blocked request. */
  ghost predicate Clean(m: State, serverFd: int) {
    forall w :: w in m.bits ==> w == WaitRead(serverFd) || WaitedFor(m, w)
  }

  lemma UpdatingClean(m: State, front: seq<Request>, rest: seq<Request>, b: bool, serverFd: int)
    requires Looking(m, front, rest, serverFd) && rest != [] && Clean(m, serverFd)
    requires !LeavesBit(m.ctl[rest[0]], m.bits, b)
    ensures Clean(Updating(m, rest[0], front, rest[1..], b), serverFd)
  {
    var r := rest[0];
    LookingOn(m, front, rest, b, serverFd);
    hide Looking, Sound, Clean, WaitOf;
    if WokenBy(m, TimedOut(m.ctl[r], b)) {
      WakingClean(m, r, front, rest[1..], b, serverFd);
    } else {
      NoTimeOut(m, r);
      WatchingClean(m, r, front, rest[1..], serverFd);
    }
  }

  lemma WakingClean(m: State, r: Request, front: seq<Request>, tail: seq<Request>, b: bool, serverFd: int)
    requires Clean(m, serverFd) && m.blocked == front + [r] + tail && r in m.ctl
    requires !LeavesBit(m.ctl[r], m.bits, b) && WokenBy(m, TimedOut(m.ctl[r], b))
    ensures Clean(Updating(m, r, front, tail, b), serverFd)
  {
    var m' := Updating(m, r, front, tail, b);
    hide WaitOf;
    forall w | w in m'.bits && w != WaitRead(serverFd) ensures WaitedFor(m', w) {
      assert WaitedFor(m, w);
      var q :| q in m.blocked && q in m.ctl && WaitOf(m.ctl[q]) == w;
      assert q in m'.blocked;
    }
  }

  lemma WatchingClean(m: State, r: Request, front: seq<Request>, tail: seq<Request>, serverFd: int)
    requires Clean(m, serverFd) && m.blocked == front + [r] + tail && r in m.ctl
    ensures Clean(Watching(m, WaitOf(m.ctl[r])), serverFd)
  {
    var m' := Watching(m, WaitOf(m.ctl[r]));
    assert m.blocked[|front|] == r;
    hide WaitOf;
    forall w | w in m'.bits && w != WaitRead(serverFd) ensures WaitedFor(m', w) {
      if w in m.bits {
        assert WaitedFor(m, w);
      } else {
        assert r in m'.blocked;
      }
    }
  }

  lemma {:induction false} UpdatesClean(m: State, front: seq<Request>, rest: seq<Request>, timedOut: set<Request>,
          serverFd: int)
    requires Looking(m, front, rest, serverFd) && Clean(m, serverFd) && LeftBehind(m, rest, timedOut) == {}
    ensures Clean(Updates(m, front, rest, timedOut), serverFd)
    decreases |rest|
  {
    if rest != [] {
      var b := rest[0] in timedOut;
      LookingOn(m, front, rest, b, serverFd);
      LeftBehindOn(m, front, rest, timedOut, serverFd);
      LeftBehindHead(m, rest, timedOut);
      UpdatingClean(m, front, rest, b, serverFd);
      hide Looking, Updating, Kept, LeavesBit, WaitOf, Clean, LeftBehind;
      UpdatesClean(Updating(m, rest[0], front, rest[1..], b), Kept(m, rest[0], front, b),
                   rest[1..], timedOut, serverFd);
    }
  }

  lemma {:induction false} UpdatesBits(m: State, front: seq<Request>, rest: seq<Request>, timedOut: set<Request>,
                                       serverFd: int, w: Wait)
    requires Looking(m, front, rest, serverFd) && w in m.bits
    requires forall q :: q in rest ==> w != WaitOf(TimedOut(m.ctl[q], q in timedOut))
    ensures w in Updates(m, front, rest, timedOut).bits
    decreases |rest|
  {
    if rest != [] {
      var b := rest[0] in timedOut;
      var m1 := Updating(m, rest[0], front, rest[1..], b);
      LookingOn(m, front, rest, b, serverFd);
      UpdatingSpares(m, front, rest, b, serverFd);
      HeadAndTail(rest);
      assert w in m1.bits;
      hide Looking, Updating, WaitOf;
      UpdatesBits(m1, Kept(m, rest[0], front, b), rest[1..], timedOut, serverFd, w);
    }
  }

  /** Nobody waits for a bit of a ready request's descriptor. */
  lemma NobodyWaits(m: State, r: Request, w: Wait, serverFd: int)
    requires Sound(m, serverFd) && r in m.ready && r in m.ctl && w.fd in Owned(m.ctl[r])
    ensures !WaitedFor(m, w) && w != WaitRead(serverFd)
  {
    Live(m, r, serverFd);
    hide BitsAccounted, AllExplained, Distinct, WaitOf;
    forall q | q in m.blocked && q in m.ctl ensures WaitOf(m.ctl[q]) != w {
      assert q in View(m) && r in View(m) && q != r;
      assert Owned(View(m)[q]) !! Owned(View(m)[r]);
      WaitsForItsOwn(m.ctl[q], m.open, serverFd);
    }
  }

  /** A time-out that leaves its bit behind spoils the sets. */
  lemma LeftBitIsStray(m: State, r: Request, timedOut: set<Request>, serverFd: int)
    requires Looking(m, [], m.blocked, serverFd) && r in m.blocked && LeavesBit(m.ctl[r], m.bits, r in timedOut)
    ensures !Clean(Updates(m, [], m.blocked, timedOut), serverFd)
  {
    var m', w := Updates(m, [], m.blocked, timedOut), WaitOf(m.ctl[r]);
    forall q | q in m.blocked ensures w != WaitOf(TimedOut(m.ctl[q], q in timedOut)) {
      if q != r {
        WaitsDiffer(m, serverFd);
        TestsDiffer(m, r, q);
      }
    }
    UpdatesBits(m, [], m.blocked, timedOut, serverFd, w);
    UpdatesKeep(m, [], m.blocked, timedOut, serverFd);
    UpdatesLook(m, [], m.blocked, timedOut, serverFd, r);
    BlockedOwns(m, r, serverFd);
    hide Looking, Sound, Updates, AllWatched, FiledBut;
    NobodyWaits(m', r, w, serverFd);
  }

  lemma BlockedOwns(m: State, r: Request, serverFd: int)
    requires Sound(m, serverFd) && r in m.blocked
    ensures r in m.ctl && WaitOf(m.ctl[r]).fd in Owned(m.ctl[r]) && Owned(TimedOut(m.ctl[r], true)) == Owned(m.ctl[r])
  {
    Live(m, r, serverFd);
    WaitsForItsOwn(m.ctl[r], m.open, serverFd);
    DeadWaitsForItsOwn(m.ctl[r], m.open, serverFd);
    hide *;
  }

  /** When fdset_update starts with nothing but the bits of the listening socket and of blocked
      requests, it ends so exactly if no request that times out leaves its bit behind. */
  lemma StaysClean(m: State, timedOut: set<Request>, serverFd: int)
    requires Looking(m, [], m.blocked, serverFd) && Clean(m, serverFd)
    ensures Clean(Updates(m, [], m.blocked, timedOut), serverFd)
       <==> forall r :: r in m.blocked ==> !LeavesBit(m.ctl[r], m.bits, r in timedOut)
  {
    if r :| r in m.blocked && LeavesBit(m.ctl[r], m.bits, r in timedOut) {
      LeftBitIsStray(m, r, timedOut, serverFd);
    } else {
      UpdatesClean(m, [], m.blocked, timedOut, serverFd);
    }
    hide Looking, Updates, Clean, LeavesBit;
  }

  /** A select: any part of the sets may be left, unless it is interrupted, and memory may have been used
      or freed elsewhere.  A connection is pending if one was, or if the listening socket is readable. */
  ghost predicate Selected(m: State, m': State, interrupted: bool, serverFd: int) {
    && m' == m.(bits := m'.bits, strays := m.strays * m'.bits, pending := m'.pending, memory := m'.memory)
    && m'.bits <= m.bits && (interrupted ==> m'.bits == m.bits)
    && (m'.pending <==> m.pending || (!interrupted && WaitRead(serverFd) in m'.bits))
  }

  lemma SelectedKeeps(m: State, m': State, interrupted: bool, serverFd: int)
    requires Walking(m, serverFd, []) && Selected(m, m', interrupted, serverFd)
    ensures Sound(m', serverFd) && FiledBut(m', m'.ready)
  {
    WalkingMeans(m, serverFd, []);
    SoundMeans(m, serverFd);
    BitsKeep(m, m', serverFd);
    assert SameRequests(m, m');
    hide Sound, BitsAccounted, AllWatched, AllExplained, Descriptors, Lists;
    SameRequestsKeep(m, m', serverFd, []);
  }

  /** Taking bits away, or adding that of the listening socket. */
  lemma BitsKeep(m: State, m': State, serverFd: int)
    requires BitsAccounted(m, serverFd) && m'.bits <= m.bits + {WaitRead(serverFd)}
    requires m'.blocked == m.blocked && m'.ctl == m.ctl && m'.strays == m.strays * m'.bits
    ensures BitsAccounted(m', serverFd)
  {
    hide WaitOf;
    forall w | w in m'.bits && w != WaitRead(serverFd) && w !in m'.strays ensures WaitedFor(m', w) {
      assert WaitedFor(m, w);
    }
  }

  /** Before fdset_update max_fd is reset. */
  lemma ResetLooks(m: State, serverFd: int)
    requires Sound(m, serverFd) && FiledBut(m, m.ready)
    ensures Looking(m.(maxFd := -1), [], m.blocked, serverFd)
  {
    var m' := m.(maxFd := -1);
    SoundMeans(m, serverFd);
    BitsKeep(m, m', serverFd);
    SameRequestsKeep(m, m', serverFd, m.ready);
    BlockedKnown(m);
    assert [] + m.blocked == m.blocked;
    hide Sound, BitsAccounted, FiledBut;
  }

  /** BOA_FD_SET of the listening socket. */
  lemma ServerWatched(m: State, serverFd: int)
    requires Walking(m, serverFd, [])
    ensures Walking(Watching(m, WaitRead(serverFd)), serverFd, [])
    ensures Counted(m, Watching(m, WaitRead(serverFd)), []) && Spares(m, Watching(m, WaitRead(serverFd)), [])
  {
    var m' := Watching(m, WaitRead(serverFd));
    WalkingMeans(m, serverFd, []);
    SoundMeans(m, serverFd);
    BitsKeep(m, m', serverFd);
    assert SameRequests(m, m');
    hide Sound, BitsAccounted, AllWatched, AllExplained, Descriptors, Lists, FiledBut, Counted, Spares;
    SameRequestsKeep(m, m', serverFd, []);
  }

  // One iteration of the loop.

  /** What an iteration does with a request that was blocked: if it is dead or was selected it is
      dispatched once, and otherwise it stays where it is. */
  ghost predicate Served(m: State, m': State, r: Request, timedOut: set<Request>) {
    && r in m.ctl && r in m.handled && r in m'.handled
    && if WokenBy(m, TimedOut(m.ctl[r], r in timedOut)) then m'.handled[r] == m.handled[r] + 1
       else SameFile(m, m', r) && m'.handled[r] == m.handled[r]
  }

  /** From what a select left to the next select: every request that was ready, selected or dead is
      dispatched exactly once, everything else that was blocked stays so, and bits are left behind
      by exactly those time-outs that leave one. */
  ghost predicate RoundDone(m: State, m': State, timedOut: set<Request>) {
    && (forall r :: r in m.ready ==> r in m.handled && r in m'.handled && m'.handled[r] == m.handled[r] + 1)
    && (forall r :: r in m.blocked ==> r in m.ctl && Served(m, m', r, timedOut))
    && (forall r :: r in m.handled ==> r in m'.handled && m.handled[r] <= m'.handled[r] <= m.handled[r] + 1)
    && m'.strays == m.strays - Cleared(m, m.blocked, timedOut) + LeftBehind(m, m.blocked, timedOut)
  }

  lemma UpdatedFacts(m: State, m1: State, timedOut: set<Request>, serverFd: int)
    requires Sound(m, serverFd) && FiledBut(m, m.ready) && forall r :: r in m.blocked ==> r in m.ctl
    requires m1 == Updates(m.(maxFd := -1), [], m.blocked, timedOut)
    ensures Lists(m) && Walking(m1, serverFd, m1.ready) && m1.handled == m.handled && m1.last == m.last
    ensures m1.strays == m.strays - Cleared(m, m.blocked, timedOut) + LeftBehind(m, m.blocked, timedOut)
    ensures forall r :: r in m.ready ==> r in m1.ready
  {
    var m0 := m.(maxFd := -1);
    ResetLooks(m, serverFd);
    SoundMeans(m, serverFd);
    UpdatesSpare(m0, [], m.blocked, timedOut, serverFd);
    UpdatesStrays(m0, [], m.blocked, timedOut, serverFd);
    UpdatesKeep(m0, [], m.blocked, timedOut, serverFd);
    LeftBehindSame(m, m0, m.blocked, timedOut);
    hide *;
  }

  lemma RoundSteps(m: State, m1: State, m2: State, start: seq<Request>, timedOut: set<Request>, serverFd: int)
    requires Sound(m, serverFd) && FiledBut(m, m.ready) && forall r :: r in m.blocked ==> r in m.ctl
    requires m1 == Updates(m.(maxFd := -1), [], m.blocked, timedOut)
    requires start == m1.ready || (|start| > 0 && start[1..] == m1.ready && start[0] !in m1.blocked)
    requires Counted(m1, m2, start) && Spares(m1, m2, start)
    ensures RoundDone(m, m2, timedOut)
  {
    hide Sound, FiledBut, LeavesBit, Updates, SameFile, Walking, Lists, LeftBehind, Served, Counted, Spares, Looked,
         Looking;
    UpdatedFacts(m, m1, timedOut, serverFd);
    ListsOfWalking(m1, serverFd, m1.ready);
    Handled1(m, m1, m2, start, serverFd);
    ResetLooks(m, serverFd);
    forall r | r in m.blocked ensures Served(m, m2, r, timedOut) {
      UpdatesLook(m.(maxFd := -1), [], m.blocked, timedOut, serverFd, r);
      ServedOne(m, m1, m2, start, r, timedOut, serverFd);
    }
    StraysOf(m1, m2, start);
  }

  lemma ListsOfWalking(m: State, serverFd: int, rest: seq<Request>)
    requires Walking(m, serverFd, rest)
    ensures Lists(m) && Sound(m, serverFd)
  {
    SoundMeans(m, serverFd);
  }

  lemma StraysOf(m: State, m': State, s: seq<Request>)
    requires Spares(m, m', s)
    ensures m'.strays == m.strays
  {
  }

  lemma Handled1(m: State, m1: State, m2: State, start: seq<Request>, serverFd: int)
    requires Lists(m) && m1.handled == m.handled && Counted(m1, m2, start)
    requires forall r :: r in m.ready ==> r in m1.ready
    requires start == m1.ready || (|start| > 0 && start[1..] == m1.ready)
    ensures forall r :: r in m.ready ==> r in m.handled && r in m2.handled && m2.handled[r] == m.handled[r] + 1
    ensures forall r :: r in m.handled ==> r in m2.handled && m.handled[r] <= m2.handled[r] <= m.handled[r] + 1
  {
    hide Distinct;
  }

  lemma ServedOne(m: State, m1: State, m2: State, start: seq<Request>, r: Request, timedOut: set<Request>,
      serverFd: int)
    requires Lists(m) && Lists(m1) && r in m.blocked && m1.handled == m.handled && m1.last == m.last
    requires Looked(m.(maxFd := -1), m1, r, timedOut)
    requires start == m1.ready || (|start| > 0 && start[1..] == m1.ready && start[0] !in m1.blocked)
    requires Counted(m1, m2, start) && Spares(m1, m2, start)
    ensures Served(m, m2, r, timedOut)
  {
    if !WokenBy(m, TimedOut(m.ctl[r], r in timedOut)) {
      assert r in m1.blocked && r !in m1.ready;
      assert r !in start;
      assert SameFile(m, m1, r);
      assert SameFile(m1, m2, r);
    }
    hide Distinct, WaitOf;
  }

  lemma PassEnds(m: State, m1: State, m': State, start: seq<Request>)
    requires Counted(m, m1, start) && Spares(m, m1, start) && Counted(m1, m', []) && Spares(m1, m', [])
    ensures Counted(m, m', start) && Spares(m, m', start)
  {
    hide SameFile;
    assert Spares(m1, m', start);
    SparesOn(m, m1, m', start);
  }

  lemma ZeroKeeps(m: State, serverFd: int)
    requires Sound(m, serverFd) && FiledBut(m, m.ready)
    ensures var m' := m.(bits := {}, strays := {}); Sound(m', serverFd) && FiledBut(m', m'.ready)
  {
    var m' := m.(bits := {}, strays := {});
    BitsKeep(m, m', serverFd);
    hide Sound, FiledBut, BitsAccounted;
    SameRequestsKeep(m, m', serverFd, m.ready);
  }

  // What holds at every select.

  /** A blocked request that is reading its headers holds bytes it has not parsed exactly if its
      connection was kept alive with such bytes and it has not been dispatched since. */
  lemma UnparsedIffRecycled(m: State, serverFd: int, r: Request)
    requires Walking(m, serverFd, []) && r in m.blocked && r in m.ctl && r in m.last && ReadsHeader(m.ctl[r])
    ensures m.ctl[r].unparsed > 0 <==> m.last[r].Recycled? && m.last[r].unparsed > 0
    ensures WaitOf(m.ctl[r]) == WaitRead(m.ctl[r].fd)
  {
    SoundMeans(m, serverFd);
    hide Sound, BitsAccounted, Descriptors, Lists, FiledBut, AllWatched;
  }

  /** A bit that no time-out has left behind is that of an open descriptor. */
  lemma AccountedBitIsOpen(m: State, serverFd: int, w: Wait)
    requires Walking(m, serverFd, []) && w in m.bits && w !in m.strays
    ensures w.fd in m.open
  {
    SoundMeans(m, serverFd);
    if w != WaitRead(serverFd) {
      assert WaitedFor(m, w);
      var r :| r in m.blocked && r in m.ctl && WaitOf(m.ctl[r]) == w;
      Live(m, r, serverFd);
      WaitsForItsOwn(m.ctl[r], m.open, serverFd);
    }
    hide Sound, BitsAccounted, Lists, AllExplained, WaitOf;
  }

  /** A keep-alive request on descriptor 4 that has been answered, when 5 bytes of the client's next
      request were read along with it. */
  const ANSWERED := Control(4, 0, 0, Done, 0, KaActive, 10, 200, 5)

  lemma Pipelined(r: Request)
    ensures var m := Admitting(Start(3, 2), r, 4, 10);
      && Available(Start(3, 2), r) && Walking(m, 3, [r]) && m.ready == [r] && m.free == [] && m.memory == 1
      && m.ctl == map[r := CLEARED.(fd := 4, kacount := 10)] && r in m.handled && m.open == {0, 1, 2, 3, 4}
  {
    StartKeeps(3, 2);
    AdmittingKeeps(Start(3, 2), r, 4, 10, 3, [r]);
    hide Sound, AllWatched, FiledBut;
  }

  lemma PipelinedAnswer(m: State, r: Request)
    requires Walking(m, 3, [r]) && m.ready == [r] && m.open == {0, 1, 2, 3, 4}
    requires m.ctl == map[r := CLEARED.(fd := 4, kacount := 10)] && r in m.handled
    ensures Dispatched(m.ctl[r], ANSWERED, m.open, m.open, 3, 0)
    ensures var m1 := Dispatching(m, r, ANSWERED, m.open, 0);
      Walking(m1, 3, [r]) && m1.ctl == map[r := ANSWERED] && m1.ready == m.ready && r in m1.last && m1.last[r] == Ended
  {
    WalkingMeans(m, 3, [r]);
    hide Sound, AllWatched, FiledBut;
    DispatchingKeeps(m, r, ANSWERED, m.open, 0, 3, [r]);
  }

  /** A client has sent its next request along with one that is kept alive.  The bytes are moved into
      the new request, which waits for the client to send more. */
  lemma PipelinedRequestWaits(r: Request, conn: Request)
    requires r != conn
    ensures var m := Admitting(Start(3, 2), r, 4, 10);
      var m1 := Dispatching(m, r, ANSWERED, m.open, 0);
      var m2 := Freeing(m1, r, [], [], conn);
      && Available(Start(3, 2), r) && Dispatched(m.ctl[r], ANSWERED, m.open, m.open, 3, 0)
      && KeepsAlive(ANSWERED) && Available(m1, conn)
      && Walking(m2, 3, []) && conn in m2.blocked && ReadsHeader(m2.ctl[conn])
      && m2.ctl[conn].unparsed == 5 && WaitOf(m2.ctl[conn]) == WaitRead(4)
  {
    var m := Admitting(Start(3, 2), r, 4, 10);
    var m1 := Dispatching(m, r, ANSWERED, m.open, 0);
    Pipelined(r);
    PipelinedAnswer(m, r);
    WalkingMeans(m1, 3, [r]);
    PipelinedKept(m1, r, conn);
    hide *;
  }

  lemma PipelinedKept(m: State, r: Request, conn: Request)
    requires Walking(m, 3, [r]) && m.ready == [r] && m.ctl == map[r := ANSWERED] && m.free == [] && m.memory == 1
    requires r != conn && r in m.last && m.last[r] == Ended
    ensures var m' := Freeing(m, r, [], [], conn);
      && Available(m, conn) && Walking(m', 3, []) && conn in m'.blocked && ReadsHeader(m'.ctl[conn])
      && m'.ctl[conn].unparsed == 5 && WaitOf(m'.ctl[conn]) == WaitRead(4)
  {
    hide Sound, AllWatched, FiledBut;
    assert m.ready == [] + [r] + [] && [r] + [] == [r];
    FreeingKeeps(m, r, [], [], conn, 3);
  }

  lemma StartKeeps(serverFd: int, memory: nat)
    requires 2 < serverFd
    ensures var m := Start(serverFd, memory); Sound(m, serverFd) && AllWatched(m) && forall rest :: FiledBut(m, rest)
  {
  }

  /** A request on descriptor 4 that waits for data on descriptor 5, one on descriptor 6 that waits for
      its client, and what select leaves when there is data. */
  const RELAYING := Control(4, 5, 0, PipeRead, 0, KaInactive, 0, 200, 0)
  const READING := Control(6, 0, 0, ReadHeader, 0, KaInactive, 0, 0, 0)

  ghost function Relaying(r: Request, q: Request): State {
    State([], [r, q], [], map[r := RELAYING, q := READING],
          map[r := Stalled(WaitRead(5)), q := Stalled(WaitRead(6))], map[r := 1, q := 1], 2, false, false,
          {0, 1, 2, 3, 4, 5, 6}, 0, {WaitRead(5)}, -1, {})
  }

  lemma RelayingIsSound(r: Request, q: Request)
    requires r != q
    ensures Sound(Relaying(r, q), 3) && Clean(Relaying(r, q), 3) && FiledBut(Relaying(r, q), [])
  {
    var m := Relaying(r, q);
    RelayingLists(r, q);
    RelayingWaits(r, q);
    RelayingOwns(r, q);
    hide Lists, AllExplained, BitsAccounted, Clean, FiledBut, Descriptors, View;
    IsSound(m, 3);
  }

  lemma RelayingLists(r: Request, q: Request)
    requires r != q
    ensures Lists(Relaying(r, q)) && View(Relaying(r, q)) == map[r := RELAYING, q := READING]
  {
    hide Descriptors, GoodControl;
    assert View(Relaying(r, q)) == map[r := RELAYING, q := READING];
  }

  lemma RelayingWaits(r: Request, q: Request)
    requires r != q
    ensures var m := Relaying(r, q); AllExplained(m) && BitsAccounted(m, 3) && Clean(m, 3) && FiledBut(m, [])
  {
    var m := Relaying(r, q);
    assert m.blocked[0] == r && m.ctl[r] == RELAYING && m.ctl[q] == READING;
    assert WaitedFor(m, WaitRead(5));
  }

  lemma RelayingOwns(r: Request, q: Request)
    requires r != q
    ensures Descriptors(map[r := RELAYING, q := READING], {0, 1, 2, 3, 4, 5, 6}, 3)
  {
  }

  /** The request on descriptor 4 is timed out although its descriptor was selected. */
  ghost function Expired(r: Request, q: Request): State {
    Relaying(r, q).(ready := [r], blocked := [q], ctl := map[r := RELAYING.(status := Dead), q := READING],
                    bits := {WaitRead(5), WaitRead(6)}, maxFd := 6, strays := {WaitRead(5)})
  }

  ghost function Half(r: Request, q: Request): State {
    Expired(r, q).(bits := {WaitRead(5)}, maxFd := -1)
  }

  lemma FirstUpdated(r: Request, q: Request)
    requires r != q
    ensures Updating(Relaying(r, q), r, [], [q], true) == Half(r, q) && Kept(Relaying(r, q), r, [], true) == []
  {
  }

  lemma SecondUpdated(r: Request, q: Request)
    requires r != q
    ensures Updating(Half(r, q), q, [], [], false) == Expired(r, q) && Kept(Half(r, q), q, [], false) == [q]
  {
    assert {WaitRead(5)} + {WaitRead(6)} == {WaitRead(5), WaitRead(6)};
  }

  lemma RelayingUpdated(r: Request, q: Request)
    requires r != q
    ensures Updates(Relaying(r, q), [], [r, q], {r}) == Expired(r, q)
  {
    FirstUpdated(r, q);
    SecondUpdated(r, q);
    hide Updating, Kept;
    assert [r, q][1..] == [q] && [q][1..] == [];
    assert Updates(Half(r, q), [], [q], {r}) == Expired(r, q);
  }

  /** Dispatched, it is freed: its bit is still set and within max_fd at the next select, while its
      descriptor is closed. */
  lemma SelectsAClosedDescriptor(r: Request, q: Request)
    requires r != q
    ensures Sound(Relaying(r, q), 3) && Clean(Relaying(r, q), 3) && FiledBut(Relaying(r, q), [])
    ensures Updates(Relaying(r, q), [], [r, q], {r}) == Expired(r, q)
    ensures var m, dead := Expired(r, q), RELAYING.(status := Dead);
      var squashed := dead.(keepalive := KaStopped);
      var m' := Freeing(Dispatching(m, r, squashed, m.open, 0), r, [], [], null);
      && m.ctl[r] == dead && Dispatched(dead, squashed, m.open, m.open, 3, 0)
      && Ruled(dead, squashed, m.open, m.open, WouldBlock, 0)
      && WaitRead(5) in m'.bits && 5 <= m'.maxFd && 5 !in m'.open
  {
    RelayingIsSound(r, q);
    RelayingUpdated(r, q);
    hide Sound, Clean, FiledBut, Updates;
  }
}
