/** What comes to its end in an iteration of the loop, and who is listened to; and whole runs. */
module ScheduleEnds {
  import opened Handlers
  import opened Schedule
  import opened ScheduleSteps
  import opened ScheduleRounds

  // What a step leaves alone.

  /** What is over stays so, apart from the requests on `s`, and the bit of the listening socket is as it
      was. */
  ghost predicate Calm(m: State, m': State, s: seq<Request>, serverFd: int) {
    && (forall r :: r in m.ctl && r !in s && Over(m, r) ==> Over(m', r))
    && (WaitRead(serverFd) in m'.bits <==> WaitRead(serverFd) in m.bits)
  }

  lemma CalmOn(m: State, m1: State, m': State, s: seq<Request>, serverFd: int)
    requires Calm(m, m1, s, serverFd) && Calm(m1, m', s, serverFd)
    ensures Calm(m, m', s, serverFd)
  {
  }

  lemma CalmFor(m: State, m': State, s: seq<Request>, serverFd: int)
    requires Calm(m, m', [], serverFd)
    ensures Calm(m, m', s, serverFd)
  {
    hide Over;
  }

  lemma DispatchingCalm(m: State, r: Request, c: Control, open: set<int>, retval: int, serverFd: int)
    requires r in m.ctl && r in m.handled
    ensures Calm(m, Dispatching(m, r, c, open, retval), [r], serverFd)
  {
  }

  lemma PuttingCalm(m: State, r: Request, c: Control, serverFd: int)
    ensures Calm(m, Putting(m, r, c), [], serverFd)
  {
  }

  lemma FlagsCalm(m: State, m': State, serverFd: int)
    requires m' == m.(pending := m'.pending, sigterm := m'.sigterm)
    ensures Calm(m, m', [], serverFd)
  {
  }

  lemma TakingOver(m: State, r: Request, c: Control, l: Last)
    requires Available(m, r) && (l.Accepted? || l.Recycled?)
    ensures forall q :: q in m.ctl && Over(m, q) ==> Over(Taking(m, r, c, l), q)
  {
    if m.free != [] { assert m.free == [m.free[0]] + m.free[1..]; }
  }

  lemma PolledCalm(m: State, a: Accept, conn: Request?, m': State, serverFd: int)
    requires Polled(m, a, conn, m')
    ensures Calm(m, m', [], serverFd)
  {
    if conn == null {
      FlagsCalm(m, m', serverFd);
    } else {
      TakingOver(m, conn, CLEARED.(fd := a.fd, kacount := a.kaMax), Accepted);
    }
  }

  lemma WatchingCalm(m: State, w: Wait, serverFd: int)
    requires w.fd != serverFd
    ensures Calm(m, Watching(m, w), [], serverFd)
  {
  }

  /** Only the lists, the table of descriptors and the counter change, and nothing leaves the free list. */
  lemma MovedCalm(m: State, m': State, serverFd: int)
    requires m' == m.(ready := m'.ready, blocked := m'.blocked, free := m'.free, open := m'.open, total := m'.total)
    requires forall r :: r in m.free ==> r in m'.free
    ensures Calm(m, m', [], serverFd)
  {
  }

  lemma FilingCalm(m: State, r: Request, front: seq<Request>, tail: seq<Request>, retval: int, conn: Request?,
                   serverFd: int)
    requires Walking(m, serverFd, [r] + tail) && m.ready == front + [r] + tail && r in m.ctl
    requires conn == null || Available(m, conn)
    ensures Calm(m, Filing(m, r, front, tail, retval, conn), [], serverFd)
  {
    Current(m, serverFd, r, front, tail);
    WaitsForItsOwn(m.ctl[r], m.open, serverFd);
    NotTheServers(m.ctl[r], m.open, serverFd);
    var c := m.ctl[r];
    hide Walking, Calm, WaitOf, GoodControl, Owned, Available, Watching, Taking, Over;
    if retval == -1 {
      var m1 := m.(ready := front + tail, blocked := [r] + m.blocked);
      MovedCalm(m, m1, serverFd);
      WatchingCalm(m1, WaitOf(c), serverFd);
      CalmOn(m, m1, Filing(m, r, front, tail, retval, conn), [], serverFd);
    } else if retval == 0 {
      if StillSending(c) {
        PuttingCalm(m, r, c.(status := Done), serverFd);
      } else {
        var m1 := Detaching(m, r, front, tail);
        MovedCalm(m, m1, serverFd);
        if conn == null { MovedCalm(m1, Closing(m1, r), serverFd); } else { KeepingCalm(m, m1, r, conn, serverFd); }
        CalmOn(m, m1, Filing(m, r, front, tail, retval, conn), [], serverFd);
      }
    } else {
      FlagsCalm(m, m, serverFd);
    }
  }

  lemma NotTheServers(c: Control, open: set<int>, serverFd: int)
    requires GoodControl(c, open, serverFd)
    ensures WaitOf(c).fd != serverFd && c.fd != serverFd
  {
    WaitsForItsOwn(c, open, serverFd);
    hide WaitOf;
  }

  lemma KeepingCalm(m: State, m1: State, r: Request, conn: Request, serverFd: int)
    requires Available(m, conn) && m1.free == m.free && m1.ctl == m.ctl && m1.memory == m.memory
    requires r in m1.ctl && m1.ctl[r].fd != serverFd
    ensures Calm(m1, Keeping(m1, r, conn), [], serverFd)
  {
    var c := m1.ctl[r];
    var t := Taking(m1, conn, Renewed(c), Recycled(c.unparsed));
    TakingOver(m1, conn, Renewed(c), Recycled(c.unparsed));
    assert t.bits == m1.bits;
    hide Taking, Renewed, Over;
    var t1 := t.(blocked := [conn] + t.blocked, free := [r] + t.free);
    MovedCalm(t, t1, serverFd);
    WatchingCalm(t1, WaitRead(c.fd), serverFd);
    assert Calm(m1, t, [], serverFd);
    CalmOn(m1, t, t1, [], serverFd);
    CalmOn(m1, t1, Keeping(m1, r, conn), [], serverFd);
  }

  // One turn of the walk.

  /** A connection that is finished is kept exactly if it is to be kept alive and a request can be had: under
      a new request that waits for the client, with what was not parsed.  Otherwise it is closed. */
  ghost predicate KeptAlive(m: State, r: Request, retval: int, conn: Request?, m': State) {
    && r in m.ctl
    && var c := m.ctl[r];
    && (conn != null <==>
          && retval == 0 && (c.bufferEnd == 0 || c.status == Dead)
          && c.keepalive == KaActive && c.responseStatus < 500 && c.kacount > 0
          && (m.free != [] || m.memory > 0))
    && (conn != null ==>
          && conn in m'.blocked && conn in m'.last && m'.last[conn] == Recycled(c.unparsed) && conn in m'.ctl
          && m'.ctl[conn] == Control(c.fd, 0, 0, ReadHeader, 0, KaInactive, c.kacount - 1, 0, c.unparsed))
    && (conn == null && retval == 0 && (c.bufferEnd == 0 || c.status == Dead) ==> c.fd !in m'.open)
  }

  lemma FilingKept(m: State, r: Request, front: seq<Request>, tail: seq<Request>, retval: int, conn: Request?)
    requires r in m.ctl
    requires conn != null <==> retval == 0 && !StillSending(m.ctl[r]) && KeepsAlive(m.ctl[r]) && HasRoom(m)
    ensures KeptAlive(m, r, retval, conn, Filing(m, r, front, tail, retval, conn))
  {
    hide WaitOf;
  }

  /** What happens in a turn: the dispatch leaves the request as `c` and the state as `after`, `accepted` is
      admitted, which gives `mid`, and `conn` is the request under which the connection is kept. */
  datatype Turned = Turned(c: Control, after: State, accepted: Request?, mid: State, conn: Request?)

  /** A turn of `r`, from `m` to `m'`: after SIGTERM no connection is kept. */
  ghost predicate Turns(m: State, r: Request, t: Turned, m': State, sent: Sent, a: Accept, retval: int) {
    && r in m.ctl && r in t.after.ctl && r in t.mid.ctl
    && Ruled(m.ctl[r], t.c, m.open, t.after.open, sent, retval)
    && t.mid.ctl[r] == t.after.ctl[r] == (if t.after.sigterm then t.c.(keepalive := KaStopped) else t.c)
    && Polled(t.after, a, t.accepted, t.mid)
    && Disposed(m', r, retval, m.ctl[r], t.mid.ctl[r]) && KeptAlive(t.mid, r, retval, t.conn, m')
  }

  lemma IsTurn(m: State, r: Request, t: Turned, m': State, sent: Sent, a: Accept, retval: int)
    requires r in m.ctl && r in t.after.ctl && r in t.mid.ctl
    requires Ruled(m.ctl[r], t.c, m.open, t.after.open, sent, retval)
    requires t.mid.ctl[r] == t.after.ctl[r] == (if t.after.sigterm then t.c.(keepalive := KaStopped) else t.c)
    requires Polled(t.after, a, t.accepted, t.mid)
    requires Disposed(m', r, retval, m.ctl[r], t.mid.ctl[r]) && KeptAlive(t.mid, r, retval, t.conn, m')
    ensures Turns(m, r, t, m', sent, a, retval)
  {
  }

  lemma VisitCalm(m0: State, m1: State, m2: State, m3: State, r: Request, serverFd: int)
    requires Calm(m0, m1, [r], serverFd) && Calm(m1, m2, [], serverFd) && Calm(m2, m3, [], serverFd)
    ensures Calm(m0, m3, [r], serverFd)
  {
    hide Over;
    CalmFor(m1, m2, [r], serverFd);
    CalmFor(m2, m3, [r], serverFd);
    CalmOn(m0, m1, m2, [r], serverFd);
    CalmOn(m0, m2, m3, [r], serverFd);
  }

  lemma TurnsOver(m: State, r: Request, t: Turned, m': State, sent: Sent, a: Accept, retval: int)
    requires Turns(m, r, t, m', sent, a, retval) && Lists(m')
    ensures MustEnd(m.ctl[r]) ==> Over(m', r)
  {
    hide Ruled, Polled, KeptAlive, Distinct;
  }

  // What comes to its end.

  /** The requests on `s` that had nothing more to do are over. */
  ghost predicate Ends(m: State, m': State, s: seq<Request>) {
    forall r :: r in s && r in m.ctl && MustEnd(m.ctl[r]) ==> Over(m', r)
  }

  ghost predicate SameControls(m: State, m': State, s: seq<Request>) {
    forall r :: r in s ==> r in m.ctl && r in m'.ctl && m'.ctl[r] == m.ctl[r]
  }

  lemma SparedFields(m: State, m': State, s: seq<Request>, t: seq<Request>)
    requires Spares(m, m', s) && forall r :: r in t ==> r in m.ready && r !in s
    ensures SameControls(m, m', t)
  {
    forall r | r in t ensures r in m.ctl && r in m'.ctl && m'.ctl[r] == m.ctl[r] { assert SameFile(m, m', r); }
  }

  /** One turn of the walk. */
  lemma EndsOn(m0: State, m1: State, m: State, start: seq<Request>, walked: seq<Request>, rest: seq<Request>,
      serverFd: int)
    requires start == walked + rest && rest != [] && Distinct(start) && (forall r :: r in rest ==> r in m1.ready)
    requires Ends(m0, m1, walked) && SameControls(m0, m1, rest) && Calm(m0, m1, start, serverFd)
    requires Calm(m1, m, [rest[0]], serverFd) && Spares(m1, m, [rest[0]])
    requires rest[0] in m1.ctl && (MustEnd(m1.ctl[rest[0]]) ==> Over(m, rest[0]))
    ensures Ends(m0, m, walked + [rest[0]]) && SameControls(m0, m, rest[1..]) && Calm(m0, m, start, serverFd)
  {
    Apart3(walked, rest);
    hide Over, MustEnd, Spares;
    SparedFields(m1, m, [rest[0]], rest[1..]);
  }

  lemma Apart3(walked: seq<Request>, rest: seq<Request>)
    requires rest != [] && Distinct(walked + rest)
    ensures rest[0] !in walked && rest[0] !in rest[1..] && rest[0] in walked + rest
    ensures forall r :: r in rest[1..] ==> r in rest
  {
    assert walked + [rest[0]] + rest[1..] == walked + rest;
    Unlinked(rest[0], walked, rest[1..]);
  }

  lemma EndsNone(m: State, s: seq<Request>, serverFd: int)
    requires Lists(m) && forall r :: r in s ==> r in m.ready
    ensures Ends(m, m, []) && SameControls(m, m, s) && Calm(m, m, s, serverFd)
  {
  }

  /** The pass begins with accepting a connection. */
  lemma PassEndsOn(m0: State, m1: State, m: State, serverFd: int)
    requires Spares(m0, m1, []) && Calm(m0, m1, [], serverFd) && (forall r :: r in m0.ready ==> r in m1.ready)
    requires Ends(m1, m, m1.ready) && Calm(m1, m, m1.ready, serverFd)
    ensures Ends(m0, m, m0.ready)
    ensures WaitRead(serverFd) in m.bits <==> WaitRead(serverFd) in m0.bits
  {
    SparedFields(m0, m1, [], m0.ready);
    hide Over, MustEnd, Spares;
  }

  // What is heard of new clients.

  /** The listening socket is to be watched. */
  predicate Open(m: State, maxConnections: int) { !m.sigterm && m.total < maxConnections - 10 }

  /** Some request that could be had has been admitted, and dispatched once. */
  ghost predicate Admitted(m: State, m': State) {
    exists conn :: Available(m, conn) && conn in m'.handled
                   && m'.handled[conn] == (if conn in m.handled then m.handled[conn] else 0) + 1
  }

  lemma AdmittedNow(m: State, a: Accept, conn: Request?, m1: State, m': State)
    requires Polled(m, a, conn, m1) && Counted(m1, m', m1.ready) && Lists(m)
    ensures m.pending && Usable(a, m.open) && HasRoom(m) ==> Admitted(m, m')
  {
    if conn != null {
      assert conn in m1.ready && conn in m1.handled;
      assert m'.handled[conn] == m1.handled[conn] + 1;
    }
    hide Usable, Distinct;
  }

  /** The bit of the listening socket is not touched by looking at the blocked requests. */
  lemma {:induction false} UpdatesCalm(m: State, front: seq<Request>, rest: seq<Request>, timedOut: set<Request>,
                                       serverFd: int)
    requires Looking(m, front, rest, serverFd)
    ensures WaitRead(serverFd) in Updates(m, front, rest, timedOut).bits <==> WaitRead(serverFd) in m.bits
    decreases |rest|
  {
    if rest != [] {
      var b := rest[0] in timedOut;
      UpdatingCalm(m, front, rest, b, serverFd);
      LookingOn(m, front, rest, b, serverFd);
      hide Looking, Updating, Kept;
      UpdatesCalm(Updating(m, rest[0], front, rest[1..], b), Kept(m, rest[0], front, b), rest[1..], timedOut, serverFd);
    }
  }

  lemma UpdatingCalm(m: State, front: seq<Request>, rest: seq<Request>, b: bool, serverFd: int)
    requires Looking(m, front, rest, serverFd) && rest != []
    ensures WaitRead(serverFd) in Updating(m, rest[0], front, rest[1..], b).bits <==> WaitRead(serverFd) in m.bits
  {
    var r := rest[0];
    HeadAndTail(rest);
    Live(m, r, serverFd);
    DeadWaitsForItsOwn(m.ctl[r], m.open, serverFd);
    WaitsForItsOwn(m.ctl[r], m.open, serverFd);
    assert serverFd !in Owned(m.ctl[r]);
    hide Looking, WaitOf, Owned, GoodControl;
  }

  // One iteration of the loop.

  /** What ends between two selects: requests that were DEAD, that have timed out, and those that were DONE
      and had nothing more to send. */
  ghost predicate RoundEnds(m: State, m': State, timedOut: set<Request>) {
    && (forall r :: r in m.ready && r in m.ctl && MustEnd(m.ctl[r]) ==> Over(m', r))
    && (forall r :: r in m.blocked && r in m.ctl && (r in timedOut || m.ctl[r].status == Dead) ==> Over(m', r))
    && (forall r :: r in m.blocked && r in m.ctl && MustEnd(m.ctl[r]) && WaitOf(m.ctl[r]) in m.bits ==> Over(m', r))
  }

  /** The listening socket is watched if it is to be, and otherwise exactly if select has just found it
      readable; a connection that is pending is accepted. */
  ghost predicate Listens(m: State, m': State, a: Accept, serverFd: int, maxConnections: int) {
    && (WaitRead(serverFd) in m'.bits <==>
          (!m'.sigterm && m'.total < maxConnections - 10) || WaitRead(serverFd) in m.bits)
    && (!m'.sigterm && m'.total < maxConnections - 10 ==> serverFd <= m'.maxFd)
    && (m.pending && Usable(a, m.open) && (m.free != [] || m.memory > 0) ==> Admitted(m, m'))
  }

  lemma RoundEndsNow(m: State, m1: State, m': State, timedOut: set<Request>, serverFd: int)
    requires Sound(m, serverFd) && FiledBut(m, m.ready) && forall r :: r in m.blocked ==> r in m.ctl
    requires m1 == Updates(m.(maxFd := -1), [], m.blocked, timedOut) && Ends(m1, m', m1.ready)
    ensures RoundEnds(m, m', timedOut)
  {
    var m0 := m.(maxFd := -1);
    ResetLooks(m, serverFd);
    SoundMeans(m, serverFd);
    UpdatesSpare(m0, [], m.blocked, timedOut, serverFd);
    ReadyStays(m, m1);
    forall r | r in m.blocked
      ensures (r in timedOut || m.ctl[r].status == Dead) ==> Over(m', r)
      ensures MustEnd(m.ctl[r]) && WaitOf(m.ctl[r]) in m.bits ==> Over(m', r)
    {
      UpdatesLook(m0, [], m.blocked, timedOut, serverFd, r);
      hide Looking, Sound, FiledBut, Lists, Updates, Over, WaitOf;
    }
    hide Looking, Sound, FiledBut, Lists, Updates, Over;
  }

  lemma ReadyStays(m: State, m1: State)
    requires Lists(m)
    ensures forall r :: r in m.ready ==> r !in m.blocked && r in m.ctl
  {
  }

  lemma ListensNow(m: State, m1: State, m2: State, m': State, a: Accept, timedOut: set<Request>, serverFd: int,
                   maxConnections: int)
    requires Sound(m, serverFd) && FiledBut(m, m.ready) && forall r :: r in m.blocked ==> r in m.ctl
    requires m1 == Updates(m.(maxFd := -1), [], m.blocked, timedOut)
    requires WaitRead(serverFd) in m2.bits <==> WaitRead(serverFd) in m1.bits
    requires m1.pending && Usable(a, m1.open) && HasRoom(m1) ==> Admitted(m1, m2)
    requires m' == Heard(m2, m'.sigterm, serverFd, maxConnections)
    ensures Listens(m, m', a, serverFd, maxConnections)
  {
    UpdatedCalm(m, m1, timedOut, serverFd);
    hide *;
    HeardMeans(m2, m', serverFd, maxConnections);
    if m.pending && Usable(a, m.open) && HasRoom(m) {
      SameRoom(m, m1);
      AdmittedSince(m, m1, m2, m');
    }
    IsListening(m, m', a, serverFd, maxConnections);
  }

  lemma UpdatedCalm(m: State, m1: State, timedOut: set<Request>, serverFd: int)
    requires Sound(m, serverFd) && FiledBut(m, m.ready) && forall r :: r in m.blocked ==> r in m.ctl
    requires m1 == Updates(m.(maxFd := -1), [], m.blocked, timedOut)
    ensures m1.pending == m.pending && m1.open == m.open && m1.free == m.free && m1.memory == m.memory
    ensures m1.handled == m.handled && m1.ctl.Keys == m.ctl.Keys
    ensures WaitRead(serverFd) in m1.bits <==> WaitRead(serverFd) in m.bits
  {
    var m0 := m.(maxFd := -1);
    ResetLooks(m, serverFd);
    UpdatesSpare(m0, [], m.blocked, timedOut, serverFd);
    UpdatesCalm(m0, [], m.blocked, timedOut, serverFd);
    hide *;
  }

  lemma HeardMeans(m: State, m': State, serverFd: int, maxConnections: int)
    requires m' == Heard(m, m'.sigterm, serverFd, maxConnections)
    ensures WaitRead(serverFd) in m'.bits <==> Open(m', maxConnections) || WaitRead(serverFd) in m.bits
    ensures (Open(m', maxConnections) ==> serverFd <= m'.maxFd) && m'.handled == m.handled
  {
  }

  lemma SameRoom(m: State, m1: State)
    requires m1.free == m.free && m1.memory == m.memory
    ensures HasRoom(m1) == HasRoom(m)
  {
  }

  lemma AdmittedSince(m: State, m1: State, m2: State, m': State)
    requires m1.free == m.free && m1.memory == m.memory && m1.ctl.Keys == m.ctl.Keys && m1.handled == m.handled
    requires Admitted(m1, m2) && m'.handled == m2.handled
    ensures Admitted(m, m')
  {
    var conn :| Available(m1, conn) && conn in m2.handled
                && m2.handled[conn] == (if conn in m1.handled then m1.handled[conn] else 0) + 1;
    assert Available(m, conn);
  }

  lemma IsListening(m: State, m': State, a: Accept, serverFd: int, maxConnections: int)
    requires WaitRead(serverFd) in m'.bits <==> Open(m', maxConnections) || WaitRead(serverFd) in m.bits
    requires Open(m', maxConnections) ==> serverFd <= m'.maxFd
    requires m.pending && Usable(a, m.open) && HasRoom(m) ==> Admitted(m, m')
    ensures Listens(m, m', a, serverFd, maxConnections)
  {
  }

  /** The end of an iteration: the listening socket is watched, if SIGTERM has not arrived and there is
      room for another connection. */
  function Heard(m: State, sigterm: bool, serverFd: int, maxConnections: int): State {
    var m1 := m.(sigterm := sigterm);
    if Open(m1, maxConnections) then Watching(m1, WaitRead(serverFd)) else m1
  }

  lemma HeardKeeps(m: State, sigterm: bool, serverFd: int, maxConnections: int)
    requires Walking(m, serverFd, [])
    ensures var m' := Heard(m, sigterm, serverFd, maxConnections);
      Walking(m', serverFd, []) && Counted(m, m', []) && Spares(m, m', [])
      && forall r :: r in m.ctl && Over(m, r) ==> Over(m', r)
  {
    var m1 := m.(sigterm := sigterm);
    SameFlags(m, m1, serverFd, []);
    hide Walking, Counted, Spares;
    if Open(m1, maxConnections) {
      ServerWatched(m1, serverFd);
      PassEnds(m, m1, Watching(m1, WaitRead(serverFd)), []);
    }
  }

  lemma EndsLater(m: State, m1: State, m': State, s: seq<Request>)
    requires Ends(m, m1, s) && forall r :: r in m1.ctl && Over(m1, r) ==> Over(m', r)
    ensures Ends(m, m', s)
  {
    hide MustEnd;
  }

  // A run of the loop.

  /** What the world does between two selects and at the second: which requests time out, what accept
      answers first, and whether select is interrupted. */
  datatype Choice = Choice(timedOut: set<Request>, accept: Accept, interrupted: bool)

  /** One iteration: `m` is what a select left, `seen` the state at the next and `left` what that leaves. */
  ghost predicate Iteration(m: State, seen: State, left: State, c: Choice, serverFd: int, maxConnections: int) {
    && Walking(seen, serverFd, []) && RoundDone(m, seen, c.timedOut) && RoundEnds(m, seen, c.timedOut)
    && Listens(m, seen, c.accept, serverFd, maxConnections) && Selected(seen, left, c.interrupted, serverFd)
  }

  /** `seen` are the states at the calls of select and `left` what those leave: each is reached from the one
      before, the first from `start`. */
  ghost predicate Trace(start: State, seen: seq<State>, left: seq<State>, choices: seq<Choice>, serverFd: int,
                        maxConnections: int) {
    && |seen| == |left| == |choices|
    && forall i :: 0 <= i < |seen| ==>
         Iteration(Before(start, left, i), seen[i], left[i], choices[i], serverFd, maxConnections)
  }

  /** Where the round before select number `i` begins. */
  ghost function Before(start: State, left: seq<State>, i: nat): State
    requires i <= |left|
  {
    if i == 0 then start else left[i - 1]
  }

  lemma NoTrace(start: State, serverFd: int, maxConnections: int)
    ensures Trace(start, [], [], [], serverFd, maxConnections) && Before(start, [], 0) == start
  {
  }

  lemma TraceOn(start: State, seen: seq<State>, left: seq<State>, choices: seq<Choice>, serverFd: int,
                maxConnections: int, s: State, l: State, c: Choice)
    requires Trace(start, seen, left, choices, serverFd, maxConnections)
    requires Iteration(Before(start, left, |left|), s, l, c, serverFd, maxConnections)
    ensures Trace(start, seen + [s], left + [l], choices + [c], serverFd, maxConnections)
    ensures Before(start, left + [l], |left| + 1) == l
  {
    hide Iteration;
    var seen', left', choices' := seen + [s], left + [l], choices + [c];
    forall i | 0 <= i < |seen'|
      ensures Iteration(Before(start, left', i), seen'[i], left'[i], choices'[i], serverFd, maxConnections)
    {
      assert Before(start, left', i) == Before(start, left, i);
      if i < |seen| { assert seen'[i] == seen[i] && left'[i] == left[i] && choices'[i] == choices[i]; }
    }
  }

  lemma IsIteration(m: State, seen: State, left: State, c: Choice, serverFd: int, maxConnections: int)
    requires Walking(seen, serverFd, []) && RoundDone(m, seen, c.timedOut) && RoundEnds(m, seen, c.timedOut)
    requires Listens(m, seen, c.accept, serverFd, maxConnections) && Selected(seen, left, c.interrupted, serverFd)
    ensures Iteration(m, seen, left, c, serverFd, maxConnections)
  {
  }
}
