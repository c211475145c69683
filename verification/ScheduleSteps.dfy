/** Every step of the scheduler keeps its state sound. */
module ScheduleSteps {
  import opened Handlers
  import opened Schedule

  lemma ListsWithout(m: State, which: Which, req: Request, front: seq<Request>, tail: seq<Request>)
    requires Lists(m) && ListOf(m, which) == front + [req] + tail
    ensures Lists(With(m, which, front + tail)) && Loose(With(m, which, front + tail), req)
  {
    Unlinked(req, front, tail);
  }

  lemma ListsWith(m: State, which: Which, req: Request)
    requires Lists(m) && Loose(m, req)
    ensures Lists(With(m, which, [req] + ListOf(m, which))) && req !in ListOf(m, which)
  {
  }

  /** Taking one request off a list without repetitions. */
  lemma Unlinked(req: Request, front: seq<Request>, tail: seq<Request>)
    requires Distinct(front + [req] + tail)
    ensures Distinct(front + tail) && req !in front && req !in tail && req in front + [req] + tail
    ensures forall r :: r in front + tail ==> r in front + [req] + tail
    ensures forall r :: r in front + [req] + tail && r != req ==> r in front + tail
  {
    var s := front + [req] + tail;
    assert s[|front|] == req;
    forall i | 0 <= i < |front| ensures front[i] != req { assert s[i] == front[i]; }
    forall i | 0 <= i < |tail| ensures tail[i] != req { assert s[|front| + 1 + i] == tail[i]; }
    var t := front + tail;
    forall i, j | 0 <= i < j < |t| ensures t[i] != t[j] {
      assert t[i] == s[if i < |front| then i else i + 1] && t[j] == s[if j < |front| then j else j + 1];
    }
  }

  /** Changing what one request owns, by closing its descriptors and opening new ones. */
  lemma UpdateKeepsDescriptors(view: map<Request, Control>, r: Request, c: Control,
                               open: set<int>, open': set<int>, serverFd: int)
    requires Descriptors(view, open, serverFd) && r in view
    requires GoodControl(c, open', serverFd)
    requires open - Owned(view[r]) <= open' && {0, 1, 2, serverFd} <= open'
    requires Owned(c) * open <= Owned(view[r])
    ensures Descriptors(view[r := c], open', serverFd)
  {
    var view' := view[r := c];
    forall q | q in view' ensures GoodControl(view'[q], open', serverFd) {
      if q != r { assert Owned(view[q]) !! Owned(view[r]); }
    }
    forall q, s | q in view' && s in view' && q != s ensures Owned(view'[q]) !! Owned(view'[s]) {
      var o := if q == r then s else q;
      if q == r || s == r { assert Owned(view[o]) !! Owned(view[r]) && Owned(view[o]) <= open; }
    }
  }

  /** Dropping a request and closing some of what it owns. */
  lemma DropKeepsDescriptors(view: map<Request, Control>, r: Request, open: set<int>, open': set<int>, serverFd: int)
    requires Descriptors(view, open, serverFd) && r in view
    requires open - Owned(view[r]) <= open' && {0, 1, 2, serverFd} <= open'
    ensures Descriptors(view - {r}, open', serverFd)
    ensures forall q :: q in view - {r} ==> Owned(view[q]) !! Owned(view[r])
  {
    forall q | q in view && q != r ensures GoodControl(view[q], open', serverFd) {
      assert Owned(view[q]) !! Owned(view[r]);
    }
  }

  /** Adding a request for a descriptor nobody owns. */
  lemma AddKeepsDescriptors(view: map<Request, Control>, r: Request, c: Control, open: set<int>, serverFd: int)
    requires Descriptors(view, open, serverFd) && r !in view
    requires GoodControl(c, open, serverFd)
    requires forall q :: q in view ==> Owned(view[q]) !! Owned(c)
    ensures Descriptors(view[r := c], open, serverFd)
  {
  }

  /** Adding a request for a descriptor that was not open. */
  lemma NewDescriptor(view: map<Request, Control>, r: Request, c: Control, open: set<int>, serverFd: int)
    requires Descriptors(view, open, serverFd) && r !in view
    requires c.dataFd == c.postDataFd == 0 && c.status == ReadHeader && 2 < c.fd && c.fd !in open && 0 <= c.kacount
    ensures Descriptors(view[r := c], open + {c.fd}, serverFd)
  {
    forall q | q in view ensures GoodControl(view[q], open + {c.fd}, serverFd) && c.fd !in Owned(view[q]) {}
    AddKeepsDescriptors(view, r, c, open + {c.fd}, serverFd);
  }

  /** The blocked requests, their reasons, what they wait for and the bits are the same. */
  ghost predicate SameBlocked(m: State, m': State) {
    && m'.blocked == m.blocked && m'.bits == m.bits && m'.strays == m.strays && m'.maxFd == m.maxFd
    && forall r :: r in m.blocked ==>
         r in m.ctl && r in m'.ctl && m'.ctl[r] == m.ctl[r] && r in m.last && r in m'.last && m'.last[r] == m.last[r]
  }

  lemma SameBlockedKeeps(m: State, m': State, serverFd: int)
    requires AllExplained(m) && BitsAccounted(m, serverFd) && AllWatched(m) && SameBlocked(m, m')
    ensures AllExplained(m') && BitsAccounted(m', serverFd) && AllWatched(m')
  {
    hide WaitOf, Explained;
    forall w | w in m'.bits && w != WaitRead(serverFd) && w !in m'.strays ensures WaitedFor(m', w) {
      assert WaitedFor(m, w);
    }
  }

  /** Only what is known of the ready request `r`, and the table of descriptors, has changed. */
  ghost predicate Puts(m: State, r: Request, c: Control, m': State) {
    && m'.ready == m.ready && m'.blocked == m.blocked && m'.free == m.free && m'.total == m.total
    && m'.bits == m.bits && m'.strays == m.strays && m'.maxFd == m.maxFd
    && m'.ctl == m.ctl[r := c] && m'.last.Keys == m.last.Keys && m'.handled.Keys == m.handled.Keys
    && forall q :: q in m.last && q != r ==> m'.last[q] == m.last[q]
  }

  /** The descriptors of `r` may have been closed and others opened. */
  ghost predicate Reopens(c: Control, c': Control, open: set<int>, open': set<int>, serverFd: int) {
    && GoodControl(c', open', serverFd) && {0, 1, 2, serverFd} <= open'
    && open - Owned(c) <= open' && Owned(c') * open <= Owned(c)
  }

  lemma SoundMeans(m: State, serverFd: int)
    requires Sound(m, serverFd)
    ensures Lists(m) && m.total == |m.ready| + |m.blocked|
    ensures Descriptors(View(m), m.open, serverFd) && AllExplained(m) && BitsAccounted(m, serverFd)
  {
  }

  lemma IsSound(m: State, serverFd: int)
    requires Lists(m) && m.total == |m.ready| + |m.blocked|
    requires Descriptors(View(m), m.open, serverFd) && AllExplained(m) && BitsAccounted(m, serverFd)
    ensures Sound(m, serverFd)
  {
  }

  lemma PutsInLists(m: State, r: Request, c: Control, m': State)
    requires Lists(m) && r in m.ready && Puts(m, r, c, m')
    ensures Lists(m') && m'.total == m.total && |m'.ready| + |m'.blocked| == |m.ready| + |m.blocked|
    ensures SameBlocked(m, m')
    ensures r in View(m) && r in m.ctl && View(m)[r] == m.ctl[r] && View(m') == View(m)[r := c]
  {
    hide Distinct;
  }

  lemma PutsFiles(m: State, r: Request, c: Control, m': State, rest: seq<Request>)
    requires Lists(m) && r in m.ready && Puts(m, r, c, m') && FiledBut(m, rest) && (r in rest || Filed(m', r))
    ensures FiledBut(m', rest)
  {
    hide Distinct;
    forall q | q in m'.ctl && q !in rest ensures Filed(m', q) {
      if q != r { assert Filed(m, q); }
    }
  }

  lemma PutsOwned(view: map<Request, Control>, r: Request, c: Control, open: set<int>, open': set<int>, serverFd: int)
    requires Descriptors(view, open, serverFd) && r in view && Reopens(view[r], c, open, open', serverFd)
    ensures Descriptors(view[r := c], open', serverFd)
  {
    hide Descriptors, GoodControl, Owned;
    UpdateKeepsDescriptors(view, r, c, open, open', serverFd);
  }

  /** Changing a ready request's control and its descriptors. */
  lemma PutKeeps(m: State, r: Request, c: Control, m': State, serverFd: int, rest: seq<Request>)
    requires Sound(m, serverFd) && AllWatched(m) && FiledBut(m, rest) && r in m.ready && r in m.ctl
    requires Puts(m, r, c, m') && Reopens(m.ctl[r], c, m.open, m'.open, serverFd) && (r in rest || Filed(m', r))
    ensures Sound(m', serverFd) && AllWatched(m') && FiledBut(m', rest)
  {
    hide *;
    SoundMeans(m, serverFd);
    PutsInLists(m, r, c, m');
    PutsOwned(View(m), r, c, m.open, m'.open, serverFd);
    SameBlockedKeeps(m, m', serverFd);
    PutsFiles(m, r, c, m', rest);
    IsSound(m', serverFd);
  }

  /** A dispatch that touches only the descriptors of its own request. */
  lemma DispatchingKeeps(m: State, r: Request, c: Control, open: set<int>, retval: int, serverFd: int,
      rest: seq<Request>)
    requires Sound(m, serverFd) && AllWatched(m) && FiledBut(m, rest) && r in m.ready && r in rest
    requires Dispatched(m.ctl[r], c, m.open, open, serverFd, retval)
    ensures var m' := Dispatching(m, r, c, open, retval);
      Sound(m', serverFd) && AllWatched(m') && FiledBut(m', rest)
  {
    hide Descriptors, AllExplained, BitsAccounted, AllWatched, FiledBut, GoodControl, Owned, WaitOf, Explained,
         EagainSource, Distinct;
    var m' := Dispatching(m, r, c, open, retval);
    assert Puts(m, r, c, m');
    PutKeeps(m, r, c, m', serverFd, rest);
  }

  lemma Live(m: State, r: Request, serverFd: int)
    requires Sound(m, serverFd) && (r in m.ready || r in m.blocked)
    ensures r in m.ctl && r in m.last && r in m.handled && r in View(m) && View(m)[r] == m.ctl[r]
    ensures GoodControl(m.ctl[r], m.open, serverFd) && {0, 1, 2, serverFd} <= m.open
  {
    assert View(m)[r] == m.ctl[r];
    hide GoodControl, Owned, Explained, WaitOf, BitsAccounted, AllExplained, Distinct;
  }

  /** Changing fields of a ready request other than its descriptors. */
  lemma PuttingKeeps(m: State, r: Request, c: Control, serverFd: int, rest: seq<Request>)
    requires Sound(m, serverFd) && AllWatched(m) && FiledBut(m, rest) && r in m.ready && r in m.ctl
    requires c == m.ctl[r].(status := c.status, keepalive := c.keepalive)
    requires c.status == m.ctl[r].status || c.status == Done
    requires r in rest || Filed(Putting(m, r, c), r)
    ensures var m' := Putting(m, r, c);
      Sound(m', serverFd) && AllWatched(m') && FiledBut(m', rest)
  {
    Live(m, r, serverFd);
    hide Sound, Lists, Descriptors, View, AllExplained, BitsAccounted, AllWatched, FiledBut, Filed;
    var m' := Putting(m, r, c);
    assert Reopens(m.ctl[r], c, m.open, m'.open, serverFd);
    hide Reopens;
    KeysAgree(m, serverFd);
    assert Puts(m, r, c, m');
    PutKeeps(m, r, c, m', serverFd, rest);
  }

  lemma KeysAgree(m: State, serverFd: int)
    requires Sound(m, serverFd)
    ensures m.last.Keys == m.handled.Keys == m.ctl.Keys
  {
  }

  /** A request pushed on the ready or the blocked list is live. */
  lemma Pushed(m: State, which: Which, r: Request)
    requires Lists(m) && Loose(m, r)
    ensures var m' := With(m, which, [r] + ListOf(m, which));
      Lists(m') && View(m') == if which == Free then View(m) else View(m)[r := m.ctl[r]]
    ensures r !in View(m)
  {
    ListsWith(m, which, r);
    hide Distinct;
  }

  /** A request taken off the ready or the blocked list is not. */
  lemma Pulled(m: State, which: Which, r: Request, front: seq<Request>, tail: seq<Request>)
    requires Lists(m) && ListOf(m, which) == front + [r] + tail && which != Free
    ensures var m' := With(m, which, front + tail);
      Lists(m') && Loose(m', r) && View(m') == View(m) - {r}
    ensures r in View(m) && r in m.ctl && View(m)[r] == m.ctl[r]
  {
    ListsWithout(m, which, r, front, tail);
    Unlinked(r, front, tail);
    hide Distinct;
  }

  lemma SameListsKeep(m: State, m': State)
    requires Lists(m)
    requires m'.ready == m.ready && m'.blocked == m.blocked && m'.free == m.free
    requires m'.ctl == m.ctl && m'.last == m.last && m'.handled == m.handled
    ensures Lists(m') && View(m') == View(m)
    ensures forall r :: Loose(m, r) ==> Loose(m', r)
  {
    hide Distinct;
  }

  // Accepting a connection.

  lemma TakingLists(m: State, r: Request, c: Control, l: Last)
    requires Lists(m) && Available(m, r)
    ensures Lists(Taking(m, r, c, l)) && Loose(Taking(m, r, c, l), r)
    ensures r !in m.ready && r !in m.blocked && r !in View(m)
    ensures View(Taking(m, r, c, l)) == View(m)
  {
  }

  lemma TakenIsLoose(m: State, r: Request)
    requires Lists(m) && Available(m, r)
    ensures Loose(Taking(m, r, CLEARED, Accepted), r)
  {
    TakingLists(m, r, CLEARED, Accepted);
  }

  lemma TakenFor(m: State, r: Request, c: Control, l: Last)
    ensures var t := Putting(Taking(m, r, CLEARED, Accepted), r, c);
      t.(last := t.last[r := l], handled := t.handled[r := t.handled[r]]) == Taking(m, r, c, l)
    ensures Loose(Taking(m, r, CLEARED, Accepted), r) ==> Loose(Taking(m, r, c, l), r)
  {
    var t := Taking(m, r, CLEARED, Accepted);
    assert t.handled[r := t.handled[r]] == t.handled;
    assert t.ctl[r := c] == m.ctl[r := c];
    assert t.last[r := l] == m.last[r := l];
  }

  lemma RenewedWait(c: Control)
    ensures WaitOf(Renewed(c)) == WaitRead(c.fd)
  {
  }

  lemma DetachedMeans(m: State, r: Request, front: seq<Request>, tail: seq<Request>)
    requires r in m.ctl
    ensures var m' := Detaching(m, r, front, tail);
      m'.ctl == m.ctl && m'.free == m.free && m'.memory == m.memory
  {
  }

  /** Taking a request for one connection leaves the request of another off the lists. */
  lemma TakenBeside(m: State, conn: Request, c: Control, l: Last, r: Request)
    requires Lists(m) && Available(m, conn) && Loose(m, r)
    ensures var t := Taking(m, conn, c, l);
      Loose(t, conn) && Loose(With(t, Blocked, [conn] + t.blocked), r)
      && Loose(Watching(With(t, Blocked, [conn] + t.blocked), WaitOf(c)), r)
  {
    TakingLists(m, conn, c, l);
    hide Distinct, WaitOf;
  }

  lemma AdmittingLists(m: State, r: Request, fd: int, kaMax: int)
    requires Lists(m) && Available(m, r) && m.total == |m.ready| + |m.blocked|
    ensures var m' := Admitting(m, r, fd, kaMax);
      && Lists(m') && m'.total == |m'.ready| + |m'.blocked|
      && View(m') == View(m)[r := CLEARED.(fd := fd, kacount := kaMax)]
    ensures r !in View(m)
  {
    hide Lists, Available, Loose, View;
    var t := Taking(m, r, CLEARED.(fd := fd, kacount := kaMax), Accepted);
    TakingLists(m, r, CLEARED.(fd := fd, kacount := kaMax), Accepted);
    Pushed(t, Ready, r);
    SameListsKeep(With(t, Ready, [r] + t.ready), Admitting(m, r, fd, kaMax));
  }

  /** Where a request is, and why, has not changed. */
  ghost predicate SameFile(m: State, m': State, r: Request) {
    && r in m.ctl && r in m.last && r in m'.ctl && r in m'.last && m'.ctl[r] == m.ctl[r] && m'.last[r] == m.last[r]
    && (r in m.ready ==> r in m'.ready) && (r in m.blocked ==> r in m'.blocked) && (r in m.free ==> r in m'.free)
  }

  lemma SameFileKeeps(m: State, m': State, r: Request)
    requires SameFile(m, m', r) && Filed(m, r)
    ensures Filed(m', r)
  {
  }

  lemma AdmittingFiles(m: State, r: Request, fd: int, kaMax: int, rest: seq<Request>)
    requires Lists(m) && Available(m, r) && FiledBut(m, rest)
    ensures FiledBut(Admitting(m, r, fd, kaMax), rest) && SameBlocked(m, Admitting(m, r, fd, kaMax))
  {
    var m' := Admitting(m, r, fd, kaMax);
    hide Distinct;
    forall q | q in m'.ctl && q !in rest ensures Filed(m', q) {
      if q != r {
        assert SameFile(m, m', q);
        SameFileKeeps(m, m', q);
      }
    }
  }

  /** An accepted connection has a descriptor nobody owns, and is ready. */
  lemma AdmittingKeeps(m: State, r: Request, fd: int, kaMax: int, serverFd: int, rest: seq<Request>)
    requires Sound(m, serverFd) && AllWatched(m) && FiledBut(m, rest)
    requires Available(m, r) && 2 < fd && fd !in m.open && 0 <= kaMax
    ensures var m' := Admitting(m, r, fd, kaMax);
      Sound(m', serverFd) && AllWatched(m') && FiledBut(m', rest)
  {
    hide Sound, Lists, Descriptors, View, AllExplained, BitsAccounted, AllWatched, FiledBut, Available, SameBlocked;
    var m' := Admitting(m, r, fd, kaMax);
    SoundMeans(m, serverFd);
    AdmittingLists(m, r, fd, kaMax);
    NewDescriptor(View(m), r, CLEARED.(fd := fd, kacount := kaMax), m.open, serverFd);
    AdmittingFiles(m, r, fd, kaMax, rest);
    SameBlockedKeeps(m, m', serverFd);
    IsSound(m', serverFd);
  }

  // Blocking a request.

  lemma BlockedKnown(m: State)
    requires Lists(m)
    ensures forall q :: q in m.blocked ==> q in m.ctl && q in m.last
  {
  }

  lemma ReadyIsNotBlocked(m: State, r: Request)
    requires Lists(m) && r in m.ready
    ensures r !in m.blocked
    ensures forall q :: q in m.blocked ==> q in m.ctl && q in m.last
  {
  }

  /** What is waited for and why, when one more request is blocked. */
  lemma OneMoreBlocked(m: State, m': State, conn: Request, serverFd: int)
    requires AllExplained(m) && BitsAccounted(m, serverFd) && AllWatched(m) && conn !in m.blocked
    requires m'.blocked == [conn] + m.blocked && conn in m'.ctl && conn in m'.last
    requires Explained(m'.ctl[conn], m'.last[conn])
    requires forall q :: q in m.blocked ==>
      q in m.ctl && q in m'.ctl && m'.ctl[q] == m.ctl[q] && q in m.last && q in m'.last && m'.last[q] == m.last[q]
    requires m'.bits == m.bits + {WaitOf(m'.ctl[conn])} && m'.maxFd == Raised(m.maxFd, WaitOf(m'.ctl[conn]).fd)
    requires m'.strays == m.strays
    ensures AllExplained(m') && BitsAccounted(m', serverFd) && AllWatched(m')
  {
    hide WaitOf, Explained;
    assert conn in m'.blocked;
    forall w | w in m'.bits && w != WaitRead(serverFd) && w !in m'.strays ensures WaitedFor(m', w) {
      if w != WaitOf(m'.ctl[conn]) {
        assert WaitedFor(m, w);
        var q :| q in m.blocked && q in m.ctl && WaitOf(m.ctl[q]) == w;
        assert q in m'.blocked;
      }
    }
  }

  lemma BlockingLists(m: State, r: Request, front: seq<Request>, tail: seq<Request>)
    requires Lists(m) && m.ready == front + [r] + tail && r in m.ctl
    ensures var m' := Blocking(m, r, front, tail);
      Lists(m') && View(m') == View(m) && |m'.ready| + |m'.blocked| == |m.ready| + |m.blocked|
  {
    hide Lists, Loose, View, WaitOf;
    var m1 := With(m, Ready, front + tail);
    Pulled(m, Ready, r, front, tail);
    Pushed(m1, Blocked, r);
    SameListsKeep(With(m1, Blocked, [r] + m.blocked), Blocking(m, r, front, tail));
    assert (View(m) - {r})[r := m.ctl[r]] == View(m);
  }

  lemma BlockingFiles(m: State, r: Request, front: seq<Request>, tail: seq<Request>)
    requires Lists(m) && FiledBut(m, [r] + tail) && m.ready == front + [r] + tail
    requires r in m.ctl && r in m.last && m.last[r].Stalled? && Explained(m.ctl[r], m.last[r])
    ensures FiledBut(Blocking(m, r, front, tail), tail)
  {
    var m' := Blocking(m, r, front, tail);
    Unlinked(r, front, tail);
    hide Distinct, WaitOf;
    forall q | q in m'.ctl && q !in tail ensures Filed(m', q) {
      if q != r {
        assert SameFile(m, m', q);
        SameFileKeeps(m, m', q);
      }
    }
  }

  /** A request whose last call would have blocked goes to wait for that call. */
  lemma BlockingKeeps(m: State, r: Request, front: seq<Request>, tail: seq<Request>, serverFd: int)
    requires Sound(m, serverFd) && AllWatched(m) && FiledBut(m, [r] + tail) && m.ready == front + [r] + tail
    requires r in m.ctl && r in m.last && m.last[r].Stalled? && Explained(m.ctl[r], m.last[r])
    ensures var m' := Blocking(m, r, front, tail);
      Sound(m', serverFd) && AllWatched(m') && FiledBut(m', tail)
  {
    hide Sound, Lists, Descriptors, View, AllExplained, BitsAccounted, AllWatched, FiledBut, Explained, WaitOf;
    SoundMeans(m, serverFd);
    BlockingLists(m, r, front, tail);
    assert m.ready[|front|] == r;
    ReadyIsNotBlocked(m, r);
    OneMoreBlocked(m, Blocking(m, r, front, tail), r, serverFd);
    BlockingFiles(m, r, front, tail);
    IsSound(Blocking(m, r, front, tail), serverFd);
  }

  // Freeing a request.

  lemma ClosingLists(m: State, r: Request, front: seq<Request>, tail: seq<Request>)
    requires Lists(m) && m.ready == front + [r] + tail && r in m.ctl && !StillSending(m.ctl[r])
    ensures var m' := Freeing(m, r, front, tail, null);
      Lists(m') && View(m') == View(m) - {r} && |m'.ready| + |m'.blocked| == |m.ready| + |m.blocked| - 1
    ensures r in View(m) && View(m)[r] == m.ctl[r]
  {
    hide Lists, Loose, View, StillSending;
    var m1 := With(m, Ready, front + tail);
    Pulled(m, Ready, r, front, tail);
    Pushed(m1, Free, r);
    SameListsKeep(With(m1, Free, [r] + m.free), Freeing(m, r, front, tail, null));
  }

  lemma KeepingLists(m: State, r: Request, front: seq<Request>, tail: seq<Request>, conn: Request)
    requires Lists(m) && m.ready == front + [r] + tail && r in m.ctl && !StillSending(m.ctl[r]) && Available(m, conn)
    ensures var m' := Freeing(m, r, front, tail, conn);
      && Lists(m') && View(m') == (View(m) - {r})[conn := Renewed(m.ctl[r])]
      && |m'.ready| + |m'.blocked| == |m.ready| + |m.blocked|
    ensures r in View(m) && View(m)[r] == m.ctl[r] && conn !in View(m) && conn != r
  {
    var c := m.ctl[r];
    hide Lists, Loose, View, StillSending, Available, Renewed;
    var m1 := With(m, Ready, front + tail);
    Pulled(m, Ready, r, front, tail);
    StillAvailable(m, m1, conn, r);
    var m2 := Taking(m1, conn, Renewed(c), Recycled(c.unparsed));
    TakingLists(m1, conn, Renewed(c), Recycled(c.unparsed));
    StillLoose(m1, conn, Renewed(c), Recycled(c.unparsed), r);
    Pushed(m2, Blocked, conn);
    var m3 := With(m2, Blocked, [conn] + m2.blocked);
    LooseBeside(m2, conn, r);
    Pushed(m3, Free, r);
    SameListsKeep(With(m3, Free, [r] + m3.free), Freeing(m, r, front, tail, conn));
  }

  lemma StillAvailable(m: State, m1: State, conn: Request, r: Request)
    requires Lists(m) && Available(m, conn) && r in m.ready
    requires m1.free == m.free && m1.ctl == m.ctl && m1.memory == m.memory
    ensures Available(m1, conn) && conn != r
  {
  }

  lemma StillLoose(m: State, conn: Request, c: Control, l: Last, r: Request)
    requires Lists(m) && Available(m, conn) && Loose(m, r) && conn != r
    ensures Loose(Taking(m, conn, c, l), r)
  {
  }

  lemma LooseBeside(m: State, conn: Request, r: Request)
    requires Loose(m, r) && conn != r
    ensures Loose(With(m, Blocked, [conn] + m.blocked), r)
  {
  }

  lemma RetiringFiles(m: State, r: Request, front: seq<Request>, tail: seq<Request>, conn: Request?)
    requires Lists(m) && FiledBut(m, [r] + tail) && m.ready == front + [r] + tail
    requires r in m.ctl && r in m.last && m.last[r] == Ended && !StillSending(m.ctl[r])
    requires conn == null || Available(m, conn)
    ensures FiledBut(Freeing(m, r, front, tail, conn), tail)
  {
    var m' := Freeing(m, r, front, tail, conn);
    Unlinked(r, front, tail);
    hide Distinct, StillSending;
    forall q | q in m'.ctl && q !in tail ensures Filed(m', q) {
      if q != r && q != conn {
        assert SameFile(m, m', q);
        SameFileKeeps(m, m', q);
      }
    }
  }

  lemma KeepingBits(m: State, r: Request, front: seq<Request>, tail: seq<Request>, conn: Request, serverFd: int)
    requires Lists(m) && AllExplained(m) && BitsAccounted(m, serverFd) && AllWatched(m)
    requires r in m.ctl && !StillSending(m.ctl[r]) && Available(m, conn)
    ensures var m' := Freeing(m, r, front, tail, conn);
      AllExplained(m') && BitsAccounted(m', serverFd) && AllWatched(m')
  {
    hide Distinct, StillSending, AllExplained, BitsAccounted, AllWatched;
    OneMoreBlocked(m, Freeing(m, r, front, tail, conn), conn, serverFd);
  }

  lemma KeepingOwned(view: map<Request, Control>, r: Request, conn: Request, open: set<int>, open': set<int>,
                     serverFd: int)
    requires Descriptors(view, open, serverFd) && r in view && conn !in view && KeepsAlive(view[r])
    requires open' == open - IfOpen(view[r].dataFd) - IfOpen(view[r].postDataFd)
    ensures Descriptors((view - {r})[conn := Renewed(view[r])], open', serverFd)
  {
    assert GoodControl(view[r], open, serverFd);
    DropKeepsDescriptors(view, r, open, open', serverFd);
    AddKeepsDescriptors(view - {r}, conn, Renewed(view[r]), open', serverFd);
  }

  lemma ClosingOwned(view: map<Request, Control>, r: Request, open: set<int>, open': set<int>, serverFd: int)
    requires Descriptors(view, open, serverFd) && r in view
    requires open' == open - IfOpen(view[r].dataFd) - IfOpen(view[r].postDataFd) - {view[r].fd}
    ensures Descriptors(view - {r}, open', serverFd)
  {
    assert GoodControl(view[r], open, serverFd);
    DropKeepsDescriptors(view, r, open, open', serverFd);
  }

  lemma ClosingKeeps(m: State, r: Request, front: seq<Request>, tail: seq<Request>, serverFd: int)
    requires Sound(m, serverFd) && AllWatched(m) && FiledBut(m, [r] + tail) && m.ready == front + [r] + tail
    requires r in m.ctl && r in m.last && m.last[r] == Ended && !StillSending(m.ctl[r])
    ensures var m' := Freeing(m, r, front, tail, null);
      Sound(m', serverFd) && AllWatched(m') && FiledBut(m', tail)
  {
    hide Sound, Lists, Descriptors, View, AllExplained, BitsAccounted, AllWatched, FiledBut, StillSending;
    var m' := Freeing(m, r, front, tail, null);
    SoundMeans(m, serverFd);
    ClosingLists(m, r, front, tail);
    ClosingOwned(View(m), r, m.open, m'.open, serverFd);
    SameBlockedKeeps(m, m', serverFd) by { BlockedKnown(m); }
    RetiringFiles(m, r, front, tail, null);
    IsSound(m', serverFd);
  }

  lemma KeepingKeeps(m: State, r: Request, front: seq<Request>, tail: seq<Request>, conn: Request, serverFd: int)
    requires Sound(m, serverFd) && AllWatched(m) && FiledBut(m, [r] + tail) && m.ready == front + [r] + tail
    requires r in m.ctl && r in m.last && m.last[r] == Ended && !StillSending(m.ctl[r]) && KeepsAlive(m.ctl[r])
    requires Available(m, conn)
    ensures var m' := Freeing(m, r, front, tail, conn);
      Sound(m', serverFd) && AllWatched(m') && FiledBut(m', tail)
  {
    hide Sound, Lists, Descriptors, View, AllExplained, BitsAccounted, AllWatched, FiledBut, StillSending,
         Available, Renewed, KeepsAlive;
    var m' := Freeing(m, r, front, tail, conn);
    SoundMeans(m, serverFd);
    KeepingLists(m, r, front, tail, conn);
    KeepingOwned(View(m), r, conn, m.open, m'.open, serverFd);
    KeepingBits(m, r, front, tail, conn, serverFd);
    RetiringFiles(m, r, front, tail, conn);
    IsSound(m', serverFd);
  }

  /** A finished request is freed, and its connection closed or kept, unless it is still sending. */
  lemma FreeingKeeps(m: State, r: Request, front: seq<Request>, tail: seq<Request>, conn: Request?, serverFd: int)
    requires Sound(m, serverFd) && AllWatched(m) && FiledBut(m, [r] + tail) && m.ready == front + [r] + tail
    requires r in m.ctl && r in m.last && m.last[r] == Ended
    requires conn == null || (!StillSending(m.ctl[r]) && KeepsAlive(m.ctl[r]) && Available(m, conn))
    ensures var m' := Freeing(m, r, front, tail, conn);
      Sound(m', serverFd) && AllWatched(m') && FiledBut(m', tail)
  {
    hide Sound, AllWatched, FiledBut, Available, KeepsAlive;
    if StillSending(m.ctl[r]) {
      var m' := Freeing(m, r, front, tail, null);
      assert r in m.ready && r in [r] + tail;
      PuttingKeeps(m, r, m.ctl[r].(status := Done), serverFd, [r] + tail);
      assert Filed(m', r);
      FiledToo(m', r, tail);
    } else if conn == null {
      ClosingKeeps(m, r, front, tail, serverFd);
    } else {
      KeepingKeeps(m, r, front, tail, conn, serverFd);
    }
  }

  lemma FiledToo(m: State, r: Request, tail: seq<Request>)
    requires FiledBut(m, [r] + tail) && Filed(m, r)
    ensures FiledBut(m, tail)
  {
  }

  // Looking at the blocked requests after a select.

  lemma NoTimeOut(m: State, r: Request)
    requires r in m.ctl
    ensures Putting(m, r, TimedOut(m.ctl[r], false)).(strays := m.strays + Left(m, m.ctl[r], false)) == m
  {
    assert m.ctl[r := m.ctl[r]] == m.ctl && m.strays + {} == m.strays;
  }

  lemma WakingLists(m: State, r: Request, c: Control, front: seq<Request>, tail: seq<Request>)
    requires Lists(m) && m.blocked == front + [r] + tail && r in m.ctl
    ensures var m' := Waking(Putting(m, r, c), r, front, tail);
      Lists(m') && View(m') == View(m)[r := c] && |m'.ready| + |m'.blocked| == |m.ready| + |m.blocked|
    ensures r in View(m) && View(m)[r] == m.ctl[r]
  {
    hide Lists, Loose, View, WaitOf;
    var m1 := With(m, Blocked, front + tail);
    Pulled(m, Blocked, r, front, tail);
    PuttingLoose(m1, r, c);
    var m2 := Putting(m1, r, c);
    Pushed(m2, Ready, r);
    SameListsKeep(With(m2, Ready, [r] + m2.ready), Waking(Putting(m, r, c), r, front, tail));
    assert (View(m) - {r})[r := c] == View(m)[r := c];
  }

  lemma PuttingLoose(m: State, r: Request, c: Control)
    requires Lists(m) && Loose(m, r)
    ensures Lists(Putting(m, r, c)) && Loose(Putting(m, r, c), r) && View(Putting(m, r, c)) == View(m)
  {
    hide Distinct;
  }

  /** Blocked requests wait for different things. */
  ghost predicate WaitsApart(m: State) {
    forall q, r :: q in m.blocked && r in m.blocked && q != r ==>
      && q in m.ctl && r in m.ctl
      && WaitOf(m.ctl[q]) != WaitOf(m.ctl[r])
      && WaitOf(m.ctl[q]) != WaitOf(TimedOut(m.ctl[r], true))
      && WaitOf(TimedOut(m.ctl[q], true)) != WaitOf(TimedOut(m.ctl[r], true))
  }

  lemma WaitsDiffer(m: State, serverFd: int)
    requires Sound(m, serverFd)
    ensures WaitsApart(m)
  {
    hide BitsAccounted, AllExplained, Distinct, GoodControl, Owned, WaitOf;
    forall q, r | q in m.blocked && r in m.blocked && q != r
      ensures q in m.ctl && r in m.ctl && WaitOf(m.ctl[q]) != WaitOf(m.ctl[r])
           && WaitOf(m.ctl[q]) != WaitOf(TimedOut(m.ctl[r], true))
           && WaitOf(TimedOut(m.ctl[q], true)) != WaitOf(TimedOut(m.ctl[r], true))
    {
      assert q in View(m) && r in View(m);
      assert Owned(View(m)[q]) !! Owned(View(m)[r]);
      WaitsForItsOwn(m.ctl[q], m.open, serverFd);
      WaitsForItsOwn(m.ctl[r], m.open, serverFd);
      DeadWaitsForItsOwn(m.ctl[r], m.open, serverFd);
      DeadWaitsForItsOwn(m.ctl[q], m.open, serverFd);
    }
  }

  lemma DeadWaitsForItsOwn(c: Control, open: set<int>, serverFd: int)
    requires GoodControl(c, open, serverFd)
    ensures GoodControl(TimedOut(c, true), open, serverFd) && Owned(TimedOut(c, true)) == Owned(c)
    ensures WaitOf(TimedOut(c, true)).fd in Owned(c)
  {
  }

  lemma UpdatingFiles(m: State, r: Request, front: seq<Request>, tail: seq<Request>, b: bool)
    requires Lists(m) && FiledBut(m, m.ready) && m.blocked == front + [r] + tail && r in m.ctl
    ensures FiledBut(Updating(m, r, front, tail, b), Updating(m, r, front, tail, b).ready)
  {
    var m' := Updating(m, r, front, tail, b);
    Unlinked(r, front, tail);
    hide Distinct, WaitOf;
    forall q | q in m'.ctl && q !in m'.ready ensures Filed(m', q) {
      if q != r {
        assert SameFile(m, m', q);
        SameFileKeeps(m, m', q);
      } else {
        assert Filed(m, r);
      }
    }
  }

  /** What is waited for, when one request less is blocked. */
  lemma WakingBits(m: State, r: Request, front: seq<Request>, tail: seq<Request>, b: bool, serverFd: int)
    requires AllExplained(m) && BitsAccounted(m, serverFd) && WatchedAll(m, front) && WaitsApart(m)
    requires Distinct(m.blocked) && m.blocked == front + [r] + tail && r in m.ctl
    requires WokenBy(m, TimedOut(m.ctl[r], b))
    ensures var m' := Updating(m, r, front, tail, b);
      AllExplained(m') && BitsAccounted(m', serverFd) && WatchedAll(m', front)
  {
    Unlinked(r, front, tail);
    var m' := Updating(m, r, front, tail, b);
    hide WaitOf, Explained, Distinct;
    forall w | w in m'.bits && w != WaitRead(serverFd) && w !in m'.strays ensures WaitedFor(m', w) {
      assert WaitedFor(m, w);
      var q :| q in m.blocked && q in m.ctl && WaitOf(m.ctl[q]) == w;
      assert q in m'.blocked;
    }
  }

  lemma WatchingBits(m: State, r: Request, front: seq<Request>, tail: seq<Request>, serverFd: int)
    requires AllExplained(m) && BitsAccounted(m, serverFd) && WatchedAll(m, front)
    requires m.blocked == front + [r] + tail && r in m.ctl
    ensures var m' := Watching(m, WaitOf(m.ctl[r]));
      AllExplained(m') && BitsAccounted(m', serverFd) && WatchedAll(m', front + [r])
  {
    var m' := Watching(m, WaitOf(m.ctl[r]));
    hide WaitOf, Explained;
    assert m.blocked[|front|] == r;
    forall w | w in m'.bits && w != WaitRead(serverFd) && w !in m'.strays ensures WaitedFor(m', w) {
      if w != WaitOf(m.ctl[r]) {
        assert WaitedFor(m, w);
      }
    }
  }

  lemma UpdatedOwned(view: map<Request, Control>, r: Request, b: bool, open: set<int>, serverFd: int)
    requires Descriptors(view, open, serverFd) && r in view
    ensures Descriptors(view[r := TimedOut(view[r], b)], open, serverFd)
  {
    assert GoodControl(view[r], open, serverFd);
    DeadWaitsForItsOwn(view[r], open, serverFd);
    UpdateKeepsDescriptors(view, r, TimedOut(view[r], b), open, open, serverFd);
  }

  /** A blocked request that is dead or was selected becomes ready, any other is watched again. */
  lemma UpdatingKeeps(m: State, r: Request, front: seq<Request>, tail: seq<Request>, b: bool, serverFd: int)
    requires Sound(m, serverFd) && WatchedAll(m, front) && FiledBut(m, m.ready)
    requires m.blocked == front + [r] + tail && r in m.ctl
    ensures var m' := Updating(m, r, front, tail, b);
      && Sound(m', serverFd) && FiledBut(m', m'.ready)
      && WatchedAll(m', if WokenBy(m, TimedOut(m.ctl[r], b)) then front else front + [r])
  {
    var c := TimedOut(m.ctl[r], b);
    var m' := Updating(m, r, front, tail, b);
    hide Sound, Lists, Descriptors, View, AllExplained, BitsAccounted, WatchedAll, FiledBut, WaitOf, WaitsApart,
         Distinct, Left;
    SoundMeans(m, serverFd);
    UpdatingFiles(m, r, front, tail, b);
    if WokenBy(m, c) {
      WaitsDiffer(m, serverFd);
      ListsDistinct(m);
      WakingBits(m, r, front, tail, b, serverFd);
      WakingLists(m, r, c, front, tail);
      UpdatedOwned(View(m), r, b, m.open, serverFd);
      SameListsKeep(Waking(Putting(m, r, c), r, front, tail), m');
    } else {
      NoTimeOut(m, r);
      WatchingBits(m, r, front, tail, serverFd);
      SameListsKeep(m, m');
    }
    IsSound(m', serverFd);
  }

  lemma ListsDistinct(m: State)
    requires Lists(m)
    ensures Distinct(m.blocked) && Distinct(m.ready)
  {
  }
}
