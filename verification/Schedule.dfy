/** The state of the select loop as a value: requests on the ready, the blocked and the free list,
    what is kept of them, and the steps of the scheduler as functions. */
module Schedule {
  import opened Handlers

  class Request {
    var ctl: Control
    var next: Request?
    var prev: Request?

    constructor ()
      ensures next == null && prev == null && ctl == CLEARED
    {
      ctl, next, prev := CLEARED, null, null;
    }
  }

  // ------------------------------------------------- the state, as a value

  /** The three lists, the fields of every request ever allocated and what was last done with it,
      and the globals.  `bits` are the bits of the two descriptor sets, `memory` is how many more
      requests malloc can make, and `strays` are the bits that time-outs have left behind and that
      nothing has cleared since. */
  datatype State = State(ready: seq<Request>, blocked: seq<Request>, free: seq<Request>,
                         ctl: map<Request, Control>, last: map<Request, Last>, handled: map<Request, nat>,
                         total: int, pending: bool, sigterm: bool, open: set<int>, memory: nat,
                         bits: set<Wait>, maxFd: int, strays: set<Wait>)

  const FD_SETSIZE: int := 1024

  ghost function Start(serverFd: int, memory: nat): State {
    State([], [], [], map[], map[], map[], 0, false, false, {0, 1, 2, serverFd}, memory, {}, -1, {})
  }

  ghost predicate Distinct(s: seq<Request>) { forall i, j :: 0 <= i < j < |s| ==> s[i] != s[j] }

  /** No request is on two lists. */
  ghost predicate Apart(m: State) {
    && (forall r :: r in m.ready ==> r in m.ctl && r !in m.blocked && r !in m.free)
    && (forall r :: r in m.blocked ==> r in m.ctl && r !in m.free)
    && (forall r :: r in m.free ==> r in m.ctl)
  }

  /** The lists hold known requests, and no request is on two of them or twice on one. */
  ghost predicate Lists(m: State) {
    && Apart(m)
    && Distinct(m.ready) && Distinct(m.blocked) && Distinct(m.free)
    && m.last.Keys == m.handled.Keys == m.ctl.Keys
  }

  /** The request is on no list. */
  ghost predicate Loose(m: State, r: Request) { r in m.ctl && r !in m.ready && r !in m.blocked && r !in m.free }

  /** The live requests: those on the ready or the blocked list. */
  ghost function View(m: State): map<Request, Control> {
    map r | r in m.ctl && (r in m.ready || r in m.blocked) :: m.ctl[r]
  }

  /** Every live request owns open descriptors, and no descriptor belongs to two of them. */
  ghost predicate Descriptors(view: map<Request, Control>, open: set<int>, serverFd: int) {
    && {0, 1, 2, serverFd} <= open
    && (forall r :: r in view ==> GoodControl(view[r], open, serverFd))
    && (forall r, s :: r in view && s in view && r != s ==> Owned(view[r]) !! Owned(view[s]))
  }

  /** Every blocked request has a reason to be there. */
  ghost predicate AllExplained(m: State) {
    forall r :: r in m.blocked ==> r in m.ctl && r in m.last && Explained(m.ctl[r], m.last[r])
  }

  /** Every bit is the listening socket's, that of a blocked request, or was left behind by a
      time-out. */
  ghost predicate BitsAccounted(m: State, serverFd: int) {
    && m.strays <= m.bits
    && forall w :: w in m.bits ==> w == WaitRead(serverFd) || w in m.strays || WaitedFor(m, w)
  }

  ghost predicate WaitedFor(m: State, w: Wait) {
    exists r :: r in m.blocked && r in m.ctl && WaitOf(m.ctl[r]) == w
  }

  /** Where a request belongs by what its last dispatch returned, if it has not been woken since.
      "Blocked" keeps it waiting for the call that would have blocked; a finished request is free,
      unless it still has output buffered. */
  ghost predicate Filed(m: State, r: Request) {
    && r in m.ctl && r in m.last
    && match m.last[r]
       case Stalled(call) => r in m.blocked && WaitOf(m.ctl[r]) == call
       case Went => r in m.ready
       case Ended => r in m.free || (r in m.ready && m.ctl[r].status == Done && m.ctl[r].bufferEnd != 0)
       case Accepted => r in m.ready
       case Recycled(_) => r in m.blocked
  }

  /** Every request ever allocated is where it belongs, except those on `rest`. */
  ghost predicate FiledBut(m: State, rest: seq<Request>) {
    forall r :: r in m.ctl && r !in rest ==> Filed(m, r)
  }

  /** What every step keeps. */
  ghost predicate Sound(m: State, serverFd: int) {
    && Lists(m)
    && m.total == |m.ready| + |m.blocked|
    && Descriptors(View(m), m.open, serverFd)
    && AllExplained(m)
    && BitsAccounted(m, serverFd)
  }

  ghost predicate WatchedAll(m: State, s: seq<Request>) {
    forall r :: r in s ==> r in m.ctl && Watched(m, WaitOf(m.ctl[r]))
  }

  /** No blocked request can be forgotten by the next select. */
  ghost predicate AllWatched(m: State) { WatchedAll(m, m.blocked) }

  predicate Watched(m: State, w: Wait) { w in m.bits && w.fd <= m.maxFd }

  // ------------------------------------------------- the steps, as functions

  function Raised(maxFd: int, fd: int): int { if maxFd < fd then fd else maxFd }

  /** BOA_FD_SET. */
  function Watching(m: State, w: Wait): State { m.(bits := m.bits + {w}, maxFd := Raised(m.maxFd, w.fd)) }

  function Putting(m: State, r: Request, c: Control): State { m.(ctl := m.ctl[r := c]) }

  /** block_request. */
  function Blocking(m: State, r: Request, front: seq<Request>, tail: seq<Request>): State
    requires r in m.ctl
  {
    Watching(m.(ready := front + tail, blocked := [r] + m.blocked), WaitOf(m.ctl[r]))
  }

  /** ready_request. */
  function Waking(m: State, r: Request, front: seq<Request>, tail: seq<Request>): State
    requires r in m.ctl
  {
    m.(blocked := front + tail, ready := [r] + m.ready,
       bits := m.bits - {WaitOf(m.ctl[r])}, strays := m.strays - {WaitOf(m.ctl[r])})
  }

  /** A dispatch of `r` that left it as `c` and the table of descriptors as `open`. */
  function Dispatching(m: State, r: Request, c: Control, open: set<int>, retval: int): State
    requires r in m.ctl && r in m.handled
  {
    m.(ctl := m.ctl[r := c], last := m.last[r := LastOf(retval, m.ctl[r])],
       handled := m.handled[r := m.handled[r] + 1], open := open)
  }

  /** new_request: `r` is the head of the free list, or new. */
  function Taking(m: State, r: Request, c: Control, l: Last): State {
    m.(free := if m.free == [] then [] else m.free[1..],
       memory := if m.free == [] && m.memory > 0 then m.memory - 1 else m.memory,
       ctl := m.ctl[r := c], last := m.last[r := l],
       handled := if r in m.handled then m.handled else m.handled[r := 0])
  }

  ghost predicate Available(m: State, r: Request) {
    if m.free == [] then r !in m.ctl && m.memory > 0 else r == m.free[0]
  }

  /** get_sock_request with the descriptor `fd` accepted. */
  function Admitting(m: State, r: Request, fd: int, kaMax: int): State {
    Taking(m, r, CLEARED.(fd := fd, kacount := kaMax), Accepted)
      .(ready := [r] + m.ready, open := m.open + {fd}, total := m.total + 1)
  }

  /** What accept answers: no connection is waiting, an error, or a descriptor, with whether its name
      can be had and what ka_max is. */
  datatype Accept = NoneWaiting | AcceptFails | Connection(fd: int, named: bool, kaMax: nat)

  /** A descriptor that get_sock_request goes on with.  (A kernel never hands out one that is open.) */
  predicate Usable(a: Accept, open: set<int>) { a.Connection? && 2 < a.fd < FD_SETSIZE && a.fd !in open && a.named }

  predicate HasRoom(m: State) { m.free != [] || m.memory > 0 }

  /** get_request, if a connection is pending: the new connection is admitted exactly if accept gives a
      usable descriptor and a request can be had; only when none is waiting is nothing pending any more. */
  ghost predicate Polled(m: State, a: Accept, conn: Request?, m': State) {
    && (conn != null <==> m.pending && Usable(a, m.open) && HasRoom(m))
    && if conn == null then m' == m.(pending := m.pending && !a.NoneWaiting?)
       else Available(m, conn) && m' == Admitting(m, conn, a.fd, a.kaMax)
  }

  /** The condition under which a finished connection is kept for the next request. */
  predicate KeepsAlive(c: Control) {
    c.keepalive == KaActive && c.responseStatus < 500 && c.kacount > 0
  }

  /** The request is over: it is free, or has been taken for another connection since. */
  ghost predicate Over(m: State, r: Request) {
    r in m.ctl && r in m.last && (r in m.free || m.last[r].Accepted? || m.last[r].Recycled?)
  }

  predicate StillSending(c: Control) { c.bufferEnd != 0 && c.status != Dead }

  /** The control of the request under which the connection of `c` is kept. */
  function Renewed(c: Control): Control { CLEARED.(fd := c.fd, kacount := c.kacount - 1, unparsed := c.unparsed) }

  /** The first half of free_request. */
  function Detaching(m: State, r: Request, front: seq<Request>, tail: seq<Request>): State
    requires r in m.ctl
  {
    m.(ready := front + tail, open := m.open - IfOpen(m.ctl[r].dataFd) - IfOpen(m.ctl[r].postDataFd))
  }

  function Keeping(m: State, r: Request, conn: Request): State
    requires r in m.ctl
  {
    var c := m.ctl[r];
    var t := Taking(m, conn, Renewed(c), Recycled(c.unparsed));
    Watching(t.(blocked := [conn] + t.blocked, free := [r] + t.free), WaitRead(c.fd))
  }

  function Closing(m: State, r: Request): State
    requires r in m.ctl
  {
    m.(free := [r] + m.free, open := m.open - {m.ctl[r].fd}, total := m.total - 1)
  }

  /** free_request, where `conn` is the request under which the connection is kept. */
  function Freeing(m: State, r: Request, front: seq<Request>, tail: seq<Request>, conn: Request?): State
    requires r in m.ctl
  {
    if StillSending(m.ctl[r]) then Putting(m, r, m.ctl[r].(status := Done))
    else if conn == null then Closing(Detaching(m, r, front, tail), r)
    else Keeping(Detaching(m, r, front, tail), r, conn)
  }

  /** The keepalive and request time-outs of fdset_update. */
  function TimedOut(c: Control, timedOut: bool): Control { if timedOut then c.(status := Dead) else c }

  predicate WokenBy(m: State, c: Control) { c.status == Dead || WaitOf(c) in m.bits }

  /** The request times out with the bit of what it waits for set, and that is not the wait of a
      DEAD request. */
  predicate LeavesBit(c: Control, bits: set<Wait>, timedOut: bool) {
    timedOut && WaitOf(c) in bits && WaitOf(c) != WaitOf(TimedOut(c, true))
  }

  function Left(m: State, c: Control, timedOut: bool): set<Wait> {
    if LeavesBit(c, m.bits, timedOut) then {WaitOf(c)} else {}
  }

  /** One iteration of fdset_update.  A request that times out is woken with the bit of its DEAD
      wait cleared, and the bit of what it waited for is left behind if that is another. */
  function Updating(m: State, r: Request, front: seq<Request>, tail: seq<Request>, timedOut: bool): State
    requires r in m.ctl
  {
    var c := TimedOut(m.ctl[r], timedOut);
    var m1 := Putting(m, r, c).(strays := m.strays + Left(m, m.ctl[r], timedOut));
    if WokenBy(m, c) then Waking(m1, r, front, tail) else Watching(m1, WaitOf(c))
  }

  // ------------------------------------------------- the lists by name

  datatype Which = Ready | Blocked | Free

  function ListOf(m: State, which: Which): seq<Request> {
    match which case Ready => m.ready case Blocked => m.blocked case Free => m.free
  }

  function With(m: State, which: Which, s: seq<Request>): State {
    match which case Ready => m.(ready := s) case Blocked => m.(blocked := s) case Free => m.(free := s)
  }
}
