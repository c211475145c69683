/** A request as the select loop sees it, what it waits for, and what dispatching it may do.
    System calls and status handlers are an arbitrary environment. */
module Handlers {

  // ------------------------------------------------- a request's fields

  /** req->status, in the numeric order of boaLib/include/defines.h. */
  datatype Status =
    | ReadHeader | OneCr | OneLf | TwoCr | BodyRead | BodyWrite
    | Write | PipeRead | PipeWrite | Done | Dead

  datatype KeepAlive = KaInactive | KaStopped | KaActive

  /** The scalar fields of a request that the loop reads; `unparsed` is
      client_stream_pos - parse_pos, the bytes read but not yet parsed. */
  datatype Control = Control(fd: int, dataFd: int, postDataFd: int, status: Status, bufferEnd: nat,
                             keepalive: KeepAlive, kacount: int, responseStatus: int, unparsed: nat)

  /** After the memset of new_request. */
  const CLEARED := Control(0, 0, 0, ReadHeader, 0, KaInactive, 0, 0, 0)

  const RET_UPGRADE: int := 8899

  predicate IsHeaderStatus(s: Status) { s == ReadHeader || s == OneCr || s == OneLf || s == TwoCr }

  /** The request is reading its headers, with nothing to flush first. */
  predicate ReadsHeader(c: Control) { c.bufferEnd == 0 && IsHeaderStatus(c.status) }

  // ------------------------------------------------- waiting

  /** The descriptor and direction a request waits for. */
  datatype Wait = WaitRead(fd: int) | WaitWrite(fd: int)

  /** What block_request, ready_request and fdset_update take a request to wait for. */
  function WaitOf(c: Control): Wait {
    if c.bufferEnd != 0 then WaitWrite(c.fd)
    else match c.status
      case Write | PipeWrite | Done => WaitWrite(c.fd)
      case PipeRead => WaitRead(c.dataFd)
      case BodyWrite => WaitWrite(c.postDataFd)
      case _ => WaitRead(c.fd)
  }

  /** The system call whose EAGAIN makes the handler dispatched for `c` return -1. */
  function EagainSource(c: Control): Wait {
    if c.bufferEnd != 0 then WaitWrite(c.fd)              // req_flush
    else if IsHeaderStatus(c.status) then WaitRead(c.fd)  // read_header
    else if c.status == BodyRead then WaitRead(c.fd)      // read_body
    else if c.status == BodyWrite then WaitWrite(c.postDataFd)  // write_body
    else if c.status == PipeRead then WaitRead(c.dataFd)  // read_from_pipe
    else if c.status == Dead then WaitRead(c.fd)          // makes no call
    else WaitWrite(c.fd)                                  // process_get, write_from_pipe, req_flush
  }

  /** How a request came to be where it is: what its last dispatch returned, or, before its
      first, whether it was accepted or kept alive with so many bytes already read. */
  datatype Last = Accepted | Recycled(unparsed: nat) | Stalled(call: Wait) | Ended | Went

  /** What a dispatch of `before` with result `retval` leaves. */
  function LastOf(retval: int, before: Control): Last {
    if retval == -1 then Stalled(EagainSource(before)) else if retval == 0 then Ended else Went
  }

  /** Why a request may be on the blocked list: its last call would have blocked and it waits for
      that call, having parsed what it had; or it was kept alive, with what was left unparsed. */
  ghost predicate Explained(c: Control, l: Last) {
    && c.status != Dead
    && match l
       case Stalled(call) => call == WaitOf(c) && (ReadsHeader(c) ==> c.unparsed == 0)
       case Recycled(n) => ReadsHeader(c) && c.unparsed == n
       case _ => false
  }

  // ------------------------------------------------- owning descriptors

  function IfOpen(fd: int): set<int> { if fd != 0 then {fd} else {} }

  /** The descriptors a live request owns; 0 stands for "not open" in the two data fields. */
  function Owned(c: Control): set<int> {
    {c.fd} + IfOpen(c.dataFd) + IfOpen(c.postDataFd)
  }

  predicate HasWhatItNeeds(c: Control) {
    && (c.status == PipeRead ==> c.dataFd != 0)
    && (c.status == BodyWrite ==> c.postDataFd != 0)
  }

  /** The request owns open descriptors, all different, and those its status needs; its connection
      has not been kept alive too often. */
  predicate GoodControl(c: Control, open: set<int>, serverFd: int) {
    && 0 <= c.kacount && Owned(c) <= open && serverFd !in Owned(c) && HasWhatItNeeds(c)
    && 2 < c.fd && (2 < c.dataFd || c.dataFd == 0) && (2 < c.postDataFd || c.postDataFd == 0)
    && (c.dataFd != 0 ==> c.dataFd != c.fd && c.dataFd != c.postDataFd)
    && (c.postDataFd != 0 ==> c.postDataFd != c.fd)
  }

  /** A request waits for a descriptor of its own. */
  lemma WaitsForItsOwn(c: Control, open: set<int>, serverFd: int)
    requires GoodControl(c, open, serverFd)
    ensures WaitOf(c).fd in Owned(c)
  {
  }

  // ------------------------------------------------- what a dispatch may do

  /** Dispatching a request touches only its own descriptors, and if it reports "blocked" the
      request waits for the very call that would have blocked. */
  ghost predicate Dispatched(before: Control, after: Control, open: set<int>, open': set<int>, serverFd: int,
      retval: int)
  {
    && after.fd == before.fd && after.kacount == before.kacount
    && GoodControl(after, open', serverFd)
    && {0, 1, 2, serverFd} <= open'
    && open - Owned(before) <= open'
    && Owned(after) * open <= Owned(before)
    && (retval == -1 ==> WaitOf(after) == EagainSource(before) && Explained(after, Stalled(EagainSource(before))))
  }

  lemma GoodDescriptors(c: Control, open: set<int>, serverFd: int)
    requires GoodControl(c, open, serverFd)
    ensures c.dataFd != 0 ==> c.dataFd in open && c.dataFd != c.postDataFd
    ensures c.postDataFd != 0 ==> c.postDataFd in open
  {
  }

  lemma SameDescriptors(c: Control, c': Control, open: set<int>, serverFd: int, retval: int)
    requires GoodControl(c, open, serverFd) && {0, 1, 2, serverFd} <= open
    requires c'.fd == c.fd && c'.dataFd == c.dataFd && c'.postDataFd == c.postDataFd && c'.kacount == c.kacount
    requires c'.status == c.status || c'.status == Dead || (IsHeaderStatus(c.status) && IsHeaderStatus(c'.status))
    requires retval == -1 ==> c'.bufferEnd == c.bufferEnd && c'.status != Dead && (ReadsHeader(c') ==> c'.unparsed == 0)
    ensures Dispatched(c, c', open, open, serverFd, retval)
  {
    if retval == -1 { BlockedOnTheCall(c, c'); }
    hide WaitOf, EagainSource;
  }

  /** A request that keeps its status, or stays in its headers, waits for the call it made. */
  lemma BlockedOnTheCall(c: Control, c': Control)
    requires c'.fd == c.fd && c'.dataFd == c.dataFd && c'.postDataFd == c.postDataFd && c'.bufferEnd == c.bufferEnd
    requires c'.status != Dead && (c'.status == c.status || (IsHeaderStatus(c.status) && IsHeaderStatus(c'.status)))
    ensures WaitOf(c') == EagainSource(c)
  {
  }

  lemma ReplacedDescriptors(c: Control, c': Control, open0: set<int>, open1: set<int>, open2: set<int>,
                            serverFd: int, retval: int)
    requires GoodControl(c, open0, serverFd) && {0, 1, 2, serverFd} <= open0
    requires c'.fd == c.fd && c'.kacount == c.kacount && HasWhatItNeeds(c') && retval != -1
    requires open1 == open0 - IfOpen(c.dataFd) + IfOpen(c'.dataFd)
    requires open2 == open1 - IfOpen(c.postDataFd) + IfOpen(c'.postDataFd)
    requires c'.dataFd == c.dataFd || c'.dataFd == 0 || (2 < c'.dataFd && c'.dataFd !in open0)
    requires c'.postDataFd == c.postDataFd || c'.postDataFd == 0 || (2 < c'.postDataFd && c'.postDataFd !in open1)
    ensures Dispatched(c, c', open0, open2, serverFd, retval)
  {
    hide HasWhatItNeeds, WaitOf, EagainSource, Explained;
  }

  // ------------------------------------------------- the environment

  /** What the write of req_flush answers: that it would block, that it fails, or that part or all of
      what is buffered has been sent. */
  datatype Sent = WouldBlock | Failed | Part | Whole

  /** req_flush, as far as the scheduler sees it: -2 error, -1 blocked, else bytes left. */
  method ReqFlush(c: Control, sent: Sent) returns (retval: int, c': Control)
    ensures c.status == Dead ==> retval == -2 && c' == c
    ensures c.status != Dead && c.bufferEnd == 0 ==> retval == 0 && c' == c
    ensures c.status != Dead && c.bufferEnd != 0 ==>
      && retval == (if sent == WouldBlock then -1 else if sent == Failed then -2 else c'.bufferEnd)
      && c'.bufferEnd == (if sent == Failed || sent == Whole then 0 else c.bufferEnd)
      && c' == c.(bufferEnd := c'.bufferEnd, status := if sent == Failed then Dead else c.status)
  {
    c' := c;
    if c.status == Dead {
      return -2, c;
    }
    if c.bufferEnd != 0 {
      match sent
      case WouldBlock => return -1, c;
      case Failed => return -2, c.(bufferEnd := 0, status := Dead);
      case Part =>
      case Whole => c' := c.(bufferEnd := 0);
    }
    retval := c'.bufferEnd;
  }

  /** A request that has nothing more to do: a dispatch ends it. */
  predicate MustEnd(c: Control) { c.status == Dead || (c.status == Done && c.bufferEnd == 0) }

  /** A dispatch flushes what is buffered, and runs no handler. */
  predicate Flushes(c: Control) { c.status != Dead && (c.bufferEnd != 0 || c.status == Done) }

  /** What a dispatch reports, when it runs no handler: a DEAD request ends with nothing buffered and
      its connection not kept, a DONE one ends when nothing is left buffered, and any other goes on.
      A write that fails ends each of them.  Nothing but the status and the buffer changes. */
  ghost predicate Ruled(before: Control, after: Control, open: set<int>, open': set<int>, sent: Sent, retval: int) {
    && (before.status == Dead ==>
          retval == 0 && after == before.(bufferEnd := 0, keepalive := KaStopped) && open' == open)
    && (Flushes(before) ==>
          && after == before.(status := after.status, bufferEnd := after.bufferEnd) && open' == open
          && (retval == -1 <==> before.bufferEnd != 0 && sent == WouldBlock)
          && (retval == 0 <==> after.status == Dead || (before.status == Done && after.bufferEnd == 0))
          && (retval == -1 || retval == 0 || retval == 1)
          && (if before.bufferEnd != 0 && sent == Failed then after.status == Dead else after.status == before.status)
          && (if sent == Failed || sent == Whole then after.bufferEnd == 0 else after.bufferEnd == before.bufferEnd))
  }

  lemma RuledEnds(before: Control, after: Control, open: set<int>, open': set<int>, sent: Sent, retval: int)
    requires Ruled(before, after, open, open', sent, retval)
    ensures MustEnd(before) ==> retval == 0 && after.bufferEnd == 0
  {
  }

  /** A handler may close the descriptor in one of its data fields and open another: the
      kernel hands out a descriptor above the standard three that is not open. */
  method ReplaceFd(fd: int, open: set<int>) returns (fd': int, open': set<int>)
    requires fd != 0 ==> fd in open
    ensures open' == open - IfOpen(fd) + IfOpen(fd')
    ensures fd' == fd || fd' == 0 || (2 < fd' && fd' !in open)
  {
    fd', open' := fd, open;
    var close: bool, reopen: bool, handedOut: int := *, *, *;
    if close || fd == 0 {
      fd' := 0;
      if fd != 0 {
        open' := open - {fd};
      }
      if reopen && 2 < handedOut && handedOut !in open {
        open' := open' + {handedOut};
        fd' := handedOut;
      }
    }
  }

  /** Any of the status handlers: it may close and open the data descriptors of its request, fill
      the output buffer and move to any status; when a call would block it leaves the request as
      it is, except for the progress of the header scan, which has parsed all it was given. */
  method RunHandler(c: Control, open: set<int>, serverFd: int) returns (retval: int, c': Control, open': set<int>)
    requires GoodControl(c, open, serverFd) && {0, 1, 2, serverFd} <= open
    requires c.bufferEnd == 0 && c.status != Done && c.status != Dead
    ensures retval in {-1, 0, 1, RET_UPGRADE}
    ensures Dispatched(c, c', open, open', serverFd, retval)
  {
    hide GoodControl, Owned, WaitOf, Dispatched, EagainSource;
    GoodDescriptors(c, open, serverFd);
    c', open' := c, open;
    var result: int := *;
    if result == -1 {
      var s: Status := *;
      if IsHeaderStatus(c.status) {
        c' := c.(status := if IsHeaderStatus(s) then s else c.status, unparsed := 0);
      }
      SameDescriptors(c, c', open, serverFd, -1);
      retval := -1;
    } else if result == RET_UPGRADE && IsHeaderStatus(c.status) {
      c' := c.(status := Dead);
      SameDescriptors(c, c', open, serverFd, RET_UPGRADE);
      retval := RET_UPGRADE;
    } else {
      c', open' := Respond(c, open, serverFd);
      retval := if result == 0 then 0 else 1;
      AnyResult(c, c', open, open', serverFd, 1, retval);
    }
  }

  /** A handler that does not block. */
  method Respond(c: Control, open: set<int>, serverFd: int) returns (c': Control, open': set<int>)
    requires GoodControl(c, open, serverFd) && {0, 1, 2, serverFd} <= open
    ensures Dispatched(c, c', open, open', serverFd, 1)
  {
    hide GoodControl, Owned, WaitOf, Dispatched, EagainSource;
    GoodDescriptors(c, open, serverFd);
    var dataFd, open1 := ReplaceFd(c.dataFd, open);
    assert c.postDataFd != 0 ==> c.postDataFd in open1;
    var postDataFd;
    postDataFd, open' := ReplaceFd(c.postDataFd, open1);
    var status: Status, bufferEnd: nat, keepalive: KeepAlive, responseStatus: int, unparsed: nat := *, *, *, *, *;
    if (status == PipeRead && dataFd == 0) || (status == BodyWrite && postDataFd == 0) {
      status := Dead;
    }
    c' := Control(c.fd, dataFd, postDataFd, status, bufferEnd, keepalive, c.kacount, responseStatus, unparsed);
    ReplacedDescriptors(c, c', open, open1, open', serverFd, 1);
  }

  lemma AnyResult(c: Control, c': Control, open: set<int>, open': set<int>, serverFd: int, r: int, r': int)
    requires Dispatched(c, c', open, open', serverFd, r) && r' != -1
    ensures Dispatched(c, c', open, open', serverFd, r')
  {
  }

  /** The dispatch in process_requests: flush what is buffered, or run the status handler. */
  method Handle(c: Control, open: set<int>, serverFd: int, sent: Sent)
    returns (retval: int, c': Control, open': set<int>)
    requires GoodControl(c, open, serverFd) && {0, 1, 2, serverFd} <= open
    ensures retval in {-1, 0, 1, RET_UPGRADE}
    ensures Dispatched(c, c', open, open', serverFd, retval) && Ruled(c, c', open, open', sent, retval)
  {
    hide GoodControl, Owned, WaitOf, Dispatched, EagainSource;
    open' := open;
    if c.bufferEnd != 0 && c.status != Dead && c.status != Done {
      retval, c' := ReqFlush(c, sent);
      if retval == -2 {
        c' := c'.(status := Dead);
        retval := 0;
      } else if retval >= 0 {
        retval := 1;
      }
      SameDescriptors(c, c', open, serverFd, retval);
    } else if c.status == Done {
      retval, c' := ReqFlush(c, sent);
      if retval == -2 {
        c' := c'.(status := Dead);
        retval := 0;
      } else if retval > 0 {
        retval := 1;
      }
      SameDescriptors(c, c', open, serverFd, retval);
    } else if c.status == Dead {
      retval := 0;
      c' := c.(bufferEnd := 0, keepalive := KaStopped);
      SameDescriptors(c, c', open, serverFd, retval);
    } else {
      retval, c', open' := RunHandler(c, open, serverFd);
    }
  }
}
