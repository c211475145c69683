/** The handlers that read a request and send a file do what the scheduler takes a blocked handler to
    do: when one returns -1, the request waits for the very call that would have blocked. */
module BlockedCalls {
  import opened Handlers
  import Reader = RequestReader
  import Sender = ResponseStream

  /** The fields of a request that its handler does not look at. */
  datatype Others = Others(fd: int, dataFd: int, postDataFd: int, keepalive: KeepAlive, kacount: int,
                           responseStatus: int, unparsed: nat)

  // ------------------------------------------------- reading a request

  function ReaderStatus(s: Reader.Status): Status {
    match s
    case HeaderText => ReadHeader
    case OneCr => OneCr
    case OneLf => OneLf
    case TwoCr => TwoCr
    case BodyRead => BodyRead
    case BodyWrite => BodyWrite
    case Answering => Write
    case Dead => Dead
  }

  /** A request that is being read, as the scheduler sees it; nothing is buffered for the client. */
  function ReaderControl(o: Others, s: Reader.Status, unparsed: nat): Control {
    Control(o.fd, o.dataFd, o.postDataFd, ReaderStatus(s), 0, o.keepalive, o.kacount, o.responseStatus, unparsed)
  }

  function ReaderWait(o: Others, t: Reader.Target): Wait {
    match t case FromClient => WaitRead(o.fd) case ToPostFile => WaitWrite(o.postDataFd)
  }

  /** A read or write that would have blocked leaves the body's status as it is, and of the headers
      nothing unparsed. */
  lemma ReaderWaitsForItsCall(o: Others, s: Reader.Status, unparsed: nat, s': Reader.Status, unparsed': nat,
                              asked: Reader.Target, open: set<int>, serverFd: int)
    requires s != Reader.Answering && s != Reader.Dead
    requires if s == Reader.BodyRead || s == Reader.BodyWrite then s' == s else Reader.InHeader(s') && unparsed' == 0
    requires asked == (if s == Reader.BodyWrite then Reader.ToPostFile else Reader.FromClient)
    requires GoodControl(ReaderControl(o, s, unparsed), open, serverFd) && {0, 1, 2, serverFd} <= open
    ensures Dispatched(ReaderControl(o, s, unparsed), ReaderControl(o, s', unparsed'), open, open, serverFd, -1)
    ensures WaitOf(ReaderControl(o, s', unparsed'))
         == EagainSource(ReaderControl(o, s, unparsed)) == ReaderWait(o, asked)
  {
    var c, c' := ReaderControl(o, s, unparsed), ReaderControl(o, s', unparsed');
    SameDescriptors(c, c', open, serverFd, -1);
    BlockedOnTheCall(c, c');
    hide GoodControl, Owned, Dispatched, WaitOf;
  }

  function Unparsed(req: Reader.Request): nat
    reads req
  {
    if req.parsePos <= req.streamPos then req.streamPos - req.parsePos else 0
  }

  function OfReader(req: Reader.Request, o: Others): Control
    reads req
  {
    ReaderControl(o, req.status, Unparsed(req))
  }

  /** read_header, read_body and write_body block as the scheduler has it. */
  method Read(req: Reader.Request, o: Others, open: set<int>, serverFd: int) returns (retval: int)
    requires req.Valid() && req.status != Reader.Answering && req.status != Reader.Dead
    requires GoodControl(OfReader(req, o), open, serverFd) && {0, 1, 2, serverFd} <= open
    modifies req, req.peer, req.clientStream, req.buffer
    ensures req.Valid()
    ensures retval == -1 ==>
      && Dispatched(old(OfReader(req, o)), OfReader(req, o), open, open, serverFd, -1)
      && WaitOf(OfReader(req, o)) == ReaderWait(o, req.asked)
  {
    hide *;
    ghost var s, unparsed := req.status, Unparsed(req);
    IsOfReader(req, o);
    ghost var got;
    retval, got := req.Call();
    if retval == -1 {
      IsOfReader(req, o);
      ReaderWaitsForItsCall(o, s, unparsed, req.status, Unparsed(req), req.asked, open, serverFd);
    }
  }

  lemma IsOfReader(req: Reader.Request, o: Others)
    ensures OfReader(req, o) == ReaderControl(o, req.status, Unparsed(req))
    ensures req.parsePos == req.streamPos ==> Unparsed(req) == 0
  {
  }

  // ------------------------------------------------- sending a file

  function SenderStatus(s: Sender.Status): Status {
    match s
    case Write => Write
    case PipeRead => PipeRead
    case PipeWrite => PipeWrite
    case Done => Done
    case Dead => Dead
  }

  /** A request that is being answered, as the scheduler sees it. */
  function SenderControl(o: Others, s: Sender.Status, bufferEnd: nat): Control {
    Control(o.fd, o.dataFd, o.postDataFd, SenderStatus(s), bufferEnd, o.keepalive, o.kacount, o.responseStatus,
            o.unparsed)
  }

  function SenderWait(o: Others, t: Sender.Target): Wait {
    match t case ToClient => WaitWrite(o.fd) case FromFile => WaitRead(o.dataFd)
  }

  lemma SenderWaitsForItsCall(o: Others, s: Sender.Status, bufferEnd: nat, asked: Sender.Target, open: set<int>,
                              serverFd: int)
    requires s != Sender.Dead
    requires asked == (if bufferEnd == 0 && s == Sender.PipeRead then Sender.FromFile else Sender.ToClient)
    requires GoodControl(SenderControl(o, s, bufferEnd), open, serverFd) && {0, 1, 2, serverFd} <= open
    ensures var c := SenderControl(o, s, bufferEnd);
      Dispatched(c, c, open, open, serverFd, -1) && WaitOf(c) == EagainSource(c) == SenderWait(o, asked)
  {
    var c := SenderControl(o, s, bufferEnd);
    SameDescriptors(c, c, open, serverFd, -1);
    hide GoodControl, Owned, Dispatched;
  }

  /** req_flush, process_get, read_from_pipe and write_from_pipe block as the scheduler has it. */
  method Send(req: Sender.Request, o: Others, open: set<int>, serverFd: int) returns (retval: int)
    requires req.Valid() && !req.freed
    requires GoodControl(SenderControl(o, req.status, req.bufferEnd), open, serverFd) && {0, 1, 2, serverFd} <= open
    modifies req, req.kernel, req.buffer
    ensures req.Valid()
    ensures retval == -1 ==>
      var c := SenderControl(o, req.status, req.bufferEnd);
      && c == SenderControl(o, old(req.status), old(req.bufferEnd))
      && Dispatched(c, c, open, open, serverFd, -1) && WaitOf(c) == SenderWait(o, req.kernel.asked)
  {
    hide *;
    retval := req.Dispatch();
    if retval == -1 {
      SenderWaitsForItsCall(o, req.status, req.bufferEnd, req.kernel.asked, open, serverFd);
    }
  }
}
