/** Sending a static file: the output buffer with the headers and the first part of the file,
    the mapped rest of a small file, and the relay of a large file through the buffer, under
    any pattern of short, blocked and failing writes and reads. */
module ResponseStream {
  import opened Bytes

  /** Files larger than this are relayed, not mapped. */
  const MAX_FILE_MMAP: nat := 102400

  // ------------------------------------------------- the stream

  /** What was sent, what is in the output buffer, what the relay holds and what has not been
      taken from the file are together what was promised. */
  ghost predicate Whole(sent: Text, out: Text, window: Text, rest: Text, promised: Text) {
    sent + out + window + rest == promised
  }

  lemma SendBuffered(sent: Text, out: Text, window: Text, rest: Text, promised: Text, k: nat)
    requires Whole(sent, out, window, rest, promised) && k <= |out|
    ensures Whole(sent + out[..k], out[k..], window, rest, promised)
  {
    assert out == out[..k] + out[k..];
  }

  lemma SendWindow(sent: Text, window: Text, rest: Text, promised: Text, k: nat)
    requires Whole(sent, [], window, rest, promised) && k <= |window|
    ensures Whole(sent + window[..k], [], window[k..], rest, promised)
  {
    assert window == window[..k] + window[k..];
  }

  lemma SendFile(sent: Text, rest: Text, promised: Text, k: nat)
    requires Whole(sent, [], [], rest, promised) && k <= |rest|
    ensures Whole(sent + rest[..k], [], [], rest[k..], promised)
  {
    assert rest == rest[..k] + rest[k..];
  }

  lemma TakeFromFile(sent: Text, window: Text, rest: Text, promised: Text, k: nat)
    requires Whole(sent, [], window, rest, promised) && k <= |rest|
    ensures Whole(sent, [], window + rest[..k], rest[k..], promised)
  {
    assert rest == rest[..k] + rest[k..];
  }

  /** What was sent is always a prefix, and all of it exactly when nothing is left. */
  lemma SentIsAPrefix(sent: Text, out: Text, window: Text, rest: Text, promised: Text)
    requires Whole(sent, out, window, rest, promised)
    ensures sent <= promised
    ensures sent == promised <==> out + window + rest == []
    ensures |sent| + |out| + |window| + |rest| == |promised|
  {
  }

  // ------------------------------------------------- the kernel

  /** The result of a read or write of at most as many bytes as asked for. */
  datatype Result = Count(n: nat) | Blocked | Interrupted | Error

  /** What a call is made on. */
  datatype Target = ToClient | FromFile

  /** The kernel: `script` is an arbitrary list of results; when it is used up calls block. */
  class Kernel {
    var script: seq<Result>
    ghost var asked: Target      // what the last call was made on

    constructor (script: seq<Result>)
      ensures this.script == script
    {
      this.script := script;
    }

    /** The next result, limited to the size of the call. */
    method Call(size: nat, ghost target: Target) returns (r: Result)
      modifies this
      ensures (r.Count? ==> r.n <= size) && asked == target
      ensures script == Later(old(script)) && r == Next(old(script), size)
    {
      asked := target;
      if script == [] {
        return Blocked;
      }
      r := Limited(script[0], size);
      script := script[1..];
    }
  }

  function Limited(r: Result, size: nat): Result {
    if r.Count? && r.n > size then Count(size) else r
  }

  /** What the next call answers, and what is left for the calls after it. */
  function Next(script: seq<Result>, size: nat): Result { if script == [] then Blocked else Limited(script[0], size) }

  function Later(script: seq<Result>): seq<Result> { if script == [] then [] else script[1..] }

  /** The next call fails outright; req_flush takes an interrupted write for a failed one. */
  predicate FirstFails(script: seq<Result>) { script != [] && (script[0] == Error || script[0] == Interrupted) }

  /** The next call is answered with at least one byte. */
  predicate Answers(script: seq<Result>) { script != [] && script[0].Count? && script[0].n > 0 }

  /** No call fails, though any may block or move nothing.  A call may be interrupted once a relay has
      started, that is, once the `due` bytes of its headers have been flushed; `due` is negative if
      there is no relay. */
  predicate Serves(script: seq<Result>, due: int) {
    script == [] ||
    match script[0]
    case Error => false
    case Interrupted => due == 0 && Serves(script[1..], 0)
    case Blocked => Serves(script[1..], due)
    case Count(n) => Serves(script[1..], if due < 0 then due else if n < due then due - n else 0)
  }

  lemma ServedMeans(script: seq<Result>, due: int)
    ensures Serves(script, due) && due != 0 ==> !FirstFails(script)
  {
  }

  /** A call has failed that may not. */
  predicate Failing(r: Result, relaying: bool) { r == Error || (r == Interrupted && !relaying) }

  /** The failure is what it was, or the call just made is to blame for it. */
  ghost predicate Blames(script: seq<Result>, script': seq<Result>, relaying: bool, f: Failure, f': Failure) {
    f' == f || (f == NoFailure && script != [] && script' == script[1..] && Failing(script[0], relaying))
  }

  /** A call in the relay. */
  lemma RelayCall(script: seq<Result>, size: nat)
    requires size > 0
    ensures Serves(script, 0) ==> Next(script, size) != Error && Serves(Later(script), 0)
    ensures Answers(script) ==> Next(script, size).Count? && Next(script, size).n > 0
    ensures forall left, left' :: left' <= left && (Answers(script) ==> left' < left) ==>
      Steps(script, left, Later(script), left')
    ensures forall f, f' :: f' == f || (f == NoFailure && Next(script, size) == Error) ==>
      Blames(script, Later(script), true, f, f')
    ensures AtMostOne(script, Later(script)) && AtMostOne(script, script)
  {
  }

  lemma StepWithout(script: seq<Result>, left: int, left': int)
    ensures left' < left ==> Steps(script, left, script, left')
  {
  }

  lemma NoRelayCall(script: seq<Result>, f: Failure)
    ensures Blames(script, script, true, f, f) && AtMostOne(script, script)
  {
  }

  /** At most one call has been made. */
  predicate AtMostOne(script: seq<Result>, script': seq<Result>) {
    script' == script || script' == Later(script)
  }

  /** How many calls are answered with at least one byte. */
  function Answered(script: seq<Result>): nat {
    if script == [] then 0 else (if Answers(script) then 1 else 0) + Answered(script[1..])
  }

  /** A step that makes at most one call: a call that is answered leaves less to do, and so does a
      step that makes none; no step leaves more. */
  ghost predicate Steps(script: seq<Result>, left: int, script': seq<Result>, left': int) {
    || (script' == script && left' < left)
    || (script != [] && script' == script[1..] && left' <= left && (Answers(script) ==> left' < left))
    || (script' == script == [] && left' <= left)
  }

  /** While enough calls are answered, every step comes nearer to the end. */
  lemma StepsAreFew(script: seq<Result>, left: int, script': seq<Result>, left': int)
    requires Steps(script, left, script', left') && Answered(script) >= left > 0
    ensures Answered(script') >= left' && |script'| + left' < |script| + left
  {
  }

  // ------------------------------------------------- the request

  datatype Status = Write | PipeRead | PipeWrite | Done | Dead
  datatype Failure = NoFailure | WriteFailure | ReadFailure

  /** How a file is answered: as it is, as a page rewritten in memory (`file` is then the text after
      the rewriting), or with an error page, when it cannot be opened, mapped or copied. */
  datatype Access = Plain | Rewritten | Failed(page: Text)

  /** What a request for a file is to be sent. */
  function Due(headers: Text, file: Text, head: bool, access: Access): Text {
    if access.Failed? then access.page else headers + if head then [] else file
  }

  /** The file is relayed, not mapped. */
  predicate ByRelay(file: Text, head: bool, access: Access) { access.Plain? && !head && |file| > MAX_FILE_MMAP }

  /** What a relay has to flush before it starts; negative if there is none. */
  function FirstFlush(headers: Text, file: Text, head: bool, access: Access): int {
    if ByRelay(file, head, access) then |headers| else -1
  }

  class Request {
    const kernel: Kernel
    const buffer: array<Byte>
    const headers: Text
    const file: Text         // what data_mem or data_fd holds
    const head: bool         // req->method == M_HEAD
    const access: Access
    var status: Status
    var bufferStart: nat
    var bufferEnd: nat
    var filepos: nat
    var taken: nat           // the file offset of data_fd
    var headerLine: nat      // header_line and header_end, as indices into buffer
    var headerEnd: nat
    var cgiDone: bool        // cgi_status == CGI_DONE
    var freed: bool
    var sent: Text           // what write accepted for the client
    ghost var failure: Failure

    ghost function Promised(): Text {
      Due(headers, file, head, access)
    }

    /** The file, or what is to be sent of it. */
    ghost predicate BodyDue() { !head && !access.Failed? }

    ghost function Out(): (t: Text)
      reads this`bufferStart, this`bufferEnd, buffer
      requires bufferStart <= bufferEnd <= buffer.Length
      ensures |t| == bufferEnd - bufferStart
    {
      buffer[bufferStart..bufferEnd]
    }

    ghost function Window(): (t: Text)
      reads this`headerLine, this`headerEnd, buffer
      requires headerLine <= headerEnd <= buffer.Length
      ensures |t| == headerEnd - headerLine
    {
      buffer[headerLine..headerEnd]
    }

    /** What has not been taken from the file. */
    ghost function Rest(): (t: Text)
      reads this`status, this`filepos, this`taken
      requires taken <= |file| && (status == Write ==> filepos <= |file|)
      ensures |t| == match status
                     case Write => if BodyDue() then |file| - filepos else 0
                     case PipeRead => |file| - taken
                     case PipeWrite => |file| - taken
                     case _ => 0
    {
      match status
      case Write => if BodyDue() then file[filepos..] else []
      case PipeRead => file[taken..]
      case PipeWrite => file[taken..]
      case _ => []
    }

    predicate Relaying()
      reads this`status
    {
      status == PipeRead || status == PipeWrite
    }

    /** What has to be flushed before the relay starts; negative if there is none. */
    ghost function ToFlush(): int
      reads this`status, this`bufferStart, this`bufferEnd
    {
      if Relaying() then bufferEnd - bufferStart else -1
    }

    /** No call will fail. */
    ghost predicate Serving()
      reads this`status, this`bufferStart, this`bufferEnd, kernel
    {
      Serves(kernel.script, ToFlush())
    }

    /** The indices, and what the status says about them. */
    ghost predicate Shape()
      reads this
    {
      && buffer.Length == SIZE
      && bufferStart <= bufferEnd <= SIZE && (bufferEnd != 0 ==> bufferStart < bufferEnd)
      && headerLine <= headerEnd <= SIZE && (bufferEnd != 0 ==> headerLine == headerEnd == 0)
      && taken <= |file|
      && (status == Write ==> filepos <= |file|)
      && (status == PipeRead ==> headerLine == 0)
      && (Relaying() ==> BodyDue() && (bufferEnd != 0 ==> taken == 0))
      && (bufferEnd != 0 || status == Write || status == Done || status == PipeRead ==> !cgiDone)
      && (status == PipeWrite && cgiDone ==> taken == |file|)
      && (status == Write || status == Done ==> headerLine == headerEnd == 0)
    }

    /** The answer has a body that fits in the output buffer with the headers. */
    predicate OneBuffer() { access.Plain? && !head && 0 < |file| && |headers| + |file| <= SIZE }

    /** The rewriting has left nothing of the file, for which process_get makes one empty write. */
    predicate Vacuous() { access.Rewritten? && file == [] }

    /** A failed write that the status does not show. */
    ghost predicate Masked()
      reads this
    {
      failure == WriteFailure && status == Done
    }

    /** Without a failure the stream is whole; after one, what was sent is still a prefix of
        what was promised, a proper one if it was a write of something that failed. */
    ghost predicate Streaming()
      reads this, buffer
    {
      && Shape()
      && match failure
         case NoFailure =>
           && status != Dead && Whole(sent, Out(), Window(), Rest(), Promised())
           && (freed ==> Out() == Window() == Rest() == [])
         case WriteFailure =>
           && sent <= Promised() && (|sent| < |Promised()| || Vacuous()) && bufferEnd == 0
           && (status == Dead || (status == Done && sent == [] && OneBuffer()))
         case ReadFailure => sent <= Promised() && bufferEnd == 0 && status == Dead
    }

    ghost predicate Valid()
      reads this, buffer
    {
      Streaming() && (status == Write && failure == NoFailure && !freed ==>
                        BodyDue() && (filepos < |file| || Vacuous()))
    }

    /** A request whose answer has not been started. */
    constructor (kernel: Kernel, headers: Text, file: Text, head: bool, access: Access)
      ensures this.kernel == kernel && this.headers == headers && this.file == file
      ensures this.head == head && this.access == access
      ensures fresh(buffer) && Fresh()
    {
      this.kernel, this.headers, this.file, this.head, this.access := kernel, headers, file, head, access;
      buffer := new Byte[SIZE];
      status, bufferStart, bufferEnd, filepos, taken, headerLine, headerEnd := Write, 0, 0, 0, 0, 0, 0;
      cgiDone, freed, sent, failure := false, false, [], NoFailure;
    }

    ghost predicate Fresh()
      reads this
    {
      && buffer.Length == SIZE && status == Write && !cgiDone && !freed && sent == [] && failure == NoFailure
      && bufferStart == bufferEnd == filepos == taken == headerLine == headerEnd == 0
    }

    /** What is left to do: bytes of the file to read, its end to notice, bytes to send, and steps
        between reading and writing. */
    ghost function Remaining(): int
      reads this
    {
      4 * (|file| - taken + (if cgiDone then 0 else 1) + |Promised()| - |sent|)
        + match status
          case PipeRead => if headerEnd == SIZE then 3 else 0
          case PipeWrite => if headerLine < headerEnd then 2 else 1
          case _ => 0
    }

    /** req_copy: append to the output buffer if it fits; otherwise the request is DEAD. */
    method ReqCopy(data: Text) returns (retval: int)
      requires buffer.Length == SIZE && bufferStart <= bufferEnd <= SIZE
      modifies this`bufferEnd, this`status, buffer
      ensures bufferStart <= bufferEnd <= SIZE
      ensures old(status) == Dead || old(bufferEnd) + |data| <= SIZE ==> retval == bufferEnd && status == old(status)
      ensures old(status) != Dead && old(bufferEnd) + |data| <= SIZE ==> Out() == old(Out()) + data
      ensures old(status) != Dead && old(bufferEnd) + |data| > SIZE ==> retval == -1 && status == Dead
      ensures old(status) == Dead || old(bufferEnd) + |data| > SIZE ==>
        bufferEnd == old(bufferEnd) && Out() == old(Out())
    {
      if |data| == 0 || status == Dead {
        return bufferEnd;
      }
      if bufferEnd + |data| > SIZE {
        status := Dead;
        return -1;
      }
      Store(buffer, bufferEnd, data);
      bufferEnd := bufferEnd + |data|;
      retval := bufferEnd;
    }

    // The moves of the stream, each on its own.

    method AdvanceOut(n: nat)
      requires bufferStart < bufferEnd <= buffer.Length && n <= bufferEnd - bufferStart
      modifies this`bufferStart, this`bufferEnd, this`sent
      ensures sent == old(sent) + old(Out())[..n] && bufferStart <= bufferEnd <= buffer.Length
      ensures Out() == old(Out())[n..]
      ensures bufferEnd == (if n == old(bufferEnd - bufferStart) then 0 else old(bufferEnd))
      ensures bufferEnd != 0 ==> bufferStart < bufferEnd
      ensures bufferEnd - bufferStart == old(bufferEnd - bufferStart) - n
    {
      ArraySlices(buffer, bufferStart, bufferStart + n, bufferEnd);
      sent := sent + buffer[bufferStart..bufferStart + n];
      bufferStart := bufferStart + n;
      if bufferStart == bufferEnd {
        bufferStart, bufferEnd := 0, 0;
      }
    }

    method AdvanceWindow(n: nat)
      requires headerLine <= headerEnd <= buffer.Length && n <= headerEnd - headerLine
      requires taken <= |file| && status == PipeWrite
      modifies this`headerLine, this`filepos, this`sent
      ensures headerLine == old(headerLine) + n && filepos == old(filepos) + n && Rest() == old(Rest())
      ensures sent == old(sent) + old(Window())[..n] && Window() == old(Window())[n..]
    {
      ArraySlices(buffer, headerLine, headerLine + n, headerEnd);
      sent := sent + buffer[headerLine..headerLine + n];
      headerLine := headerLine + n;
      filepos := filepos + n;
    }

    method FillWindow(n: nat)
      requires headerLine <= headerEnd && headerEnd + n <= buffer.Length && taken + n <= |file| && status == PipeRead
      modifies this`headerEnd, this`taken, buffer
      ensures headerEnd == old(headerEnd) + n && taken == old(taken) + n
      ensures Window() == old(Window()) + old(Rest())[..n] && Rest() == old(Rest())[n..]
    {
      Slices(file, taken, taken + n, |file|);
      Store(buffer, headerEnd, file[taken..taken + n]);
      headerEnd := headerEnd + n;
      taken := taken + n;
    }

    method StartRelay()
      requires taken <= |file| && status != Done && status != Dead
      requires status == Write ==> filepos == taken && BodyDue()
      modifies this`status
      ensures status == PipeRead && Rest() == old(Rest())
    {
      status := PipeRead;
    }

    method StartDraining()
      requires taken <= |file| && status == PipeRead
      modifies this`status
      ensures status == PipeWrite && Rest() == old(Rest())
    {
      status := PipeWrite;
    }

    method AdvanceFile(n: nat)
      requires taken <= |file| && filepos + n <= |file| && status == Write && BodyDue()
      modifies this`filepos
      ensures filepos == old(filepos) + n
      ensures file[old(filepos)..filepos] == old(Rest())[..n] && Rest() == old(Rest())[n..] == file[filepos..]
    {
      Slices(file, filepos, filepos + n, |file|);
      filepos := filepos + n;
    }

    /** req_flush: -2 for an error, -1 if the call blocks, otherwise what is left. */
    method ReqFlush() returns (retval: int)
      requires Streaming() && !freed
      modifies kernel, this`status, this`bufferStart, this`bufferEnd, this`sent, this`failure
      ensures Streaming() && old(sent) <= sent
      ensures retval == -2 || retval == -1 || retval == bufferEnd
      ensures (retval == -2) == (status == Dead) && (retval != -2 ==> status == old(status))
      ensures retval == -1 ==> sent == old(sent) && bufferEnd == old(bufferEnd) != 0 && kernel.asked == ToClient
      ensures failure == if retval == -2 && old(status) != Dead then WriteFailure else old(failure)
      ensures retval == -2 || old(bufferEnd) == 0 ==> sent == old(sent)
      ensures old(bufferEnd) == 0 && old(status) != Dead ==> retval == 0
      ensures old(bufferEnd) == 0 || old(status) == Dead ==> kernel.script == old(kernel.script)
      ensures old(bufferEnd) != 0 && old(status) != Dead ==>
        && kernel.script == Later(old(kernel.script)) && (retval == -2 <==> FirstFails(old(kernel.script)))
        && var r := Next(old(kernel.script), old(bufferEnd - bufferStart));
           && (retval == -1 <==> r.Blocked?)
           && (r.Count? ==> retval >= 0 && |sent| == |old(sent)| + r.n)
      ensures Blames(old(kernel.script), kernel.script, false, old(failure), failure)
      ensures AtMostOne(old(kernel.script), kernel.script)
      ensures old(Serving()) && old(status) != Dead ==>
        && failure == old(failure) && Serving()
        && (old(bufferEnd) != 0 ==> Steps(old(kernel.script), old(Remaining()), kernel.script, Remaining()))
    {
      hide Whole, Promised, Out, Window, Rest;
      ServedMeans(kernel.script, ToFlush());
      if status == Dead {
        return -2;
      }
      if bufferEnd - bufferStart != 0 {
        var r := kernel.Call(bufferEnd - bufferStart, ToClient);
        if r.Blocked? {
          return -1;
        }
        if !r.Count? {
          FailFlush();
          return -2;
        }
        Flushed(r.n);
      }
      retval := bufferEnd;
    }

    /** A write of `n` bytes of the output buffer. */
    method Flushed(n: nat)
      requires Streaming() && !freed && bufferEnd != 0 && n <= bufferEnd - bufferStart
      modifies this`bufferStart, this`bufferEnd, this`sent
      ensures Streaming() && sent == old(sent + Out()[..n])
      ensures bufferEnd == 0 || bufferEnd == old(bufferEnd)
      ensures bufferEnd - bufferStart == old(bufferEnd - bufferStart) - n
    {
      hide Whole, Promised, Out, Window, Rest;

      SendBuffered(sent, Out(), Window(), Rest(), Promised(), n);
      AdvanceOut(n);
    }

    /** A failed write of the output buffer. */
    method FailFlush()
      requires Streaming() && !freed && bufferEnd != 0
      modifies this`status, this`bufferStart, this`bufferEnd, this`failure
      ensures Streaming() && status == Dead && failure == WriteFailure
    {
      hide Whole, Promised, Out, Window, Rest;

      SentIsAPrefix(sent, Out(), Window(), Rest(), Promised());
      bufferStart, bufferEnd, status, failure := 0, 0, Dead, WriteFailure;
    }

    /** Finished, one way or the other, apart from what is still buffered. */
    ghost predicate NothingToTake()
      reads this, buffer
      requires Shape()
    {
      failure == NoFailure ==> Window() == Rest() == []
    }

    /** init_get: the headers and as much of the file as fits are put in the buffer, or an error page. */
    method InitGet() returns (retval: int)
      requires Fresh() && |headers| <= SIZE && (access.Failed? ==> |access.page| <= SIZE)
      modifies kernel, this, buffer
      ensures Streaming() && !freed && retval in {0, 1}
      ensures if retval == 0 then NothingToTake() else Valid()
      ensures Masked() <==> OneBuffer() && FirstFails(old(kernel.script))
      ensures (OneBuffer() ==> status == Done && retval == 1) && (Masked() ==> sent == [])
      ensures AtMostOne(old(kernel.script), kernel.script)
      ensures Blames(old(kernel.script), kernel.script, false, NoFailure, failure)
      ensures status == Dead || (Relaying() <==> ByRelay(file, head, access))
      ensures retval == 0 ==> !Relaying()
      ensures ByRelay(file, head, access) && failure != NoFailure ==> |sent| < |headers|
      ensures Serves(old(kernel.script), FirstFlush(headers, file, head, access)) ==> failure == NoFailure && Serving()
    {
      hide Whole, Promised, Out, Window, Rest, Remaining, Steps;
      ServedMeans(kernel.script, FirstFlush(headers, file, head, access));
      if access.Failed? {
        PutPage();
        var _ := ReqFlush();
        return 0;
      }
      PutHeaders();
      if head || (|file| == 0 && access.Plain?) {
        return 0;
      }
      if |file| > MAX_FILE_MMAP && access.Plain? {
        Relay();
        return 1;
      }
      if access.Plain? {
        Prefill();
      }
      retval := 1;
    }

    /** A large file: flush the headers, and relay it. */
    method Relay()
      requires Streaming() && !freed && status == Write && failure == NoFailure && filepos == taken == bufferStart == 0
      requires ByRelay(file, head, access) && sent == [] && Out() == headers && !cgiDone
      modifies kernel, this`status, this`bufferStart, this`bufferEnd, this`headerLine, this`headerEnd, this`sent
      modifies this`failure
      ensures Valid() && (status == Dead || status == PipeRead)
      ensures AtMostOne(old(kernel.script), kernel.script)
      ensures Blames(old(kernel.script), kernel.script, false, NoFailure, failure)
      ensures failure != NoFailure ==> |sent| < |headers|
      ensures Serves(old(kernel.script), |headers|) ==> failure == NoFailure && Serving()
    {
      hide Whole, Promised, Out, Window, Rest, Remaining, Steps, Blames, AtMostOne, Serves, FirstFails;
      assert bufferEnd == |headers|;
      StartRelay();
      var _ := ReqFlush();
      headerLine, headerEnd := 0, 0;
    }

    /** The answer of send_r_not_found, send_r_forbidden, send_r_bad_request or send_r_error. */
    method PutPage()
      requires Fresh() && access.Failed? && |access.page| <= SIZE
      modifies this`bufferEnd, this`status, buffer
      ensures Streaming() && status == Write
    {
      PutFirst(access.page);
    }

    /** send_r_request_ok: the headers, as an opaque text, are the first bytes of the answer. */
    method PutHeaders()
      requires Fresh() && |headers| <= SIZE && !access.Failed?
      modifies this`bufferEnd, this`status, buffer
      ensures Streaming() && status == Write && Out() == headers
    {
      PutFirst(headers);
    }

    /** The first text of an answer, in the empty buffer. */
    method PutFirst(text: Text)
      requires Fresh() && |text| <= SIZE && text == if access.Failed? then access.page else headers
      modifies this`bufferEnd, this`status, buffer
      ensures Streaming() && status == Write && Out() == text
    {
      AtStart();
      hide Whole, Promised, Out, Window, Rest;
      var _ := ReqCopy(text);
      Begins(text, Rest(), Promised());
    }

    lemma AtStart()
      requires Fresh()
      ensures Out() == [] && Promised() == (if access.Failed? then access.page else headers) + Rest()
    {
      hide Whole;
    }

    /** The prefill of the output buffer with the start of a mapped file. */
    method Prefill()
      requires Streaming() && !freed && status == Write && failure == NoFailure
      requires access.Plain? && !head && 0 < |file| <= MAX_FILE_MMAP
      requires filepos == bufferStart == 0 && sent == [] && Out() == headers
      modifies kernel, this`status, this`bufferStart, this`bufferEnd, this`sent, this`failure, this`filepos, buffer
      ensures Valid() && !freed
      ensures Masked() <==> OneBuffer() && FirstFails(old(kernel.script))
      ensures (OneBuffer() ==> status == Done) && !Relaying()
      ensures AtMostOne(old(kernel.script), kernel.script)
      ensures Blames(old(kernel.script), kernel.script, false, NoFailure, failure)
      ensures Serves(old(kernel.script), -1) ==> failure == NoFailure && Serving()
    {
      hide Whole, Promised, Out, Window, Rest;
      assert |Out()| == bufferEnd == |headers|;
      var bytes := SIZE - bufferEnd;
      if bytes > 0 {
        if bytes > |file| {
          bytes := |file|;
        }
        MoveToBuffer(bytes);
        if |file| == filepos {
          FlushAll();
        }
      }
    }

    /** The whole file is in the buffer: flush, and leave the rest to the status DONE. */
    method FlushAll()
      requires Streaming() && !freed && status == Write && failure == NoFailure
      requires bufferEnd != 0 && filepos == |file| && sent == [] && OneBuffer()
      modifies kernel, this`status, this`bufferStart, this`bufferEnd, this`sent, this`failure
      ensures Valid() && !freed && status == Done
      ensures Masked() <==> FirstFails(old(kernel.script))
      ensures AtMostOne(old(kernel.script), kernel.script)
      ensures Blames(old(kernel.script), kernel.script, false, NoFailure, failure)
      ensures Serves(old(kernel.script), -1) ==> failure == NoFailure && Serving()
    {
      hide Whole, Promised, Out, Window, Rest, Remaining, Steps;
      ServedMeans(kernel.script, -1);
      var _ := ReqFlush();
      assert failure == NoFailure ==> Rest() == [];
      status := Done;
    }

    /** Copy the next `n` bytes of the file to the output buffer. */
    method MoveToBuffer(n: nat)
      requires Streaming() && !freed && status == Write && failure == NoFailure
      requires BodyDue() && 0 < n && filepos + n <= |file| && bufferEnd + n <= SIZE
      modifies this`bufferEnd, this`status, this`filepos, buffer
      ensures Streaming() && filepos == old(filepos) + n && bufferEnd == old(bufferEnd) + n && status == Write
    {
      hide Whole, Promised, Out, Window, Rest;

      assert Window() == [];
      Buffered(sent, Out(), Rest(), Promised(), n);
      var _ := ReqCopy(file[filepos..filepos + n]);
      AdvanceFile(n);
    }

    /** process_get, for a file; a SIGBUS in its write ends the request as a failed write does. */
    method ProcessGet() returns (retval: int)
      requires Valid() && !freed && status == Write && bufferEnd == 0
      modifies kernel, this`status, this`filepos, this`sent, this`failure
      ensures Streaming() && !freed && old(sent) <= sent && retval in {-1, 0, 1}
      ensures if retval == 0 then NothingToTake() else Valid()
      ensures retval == -1 ==> status == old(status) && sent == old(sent) && kernel.asked == ToClient
      ensures status == Write || status == Dead
      ensures var left := |file| - old(filepos);
        var r := Next(old(kernel.script), if left > SIZE then SIZE else left);
        && kernel.script == Later(old(kernel.script))
        && (match r
            case Blocked => retval == -1
            case Count(n) =>
              && filepos == old(filepos) + n && sent == old(sent) + file[old(filepos)..filepos]
              && retval == (if n == left then 0 else 1) && failure == old(failure) && status == old(status)
            case _ => retval == 0 && status == Dead && sent == old(sent))
      ensures Blames(old(kernel.script), kernel.script, false, old(failure), failure)
      ensures AtMostOne(old(kernel.script), kernel.script)
      ensures old(Serving()) ==>
        && failure == old(failure) && Serving()
        && (retval != 0 ==> Steps(old(kernel.script), old(Remaining()), kernel.script, Remaining()))
    {
      hide Whole, Promised, Out, Window, Rest;
      var toWrite := |file| - filepos;
      if toWrite > SIZE {
        toWrite := SIZE;
      }
      var r := kernel.Call(toWrite, ToClient);
      if r.Blocked? {
        return -1;
      }
      if !r.Count? {
        SentIsAPrefix(sent, Out(), Window(), Rest(), Promised());
        status, failure := Dead, WriteFailure;
        return 0;
      }
      SentOfFile(r.n);
      retval := if filepos == |file| then 0 else 1;
    }

    /** A write of `n` bytes of the mapped file. */
    method SentOfFile(n: nat)
      requires Valid() && !freed && status == Write && bufferEnd == 0 && filepos + n <= |file|
      modifies this`filepos, this`sent
      ensures Streaming() && filepos == old(filepos) + n && sent == old(sent) + file[old(filepos)..filepos]
      ensures Window() == [] && (filepos == |file| ==> Rest() == [])
    {
      hide Whole, Promised, Out, Window, Rest;

      assert Out() == [] == Window();
      SendFile(sent, Rest(), Promised(), n);
      sent := sent + file[filepos..filepos + n];
      AdvanceFile(n);
    }

    /** read from data_fd: at least one byte unless the file has ended. */
    method ReadFile(size: nat) returns (r: Result)
      requires taken <= |file| && 0 < size
      modifies kernel
      ensures r.Count? ==> r.n <= size && taken + r.n <= |file| && (r.n == 0 <==> taken == |file|)
      ensures kernel.asked == FromFile && kernel.script == Later(old(kernel.script))
      ensures var next := Next(old(kernel.script), size); (r.Count? <==> next.Count?) && (!r.Count? ==> r == next)
    {
      r := kernel.Call(size, FromFile);
      if r.Count? {
        var n := if r.n == 0 then 1 else r.n;
        r := Count(if n > |file| - taken then |file| - taken else n);
      }
    }

    /** read_from_pipe, after the CGI headers. */
    method ReadFromPipe() returns (retval: int)
      requires Valid() && !freed && status == PipeRead && bufferEnd == 0
      modifies kernel, this`status, this`taken, this`headerEnd, this`cgiDone, this`failure, buffer
      ensures Valid() && !freed && retval in {-1, 0, 1} && (retval == 0 ==> failure == ReadFailure)
      ensures old(headerEnd) == SIZE ==>
        retval == 1 && status == PipeWrite && headerEnd == SIZE && kernel.script == old(kernel.script) && !cgiDone
      ensures old(headerEnd) < SIZE ==>
        && kernel.script == Later(old(kernel.script))
        && var r := Next(old(kernel.script), SIZE - old(headerEnd));
           && retval == (if r == Error then 0 else if r == Blocked then -1 else 1)
           && cgiDone == (r.Count? && old(taken) == |file|) && (r != Error ==> failure == old(failure))
           && status == (if r == Error then Dead else if cgiDone then PipeWrite else PipeRead)
           && headerEnd - old(headerEnd) == taken - old(taken) && (taken > old(taken) <==> r.Count? && !cgiDone)
      ensures Blames(old(kernel.script), kernel.script, true, old(failure), failure)
      ensures AtMostOne(old(kernel.script), kernel.script)
      ensures old(Serving()) ==>
        && failure == old(failure) && Serving()
        && Steps(old(kernel.script), old(Remaining()), kernel.script, Remaining())
      ensures retval == -1 ==> status == old(status) && kernel.asked == FromFile
      ensures status == PipeRead || status == PipeWrite || status == Dead
    {
      RelayBounds();
      hide *;
      var toRead := SIZE - headerEnd;
      if toRead == 0 {
        NoRelayCall(kernel.script, failure);
        BufferFull();
        StepWithout(kernel.script, old(Remaining()), Remaining());
        IsServing();
        return 1;
      }
      RelayCall(kernel.script, toRead);
      var r := ReadFile(toRead);
      match r {
        case Interrupted => retval := 1;
        case Blocked => retval := -1;
        case Error =>
          ReadFails();
          return 0;
        case Count(n) =>
          retval := 1;
          if n == 0 {
            EndOfFile();
          } else {
            Filled(n);
          }
      }
      IsServing();
    }

    lemma IsServing()
      requires (status == PipeRead || status == PipeWrite) && bufferStart == bufferEnd == 0
      ensures Serving() <==> Serves(kernel.script, 0)
      ensures Relaying()
    {
      hide Serves;
    }

    lemma RelayBounds()
      requires Valid() && Relaying() && bufferEnd == 0
      ensures buffer.Length == SIZE && headerLine <= headerEnd <= SIZE && taken <= |file| && failure == NoFailure
      ensures bufferStart == 0
      ensures status == PipeRead ==> headerLine == 0 && !cgiDone
      ensures Serving() <==> Serves(kernel.script, 0)
    {
      hide Whole, Promised, Out, Window, Rest, Serves;
    }

    method BufferFull()
      requires Valid() && !freed && status == PipeRead && bufferEnd == 0 && headerEnd == SIZE
      modifies this`status
      ensures Valid() && status == PipeWrite && Remaining() < old(Remaining())
    {
      hide Whole, Promised, Out, Window, Rest;
      StartDraining();
    }

    method EndOfFile()
      requires Valid() && !freed && status == PipeRead && bufferEnd == 0 && taken == |file|
      modifies this`status, this`cgiDone
      ensures Valid() && status == PipeWrite && cgiDone && Remaining() < old(Remaining())
    {
      hide Whole, Promised, Out, Window, Rest;
      StartDraining();
      cgiDone := true;
    }

    method ReadFails()
      requires Valid() && !freed && status == PipeRead && bufferEnd == 0
      modifies this`status, this`failure
      ensures Valid() && status == Dead && failure == ReadFailure
    {
      hide Whole, Promised, Out, Window, Rest;
      SentIsAPrefix(sent, Out(), Window(), Rest(), Promised());
      status, failure := Dead, ReadFailure;
    }

    method Filled(n: nat)
      requires Valid() && !freed && status == PipeRead && bufferEnd == 0
      requires headerEnd + n <= SIZE && taken + n <= |file|
      modifies this`taken, this`headerEnd, buffer
      ensures Valid() && taken == old(taken) + n && headerEnd == old(headerEnd) + n
      ensures n > 0 ==> Remaining() < old(Remaining())
    {
      hide Whole, Promised, Out, Window, Rest;

      assert Out() == [];
      TakeFromFile(sent, Window(), Rest(), Promised(), n);
      FillWindow(n);
    }

    /** The relay in between: what was delivered and the window are what was read so far. */
    lemma RelayedSoFar()
      requires Valid() && failure == NoFailure && bufferEnd == 0
      requires status == PipeRead || status == PipeWrite
      ensures sent + Window() == headers + file[..taken]
    {
      assert Out() == [];
      assert (sent + Window()) + file[taken..] == headers + file;
      assert headers + file == (headers + file[..taken]) + file[taken..];
      CancelRight(sent + Window(), headers + file[..taken], file[taken..]);
    }

    /** write_from_pipe. */
    method WriteFromPipe() returns (retval: int)
      requires Valid() && !freed && status == PipeWrite && bufferEnd == 0
      modifies kernel, this`status, this`headerLine, this`headerEnd, this`filepos, this`sent, this`failure
      ensures Valid() && !freed && old(sent) <= sent && retval in {-1, 0, 1} && (retval == 0 ==> NothingToTake())
      ensures retval == -1 ==> status == old(status) && sent == old(sent) && kernel.asked == ToClient
      ensures retval == 0 && failure == NoFailure ==> sent == Promised()
      ensures old(headerLine) == old(headerEnd) ==>
        && kernel.script == old(kernel.script) && failure == old(failure) && sent == old(sent)
        && (if cgiDone then retval == 0 && status == PipeWrite
            else retval == 1 && status == PipeRead && headerLine == headerEnd == 0)
      ensures old(headerLine) < old(headerEnd) ==>
        && kernel.script == Later(old(kernel.script)) && headerEnd == old(headerEnd)
        && var r := Next(old(kernel.script), old(headerEnd - headerLine));
           && retval == (if r == Error then 0 else if r == Blocked then -1 else 1)
           && status == (if r == Error then Dead else PipeWrite) && (r != Error ==> failure == old(failure))
           && headerLine - old(headerLine) == |sent| - |old(sent)| == (if r.Count? then r.n else 0)
           && filepos - old(filepos) == headerLine - old(headerLine)
      ensures Blames(old(kernel.script), kernel.script, true, old(failure), failure)
      ensures AtMostOne(old(kernel.script), kernel.script)
      ensures old(Serving()) ==>
        && failure == old(failure) && Serving()
        && (retval != 0 ==> Steps(old(kernel.script), old(Remaining()), kernel.script, Remaining()))
      ensures status == PipeRead || status == PipeWrite || status == Dead
    {
      RelayBounds();
      hide *;
      var toWrite := headerEnd - headerLine;
      if toWrite == 0 {
        NoRelayCall(kernel.script, failure);
        retval := WindowEmpty();
      } else {
        retval := WriteWindow(toWrite);
      }
    }

    /** The part of write_from_pipe after the check for an empty window. */
    method WriteWindow(toWrite: nat) returns (retval: int)
      requires Valid() && !freed && status == PipeWrite && bufferEnd == 0 && toWrite == headerEnd - headerLine > 0
      modifies kernel, this`status, this`headerLine, this`filepos, this`sent, this`failure
      ensures Valid() && old(sent) <= sent && (retval == 0 ==> NothingToTake() && failure == WriteFailure)
      ensures kernel.script == Later(old(kernel.script)) && kernel.asked == ToClient
      ensures var r := Next(old(kernel.script), toWrite);
        && retval == (if r == Error then 0 else if r == Blocked then -1 else 1)
        && status == (if r == Error then Dead else PipeWrite) && (r != Error ==> failure == old(failure))
        && headerLine - old(headerLine) == |sent| - |old(sent)| == (if r.Count? then r.n else 0)
        && filepos - old(filepos) == headerLine - old(headerLine)
      ensures Blames(old(kernel.script), kernel.script, true, old(failure), failure)
      ensures AtMostOne(old(kernel.script), kernel.script)
      ensures old(Serving()) ==>
        && failure == old(failure) && Serving()
        && Steps(old(kernel.script), old(Remaining()), kernel.script, Remaining())
    {
      RelayBounds();
      hide *;
      RelayCall(kernel.script, toWrite);
      var r := kernel.Call(toWrite, ToClient);
      match r {
        case Blocked => retval := -1;
        case Interrupted => retval := 1;
        case Error =>
          WriteFails();
          return 0;
        case Count(n) =>
          Relayed(n);
          retval := 1;
      }
      IsServing();
    }

    /** The part of write_from_pipe for an empty window. */
    method WindowEmpty() returns (retval: int)
      requires Valid() && !freed && status == PipeWrite && bufferEnd == 0 && headerLine == headerEnd
      modifies this`status, this`headerLine, this`headerEnd
      ensures Valid() && (retval == 0 ==> NothingToTake() && sent == Promised())
      ensures if cgiDone then retval == 0 && status == PipeWrite
              else retval == 1 && status == PipeRead && headerLine == headerEnd == 0
      ensures old(Serving()) ==>
        Serving() && (retval != 0 ==> Steps(kernel.script, old(Remaining()), kernel.script, Remaining()))
    {
      RelayBounds();
      hide *;
      if cgiDone {
        AllRelayed();
        return 0;
      }
      Refill();
      StepWithout(kernel.script, old(Remaining()), Remaining());
      IsServing();
      retval := 1;
    }

    /** The window is empty and the file has ended. */
    lemma AllRelayed()
      requires Valid() && status == PipeWrite && bufferEnd == 0 && headerLine == headerEnd && cgiDone
      ensures NothingToTake() && sent == Promised()
    {
      hide Promised;
      SentIsAPrefix(sent, Out(), Window(), Rest(), Promised());
      assert Rest() == [];
    }

    method Refill()
      requires Valid() && !freed && status == PipeWrite && bufferEnd == 0 && headerLine == headerEnd && !cgiDone
      modifies this`status, this`headerLine, this`headerEnd
      ensures Valid() && status == PipeRead && headerLine == headerEnd == 0 && Remaining() < old(Remaining())
    {
      hide Whole, Promised, Out, Window, Rest;
      StartRelay();
      headerLine, headerEnd := 0, 0;
    }

    method WriteFails()
      requires Valid() && !freed && status == PipeWrite && bufferEnd == 0 && headerLine < headerEnd
      modifies this`status, this`failure
      ensures Valid() && status == Dead && failure == WriteFailure && NothingToTake()
    {
      hide Whole, Promised, Out, Window, Rest;
      SentIsAPrefix(sent, Out(), Window(), Rest(), Promised());
      status, failure := Dead, WriteFailure;
    }

    /** A write of `n` bytes of the relay window. */
    method Relayed(n: nat)
      requires Valid() && !freed && status == PipeWrite && bufferEnd == 0 && n <= headerEnd - headerLine
      modifies this`headerLine, this`filepos, this`sent
      ensures Valid() && sent == old(sent) + old(Window())[..n]
      ensures headerLine == old(headerLine) + n && filepos == old(filepos) + n
      ensures |sent| == |old(sent)| + n && old(sent) <= sent
      ensures Remaining() <= old(Remaining()) && (n > 0 ==> Remaining() < old(Remaining()))
    {
      hide Whole, Promised, Out, Window, Rest;

      assert Out() == [];
      SendWindow(sent, Window(), Rest(), Promised(), n);
      AdvanceWindow(n);
    }

    /** free_request: what is still buffered is sent first. */
    method FreeRequest()
      requires Streaming() && !freed && NothingToTake()
      modifies this`status, this`freed
      ensures Valid() && Streaming()
      ensures freed == !(bufferEnd != 0 && old(status) != Dead) && (freed ==> status == old(status))
      ensures old(!Relaying()) ==> !Relaying() && (old(Serving()) ==> Serving())
      ensures Masked() == old(Masked())
    {
      hide Whole, Promised, Out, Window, Rest;
      if bufferEnd != 0 && status != Dead {
        status := Done;
      } else {
        freed := true;
      }
    }

    /** The dispatch makes a call. */
    ghost predicate Asks()
      reads this`status, this`bufferEnd, this`headerLine, this`headerEnd
    {
      && status != Dead
      && (bufferEnd != 0 || status == Write || (status == PipeRead && headerEnd < SIZE)
          || (status == PipeWrite && headerLine < headerEnd))
    }

    /** The scheduler's dispatch for this request. */
    method Handle() returns (retval: int)
      requires Valid() && !freed
      modifies kernel, this`status, this`bufferStart, this`bufferEnd, this`filepos, this`taken, this`headerLine
      modifies this`headerEnd, this`cgiDone, this`sent, this`failure, buffer
      ensures Streaming() && old(sent) <= sent && retval in {-1, 0, 1}
      ensures if retval == 0 then NothingToTake() && (bufferEnd == 0 || status == Dead) else Valid() && status != Dead
      ensures retval == -1 <==> old(Asks()) && Next(old(kernel.script), 1) == Blocked
      ensures old(bufferEnd) != 0 && old(status) != Dead && retval == 0 ==>
        FirstFails(old(kernel.script)) || (status == Done && bufferEnd == 0)
      ensures old(status) == Dead || (old(status) == Done && (old(bufferEnd) == 0 || bufferEnd == 0)) ==> retval == 0
      ensures old(status) == Dead ==> status == Dead && bufferEnd == 0
      ensures retval == -1 ==>
        && sent == old(sent) && status == old(status) != Dead && bufferEnd == old(bufferEnd)
        && kernel.asked == (if bufferEnd == 0 && status == PipeRead then FromFile else ToClient)
      ensures old(Serving()) && old(failure) == NoFailure ==>
        && failure == NoFailure
        && (retval == 0 || (Serving() && Steps(old(kernel.script), old(Remaining()), kernel.script, Remaining())))
      ensures old(failure) != NoFailure ==>
        retval == 0 && kernel.script == old(kernel.script) && failure == old(failure) && sent == old(sent)
      ensures AtMostOne(old(kernel.script), kernel.script)
      ensures Blames(old(kernel.script), kernel.script, old(Relaying() && bufferEnd == 0), old(failure), failure)
      ensures old(Relaying()) ==> Relaying() || status == Dead
      ensures (old(!Relaying()) ==> !Relaying()) && (old(status) == Dead ==> status == Dead)
      ensures old(Relaying() && bufferEnd != 0) && failure != old(failure) ==> sent == old(sent)
      ensures Masked() == old(Masked())
    {
      hide Whole, Promised, Out, Window, Rest, Steps, Serves, Answers, FirstFails, Remaining, Blames, AtMostOne;
      hide Serving, Next;
      SizeIsNoMatter(kernel.script);
      NoCall(kernel.script, Relaying() && bufferEnd == 0, failure);
      if bufferEnd != 0 && status != Dead && status != Done {
        retval := ReqFlush();
        if retval == -2 {
          retval := 0;
        } else if retval >= 0 {
          retval := 1;
        }
      } else if status == Write {
        retval := ProcessGet();
      } else if status == PipeRead {
        retval := ReadFromPipe();
      } else if status == PipeWrite {
        retval := WriteFromPipe();
      } else if status == Done {
        retval := ReqFlush();
        if retval == -2 {
          retval := 0;
        } else if retval > 0 {
          retval := 1;
        }
      } else {
        retval := 0;
        bufferEnd := 0;
      }
    }

    /** That, and free_request when it has finished. */
    method Dispatch() returns (retval: int)
      requires Valid() && !freed
      modifies kernel, this, buffer
      ensures Valid() && old(sent) <= sent && retval in {-1, 0, 1} && freed == (retval == 0)
      ensures retval == -1 <==> old(Asks()) && Next(old(kernel.script), 1) == Blocked
      ensures old(bufferEnd) != 0 && old(status) != Dead && freed ==>
        FirstFails(old(kernel.script)) || (status == Done && bufferEnd == 0)
      ensures old(status) == Dead || (old(status) == Done && (old(bufferEnd) == 0 || bufferEnd == 0)) ==> freed
      ensures retval == -1 ==>
        && sent == old(sent) && status == old(status) != Dead && bufferEnd == old(bufferEnd)
        && kernel.asked == (if bufferEnd == 0 && status == PipeRead then FromFile else ToClient)
      ensures old(Serving()) && old(failure) == NoFailure ==>
        && failure == NoFailure
        && (freed || (Serving() && Steps(old(kernel.script), old(Remaining()), kernel.script, Remaining())))
      ensures old(failure) != NoFailure ==>
        freed && kernel.script == old(kernel.script) && failure == old(failure) && sent == old(sent)
      ensures AtMostOne(old(kernel.script), kernel.script)
      ensures Blames(old(kernel.script), kernel.script, old(Relaying() && bufferEnd == 0), old(failure), failure)
      ensures old(Relaying()) ==> Relaying() || status == Dead
      ensures (old(!Relaying()) ==> !Relaying()) && (old(status) == Dead ==> status == Dead)
      ensures old(Relaying() && bufferEnd != 0) && failure != old(failure) ==> sent == old(sent)
      ensures Masked() == old(Masked()) && (Masked() ==> freed && sent == old(sent))
    {
      hide Streaming, Valid, NothingToTake, Next, FirstFails, Asks, Steps, Serves, Remaining, Blames, AtMostOne,
           Serving;
      retval := Handle();
      if retval == 0 {
        FreeRequest();
      }
    }
  }

  lemma SizeIsNoMatter(script: seq<Result>)
    ensures forall m, n :: (Next(script, m) == Blocked) == (Next(script, n) == Blocked)
  {
  }

  lemma NoCall(script: seq<Result>, relaying: bool, f: Failure)
    ensures AtMostOne(script, script) && Blames(script, script, relaying, f, f)
  {
  }

  lemma Begins(text: Text, rest: Text, promised: Text)
    requires promised == text + rest
    ensures Whole([], text, [], rest, promised)
  {
    assert [] + text + [] + rest == text + rest;
  }

  lemma Buffered(sent: Text, out: Text, rest: Text, promised: Text, k: nat)
    requires Whole(sent, out, [], rest, promised) && k <= |rest|
    ensures Whole(sent, out + rest[..k], [], rest[k..], promised)
  {
    assert rest == rest[..k] + rest[k..];
  }

  /** More answered calls than an answer needs. */
  function Enough(file: Text, due: Text): nat { 4 * (|file| + |due| + 1) + 3 }

  /** Answer a request for a file, for any number of dispatches and any results of the calls:
      what has been sent is a prefix of what is due, and once the request is finished it is all of
      it exactly when no call for it failed.  (When a read of the file fails everything may still
      have been sent, if only its end had not been seen.)  Nothing fails but by a call that does.  A
      request that ends as DONE has sent everything, except exactly when the file is sent as it is, all
      of the answer fits in the output buffer and the first write of all fails; then it ends with
      nothing sent.  It does end, with everything sent, when no call fails and enough are answered. */
  method Answer(kernel: Kernel, headers: Text, file: Text, head: bool, access: Access, dispatches: nat)
    returns (req: Request)
    requires |headers| <= SIZE && (access.Failed? ==> |access.page| <= SIZE)
    modifies kernel
    ensures var due := Due(headers, file, head, access);
      && req.sent <= due
      && (req.freed && req.failure == NoFailure ==> req.sent == due)
      && (req.failure == WriteFailure ==> req.sent != due || (access.Rewritten? && file == []))
      && (req.failure == NoFailure ==> req.status != Dead)
      && (req.freed ==>
            ((req.status == Done && req.sent != due)
             <==> access.Plain? && !head && 0 < |file| && |headers| + |file| <= SIZE && FirstFails(old(kernel.script))))
      && ((Serves(old(kernel.script), FirstFlush(headers, file, head, access))
           && Answered(old(kernel.script)) > Enough(file, due)
           && dispatches >= |old(kernel.script)| + Enough(file, due)) ==> req.freed && req.sent == due)
    ensures access.Plain? && !head && 0 < |file| && |headers| + |file| <= SIZE && FirstFails(old(kernel.script)) ==>
      dispatches > 0 ==> req.freed && req.status == Done && req.sent == []
    ensures var n := |old(kernel.script)| - |kernel.script|;
      && 0 <= n <= |old(kernel.script)| && kernel.script == old(kernel.script)[n..]
      && (req.failure != NoFailure ==>
            n > 0 && Failing(old(kernel.script)[n - 1], ByRelay(file, head, access) && |req.sent| >= |headers|))
    ensures req.headers == headers && req.file == file && req.head == head && req.access == access
  {
    hide *;
    ghost var first := kernel.script;
    req := new Request(kernel, headers, file, head, access);
    var retval := req.InitGet();
    TracedFirst(req, first, kernel.script);
    AtFirst(req, first, kernel.script);
    if retval == 0 {
      req.FreeRequest();
      TracedFirst(req, first, kernel.script);
      AtFirst(req, first, kernel.script);
    }
    var i := 0;
    while i < dispatches && !req.freed
      invariant i <= dispatches && fresh(req) && fresh(req.buffer) && req.kernel == kernel && req.Valid()
      invariant req.headers == headers && req.file == file && req.head == head && req.access == access
      invariant (req.Masked() <==> req.OneBuffer() && FirstFails(first))
      invariant req.Masked() ==> req.sent == [] && (i > 0 ==> req.freed)
      invariant Traced(req, first, kernel.script)
      invariant Ample(first, req) ==> Ahead(req, first, kernel.script, i)
    {
      ghost var script, left := kernel.script, req.Remaining();
      ghost var relaying, failure := req.Relaying() && req.bufferEnd == 0, req.failure;
      MayFail(req, first, script);
      if Ample(first, req) { AheadMeans(req, first, script, i); }
      var _ := req.Dispatch();
      TracedOn(req, first, script, kernel.script, relaying, failure);
      if Ample(first, req) { StaysAhead(req, first, script, left, kernel.script, i); }
      i := i + 1;
    }
    TracedMeans(req, first, kernel.script);
    Ended(req, first, kernel.script, i, dispatches);
    Told(req);
  }

  /** The calls made are the first of the script, and if one is to blame for a failure it is the last.
      The request is being relayed if its file is to be. */
  ghost predicate Traced(req: Request, first: seq<Result>, script: seq<Result>)
    reads req
  {
    && |script| <= |first| && script == first[|first| - |script|..]
    && (req.failure != NoFailure ==>
          && |script| < |first|
          && Failing(first[|first| - |script| - 1],
                     ByRelay(req.file, req.head, req.access) && |req.sent| >= |req.headers|))
    && (req.status == Dead || (req.Relaying() <==> ByRelay(req.file, req.head, req.access)))
  }

  lemma TracedMeans(req: Request, first: seq<Result>, script: seq<Result>)
    requires Traced(req, first, script)
    ensures var n := |first| - |script|;
      && 0 <= n <= |first| && script == first[n..]
      && (req.failure != NoFailure ==>
            n > 0 && Failing(first[n - 1], ByRelay(req.file, req.head, req.access) && |req.sent| >= |req.headers|))
  {
  }

  lemma TracedFirst(req: Request, first: seq<Result>, script: seq<Result>)
    requires AtMostOne(first, script) && Blames(first, script, false, NoFailure, req.failure)
    requires req.status == Dead || (req.Relaying() <==> ByRelay(req.file, req.head, req.access))
    requires ByRelay(req.file, req.head, req.access) && req.failure != NoFailure ==> |req.sent| < |req.headers|
    ensures Traced(req, first, script)
  {
    assert first[0..] == first;
  }

  /** While the headers of a relay are being flushed they have not all been sent. */
  lemma MayFail(req: Request, first: seq<Result>, script: seq<Result>)
    requires req.Valid() && Traced(req, first, script)
    ensures |script| <= |first| && script == first[|first| - |script|..]
    ensures req.failure == NoFailure && req.Relaying() && req.bufferEnd != 0 ==> |req.sent| < |req.headers|
    ensures req.failure == NoFailure ==> req.status != Dead
    ensures req.failure != NoFailure ==>
      && |script| < |first|
      && Failing(first[|first| - |script| - 1], ByRelay(req.file, req.head, req.access) && |req.sent| >= |req.headers|)
    ensures req.status == Dead || (req.Relaying() <==> ByRelay(req.file, req.head, req.access))
  {
    hide Failing;
    if req.failure == NoFailure && req.Relaying() && req.bufferEnd != 0 {
      StreamIs(req);
      HeadersLeft(req);
    }
  }

  lemma HeadersLeft(req: Request)
    requires req.Shape() && req.Relaying() && req.bufferEnd != 0
    requires Whole(req.sent, req.Out(), req.Window(), req.Rest(), req.Promised())
    ensures |req.sent| < |req.headers|
  {
    assert |req.Out()| > 0 && |req.Rest()| == |req.file| && |req.Promised()| == |req.headers| + |req.file|;
    assert |req.sent| + |req.Out()| + |req.Window()| + |req.Rest()| == |req.Promised()|;
  }

  lemma TracedOn(req: Request, first: seq<Result>, script: seq<Result>, script': seq<Result>, relaying: bool,
                 failure: Failure)
    requires |script| <= |first| && script == first[|first| - |script|..]
    requires AtMostOne(script, script') && Blames(script, script', relaying, failure, req.failure)
    requires req.status == Dead || (req.Relaying() <==> ByRelay(req.file, req.head, req.access))
    requires failure != NoFailure ==>
      && script' == script && |script| < |first|
      && Failing(first[|first| - |script| - 1], ByRelay(req.file, req.head, req.access) && |req.sent| >= |req.headers|)
    requires req.failure != failure && !relaying ==>
      |req.sent| < |req.headers| || !ByRelay(req.file, req.head, req.access)
    ensures Traced(req, first, script')
  {
  }

  /** No call fails, and enough are answered. */
  ghost predicate Ample(script: seq<Result>, req: Request) {
    && Serves(script, FirstFlush(req.headers, req.file, req.head, req.access))
    && Answered(script) > Enough(req.file, req.Promised())
  }

  /** More calls are still to be answered than the request needs, and it is getting there. */
  ghost predicate Ahead(req: Request, first: seq<Result>, script: seq<Result>, i: nat)
    reads req
  {
    && req.failure == NoFailure
    && (req.freed || (Serves(script, req.ToFlush()) && Answered(script) >= req.Remaining()
                      && i + |script| + req.Remaining() <= |first| + Enough(req.file, req.Promised())))
  }

  lemma AtFirst(req: Request, first: seq<Result>, script: seq<Result>)
    requires req.Streaming() && AtMostOne(first, script)
    requires script == req.kernel.script
    requires Serves(first, FirstFlush(req.headers, req.file, req.head, req.access)) ==>
      req.failure == NoFailure && req.Serving()
    ensures Ample(first, req) ==> Ahead(req, first, script, 0)
  {
    hide Whole, Serves;
  }

  lemma AheadMeans(req: Request, first: seq<Result>, script: seq<Result>, i: nat)
    requires req.Valid() && !req.freed && Ahead(req, first, script, i)
    ensures req.failure == NoFailure && (script == req.kernel.script ==> req.Serving())
    ensures Answered(script) >= req.Remaining() > 0
    ensures i + |script| + req.Remaining() <= |first| + Enough(req.file, req.Promised())
  {
    StillPositive(req);
    hide Request.Valid, Request.Remaining, Serves, Answered, Enough;
  }

  lemma StaysAhead(req: Request, first: seq<Result>, script: seq<Result>, left: int, script': seq<Result>, i: nat)
    requires req.failure == NoFailure
    requires req.freed
      || (req.Serving() && req.kernel.script == script' && Steps(script, left, script', req.Remaining()))
    requires Answered(script) >= left > 0 && i + |script| + left <= |first| + Enough(req.file, req.Promised())
    ensures Ahead(req, first, script', i + 1)
  {
    hide Steps, Serves, Answered, Enough, Request.Remaining;
    if !req.freed { StepsAreFew(script, left, script', req.Remaining()); }
  }

  lemma Ended(req: Request, first: seq<Result>, script: seq<Result>, i: nat, dispatches: nat)
    requires req.Valid() && (req.freed || i == dispatches) && (Ample(first, req) ==> Ahead(req, first, script, i))
    ensures Ample(first, req) && dispatches >= |first| + Enough(req.file, req.Promised()) ==>
      req.freed && req.sent == req.Promised()
    ensures Ample(first, req) <==>
      && Serves(first, FirstFlush(req.headers, req.file, req.head, req.access))
      && Answered(first) > Enough(req.file, req.Promised())
  {
    if Ample(first, req) {
      if !req.freed { AheadMeans(req, first, script, i); }
      Told(req);
    }
    hide Request.Valid, Serves, Answered, Enough, Request.Remaining, Request.Promised;
  }

  lemma PromisedIs(req: Request)
    ensures req.Promised() == Due(req.headers, req.file, req.head, req.access)
  {
  }

  /** What the state of a request says about what has been sent. */
  lemma Told(req: Request)
    requires req.Valid()
    ensures req.sent <= req.Promised() && (req.freed && req.failure == NoFailure ==> req.sent == req.Promised())
    ensures (req.failure == WriteFailure ==> req.sent != req.Promised() || (req.access.Rewritten? && req.file == []))
    ensures req.failure == NoFailure ==> req.status != Dead
    ensures req.freed ==> (req.Masked() <==> req.status == Done && req.sent != req.Promised())
    ensures req.OneBuffer() <==> req.access.Plain? && !req.head && 0 < |req.file| && |req.headers| + |req.file| <= SIZE
    ensures req.Masked() ==> req.status == Done
    ensures req.Promised() == Due(req.headers, req.file, req.head, req.access)
  {
    PromisedIs(req);
    hide Whole, Request.Promised, Request.Valid, Request.Streaming;
    if req.failure == NoFailure { ToldWhole(req); } else { ToldFailed(req); }
  }

  lemma ToldWhole(req: Request)
    requires req.Valid() && req.failure == NoFailure
    ensures req.sent <= req.Promised() && (req.freed ==> req.sent == req.Promised()) && req.status != Dead
  {
    StreamIs(req);
    hide *;
    SentFits(req);
    if req.freed { AllSent(req.sent, req.Promised()); }
  }

  lemma StreamIs(req: Request)
    requires req.Valid() && req.failure == NoFailure
    ensures req.Shape() && req.status != Dead
    ensures req.freed ==> Whole(req.sent, [], [], [], req.Promised())
    ensures Whole(req.sent, req.Out(), req.Window(), req.Rest(), req.Promised())
  {
    hide Whole, Request.Promised, Request.Out, Request.Window, Request.Rest;
  }

  lemma AllSent(sent: Text, promised: Text)
    requires Whole(sent, [], [], [], promised)
    ensures sent == promised
  {
  }

  lemma ToldFailed(req: Request)
    requires req.Valid() && req.failure != NoFailure
    ensures req.sent <= req.Promised()
    ensures req.failure == ReadFailure ==> req.status == Dead
    ensures req.failure == WriteFailure ==>
      && (req.status != Done ==> req.sent != req.Promised() || (req.access.Rewritten? && req.file == []))
      && (req.status == Done ==> req.sent != req.Promised())
  {
    hide Whole, Request.Promised, Request.Out, Request.Window, Request.Rest;
  }

  /** And a request does end: when every call is answered with at least one byte, it is finished
      after finitely many dispatches, and everything has been sent. */
  method AnswerPromptly(headers: Text, file: Text, head: bool, access: Access) returns (req: Request)
    requires |headers| <= SIZE && (access.Failed? ==> |access.page| <= SIZE)
    ensures req.freed && req.sent == Due(headers, file, head, access)
  {
    hide *;
    var kernel := NextAnswer();
    req := new Request(kernel, headers, file, head, access);
    var retval := req.InitGet();
    if retval == 0 {
      req.FreeRequest();
    }
    ghost var left := req.Remaining();
    StillPositive(req);
    while !req.freed
      invariant fresh(req) && fresh(req.buffer) && fresh(kernel) && req.kernel == kernel
      invariant req.headers == headers && req.file == file && req.head == head && req.access == access
      invariant req.Valid() && req.failure == NoFailure && left == req.Remaining() && (req.freed || left > 0)
      decreases !req.freed, left
    {
      DispatchPromptly(req);
      StillPositive(req);
      left := req.Remaining();
    }
    Told(req);
  }

  method NextAnswer() returns (kernel: Kernel)
    ensures fresh(kernel) && Answers(kernel.script) && (forall due :: Serves(kernel.script, due))
  {
    var n: int := *;
    kernel := new Kernel([Count(if n < 1 then 1 else n)]);
  }

  /** A dispatch in which the kernel answers. */
  method DispatchPromptly(req: Request)
    requires req.Valid() && !req.freed && req.failure == NoFailure
    modifies req, req.kernel, req.buffer
    ensures req.Valid() && req.failure == NoFailure
    ensures req.freed || req.Remaining() < old(req.Remaining())
  {
    hide Request.Valid, Request.Remaining;
    var n: int := *;
    req.kernel.script := [Count(if n < 1 then 1 else n)];
    OneAnswer(req.kernel.script[0], req.ToFlush());
    assert req.kernel.script == [req.kernel.script[0]];
    var _ := req.Dispatch();
  }

  lemma OneAnswer(r: Result, due: int)
    requires r.Count?
    ensures Serves([r], due)
  {
    assert [r][1..] == [];
  }

  lemma StillPositive(req: Request)
    requires req.Valid() && req.failure == NoFailure
    ensures !req.freed ==> req.Remaining() > 0
  {
    hide Request.Valid, Request.Streaming, Request.Promised;
    SentFits(req);
  }

  lemma SentFits(req: Request)
    requires req.Valid() && req.failure == NoFailure
    ensures req.Shape() && req.status != Dead && |req.sent| <= |req.Promised()| && req.sent <= req.Promised()
  {
    StreamIs(req);
    hide Whole, Request.Promised, Request.Valid, Request.Streaming;
    SentIsAPrefix(req.sent, req.Out(), req.Window(), req.Rest(), req.Promised());
  }

  /** The status does not tell whether the answer was sent: when the file fits in the buffer
      with the headers and the first write of all fails, the request ends as DONE, like a
      finished one, though nothing was sent. */
  method FirstFlushFails(headers: Text, file: Text) returns (req: Request)
    requires 0 < |file| && |headers| + |file| <= SIZE
    ensures req.freed && req.status == Done && req.sent == [] && Due(headers, file, false, Plain) == headers + file
  {
    hide Whole, Request.Streaming, Request.Valid, Request.NothingToTake, Request.Remaining, Steps, Serves, Answers;
    var kernel := new Kernel([Error]);
    req := new Request(kernel, headers, file, false, Plain);
    var _ := req.InitGet();
    assert req.Masked();
    var _ := req.Dispatch();
  }
}
