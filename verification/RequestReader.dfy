/** Reading a request: the resumable header scanner and the transfer of a POST body to its
    temporary file, under any division of the client's bytes into packets. */
module RequestReader {
  import opened Options
  import opened Bytes

  const CR: Byte := 13
  const LF: Byte := 10

  // ------------------------------------------------- lines, in one shot

  datatype LineVerdict = Refuse | Simple | Full

  /** What process_header_end reports, with the method and Content-Length of the request. */
  datatype EndVerdict = EndVerdict(accepted: bool, post: bool, contentLength: Option<int>)

  /** process_logline, process_option_line and process_header_end, as functions of the lines
      they have been handed. */
  datatype Handlers = Handlers(logline: Text -> LineVerdict, option: seq<Text> -> bool,
                               headerEnd: seq<Text> -> EndVerdict, postLimit: int)

  /** `at` is the number of bytes consumed.  For Incomplete, `start` is where the current line
      begins. */
  datatype Outcome =
    | Incomplete(lines: seq<Text>, start: nat)
    | Refused(lines: seq<Text>, at: nat)
    | SimpleRequest(lines: seq<Text>, at: nat)
    | Headers(lines: seq<Text>, at: nat)

  /** The index of the first LF of `s` at or after `from`, |s| if there is none. */
  ghost function LineEnd(s: Text, from: nat): (i: nat)
    requires from <= |s|
    ensures from <= i <= |s|
    ensures LF !in s[from..i] && (i < |s| ==> s[i] == LF)
    decreases |s| - from
  {
    if from == |s| || s[from] == LF then from
    else
      var i := LineEnd(s, from + 1);
      assert s[from..i] == [s[from]] + s[from + 1..i];
      i
  }

  /** A line without the CRs before its LF. */
  function StripCr(t: Text): (r: Text)
    ensures |r| <= |t| && r == t[..|r|]
    ensures forall i :: |r| <= i < |t| ==> t[i] == CR
    ensures r != [] ==> r[|r| - 1] != CR
  {
    if t != [] && t[|t| - 1] == CR then StripCr(t[..|t| - 1]) else t
  }

  /** The outcome when a line `text` that ends before `at` follows `lines`, Incomplete if the
      headers go on.  The first line is always a request line, and an empty line after it ends
      the headers. */
  function AfterLine(h: Handlers, lines: seq<Text>, text: Text, at: nat): (o: Outcome)
    ensures lines <= o.lines && (if o.Incomplete? then o.start else o.at) == at
    ensures (o.Incomplete? || o.Headers?) ==> o.lines != []
  {
    if lines == [] then
      match h.logline(text)
      case Refuse => Refused([text], at)
      case Simple => SimpleRequest([text], at)
      case Full => Incomplete([text], at)
    else if text == [] then Headers(lines, at)
    else if h.option(lines + [text]) then Incomplete(lines + [text], at)
    else Refused(lines + [text], at)
  }

  /** The lines of `s` from `from` on, after the lines already handed over; a line ends with
      CR*LF. */
  ghost function Outline(s: Text, h: Handlers, from: nat, lines: seq<Text>): (o: Outcome)
    requires from <= |s|
    ensures !o.Incomplete? ==> from < o.at <= |s|
    decreases |s| - from
  {
    var i := LineEnd(s, from);
    if i == |s| then Incomplete(lines, from)
    else
      var o := AfterLine(h, lines, StripCr(s[from..i]), i + 1);
      if o.Incomplete? then Outline(s, h, i + 1, o.lines) else o
  }

  /** The one-shot reading of a stream. */
  ghost function OneShot(s: Text, h: Handlers): (o: Outcome)
    ensures !o.Incomplete? ==> 0 < o.at <= |s|
  {
    Outline(s, h, 0, [])
  }

  /** The headers announce a body of `length` bytes that the server takes. */
  predicate BodyExpected(h: Handlers, lines: seq<Text>, length: int) {
    var v := h.headerEnd(lines);
    v.accepted && v.post && v.contentLength == Some(length) && 0 < length && (h.postLimit == 0 || length <= h.postLimit)
  }

  /** The length of the body that the headers announce, if the server takes one. */
  function BodyLength(h: Handlers, o: Outcome): (n: nat)
    ensures 0 < n <==> o.Headers? && exists k :: BodyExpected(h, o.lines, k)
    ensures 0 < n ==> BodyExpected(h, o.lines, n)
  {
    var length := if o.Headers? then h.headerEnd(o.lines).contentLength else None;
    if length.Some? && BodyExpected(h, o.lines, length.value) then length.value else 0
  }

  /** What read_header reports of a decided header: the request goes on exactly if process_header_end
      accepts it and, for a POST, its body. */
  predicate Accepted(h: Handlers, o: Outcome) {
    match o
    case Headers(lines, _) => h.headerEnd(lines).accepted && (h.headerEnd(lines).post ==> BodyLength(h, o) > 0)
    case SimpleRequest(lines, _) => h.headerEnd(lines).accepted
    case _ => false
  }

  lemma LineEndIs(s: Text, from: nat, i: nat)
    requires from <= i <= |s| && LF !in s[from..i] && (i < |s| ==> s[i] == LF)
    ensures LineEnd(s, from) == i
    decreases i - from
  {
    if from < i {
      assert s[from..i] == [s[from]] + s[from + 1..i];
      LineEndIs(s, from + 1, i);
    }
  }

  lemma SliceOfPrefix(s: Text, k: nat, a: nat, b: nat)
    requires a <= b <= k <= |s|
    ensures s[..k][a..b] == s[a..b]
  {
  }

  /** Bytes after a decided header change nothing; after an undecided one the reading goes on
      from the start of the last line. */
  lemma {:induction false} MoreBytes(s: Text, k: nat, h: Handlers, from: nat, lines: seq<Text>)
    requires from <= k <= |s|
    ensures var o := Outline(s[..k], h, from, lines);
      if o.Incomplete? then
        && from <= o.start <= k && LF !in s[o.start..k] && lines <= o.lines && (o.lines == [] ==> o.start == from)
        && Outline(s, h, from, lines) == Outline(s, h, o.start, o.lines)
      else
        && Outline(s, h, from, lines) == o && from < o.at <= k && lines <= o.lines
        && (o.Headers? ==> o.lines != [])
    decreases k - from
  {
    hide *;
    OutlineStep(s, h, from, lines);
    OutlineStep(s[..k], h, from, lines);
    var i := LineEnd(s[..k], from);
    if i < k {
      SliceOfPrefix(s, k, from, i);
      LineEndIs(s, from, i);
      var o := AfterLine(h, lines, StripCr(s[from..i]), i + 1);
      if o.Incomplete? { MoreBytes(s, k, h, i + 1, o.lines); }
    } else {
      SliceOfPrefix(s, k, from, k);
    }
  }

  lemma OutlineStep(s: Text, h: Handlers, from: nat, lines: seq<Text>)
    requires from <= |s|
    ensures var i := LineEnd(s, from);
      Outline(s, h, from, lines) ==
        if i == |s| then Incomplete(lines, from)
        else
          var o := AfterLine(h, lines, StripCr(s[from..i]), i + 1);
          if o.Incomplete? then Outline(s, h, i + 1, o.lines) else o
  {
  }

  /** However much of a stream has arrived, the lines read so far are the first lines of the
      whole stream, and an outcome once reached is the outcome of the whole stream. */
  lemma {:induction false} LinesOfAPrefix(s: Text, k: nat, h: Handlers)
    requires k <= |s|
    ensures OneShot(s[..k], h).lines <= OneShot(s, h).lines
    ensures !OneShot(s[..k], h).Incomplete? ==> OneShot(s[..k], h) == OneShot(s, h)
  {
    MoreBytes(s, k, h, 0, []);
    var o := OneShot(s[..k], h);
    if o.Incomplete? {
      MoreBytes(s, |s|, h, o.start, o.lines);
      assert s[..|s|] == s;
    }
  }

  // ------------------------------------------------- what a client writes

  function Crs(n: nat): (t: Text)
    ensures |t| == n && forall i :: 0 <= i < n ==> t[i] == CR
  {
    seq(n, _ => CR)
  }

  /** Lines as a client writes them, each with some CRs before its LF. */
  ghost function Render(lines: seq<Text>, crs: seq<nat>): Text
    requires |lines| == |crs|
  {
    if lines == [] then [] else lines[0] + Crs(crs[0]) + [LF] + Render(lines[1..], crs[1..])
  }

  /** No line has a LF in it or a CR at its end. */
  ghost predicate Proper(lines: seq<Text>) {
    forall l :: l in lines ==> LF !in l && (l != [] ==> l[|l| - 1] != CR)
  }

  /** The handlers take all of the lines, behind those already handed over. */
  ghost predicate Takes(h: Handlers, before: seq<Text>, lines: seq<Text>)
    decreases |lines|
  {
    lines != [] ==>
      && (if before == [] then h.logline(lines[0]) == Full else lines[0] != [] && h.option(before + [lines[0]]))
      && Takes(h, before + [lines[0]], lines[1..])
  }

  /** A line that is not taken decides the headers: the first one as a request without a version or as a
      refused one, a later one as the end of the headers if it is empty, and as refused if not. */
  lemma WrittenDecides(h: Handlers, lines: seq<Text>, crs: seq<nat>, l: Text, n: nat, rest: Text)
    requires |lines| == |crs| && Proper(lines + [l]) && Takes(h, [], lines)
    ensures var s, at := Render(lines, crs) + (l + Crs(n) + [LF] + rest), |Render(lines, crs)| + |l| + n + 1;
      && (lines == [] && h.logline(l) == Simple ==> OneShot(s, h) == SimpleRequest([l], at))
      && (lines == [] && h.logline(l) == Refuse ==> OneShot(s, h) == Refused([l], at))
      && (lines != [] && l == [] ==> OneShot(s, h) == Headers(lines, at))
      && (lines != [] && l != [] && !h.option(lines + [l]) ==> OneShot(s, h) == Refused(lines + [l], at))
  {
    hide *;
    var s := Render(lines, crs) + (l + Crs(n) + [LF] + rest);
    ProperParts(lines, l);
    assert s[0..] == s && [] + lines == lines;
    OneShotIs(s, h);
    LastDecides(h, lines, l, |Render(lines, crs)| + |l| + n + 1);
    OutlineDecided(s, h, 0, [], lines, crs, l, n, rest);
  }

  /** What a client writes is what is read: the lines, to the byte behind the empty line. */
  lemma WrittenIsRead(h: Handlers, lines: seq<Text>, crs: seq<nat>, end: nat, rest: Text)
    requires |lines| == |crs| > 0 && Proper(lines) && Takes(h, [], lines)
    ensures OneShot(Render(lines, crs) + (Crs(end) + [LF] + rest), h) == Headers(lines, |Render(lines, crs)| + end + 1)
  {
    assert Proper(lines + [[]]) && [] + Crs(end) == Crs(end);
    hide *;
    WrittenDecides(h, lines, crs, [], end, rest);
  }

  lemma ProperParts(lines: seq<Text>, l: Text)
    requires Proper(lines + [l])
    ensures Proper(lines) && LF !in l && (l != [] ==> l[|l| - 1] != CR)
  {
    assert l in lines + [l] && forall k :: k in lines ==> k in lines + [l];
  }

  lemma LastDecides(h: Handlers, lines: seq<Text>, l: Text, at: nat)
    ensures lines == [] && h.logline(l) == Simple ==> AfterLine(h, lines, l, at) == SimpleRequest([l], at)
    ensures lines == [] && h.logline(l) == Refuse ==> AfterLine(h, lines, l, at) == Refused([l], at)
    ensures lines != [] && l == [] ==> AfterLine(h, lines, l, at) == Headers(lines, at)
    ensures lines != [] && l != [] && !h.option(lines + [l]) ==> AfterLine(h, lines, l, at) == Refused(lines + [l], at)
  {
  }

  lemma {:induction false} OutlineDecided(s: Text, h: Handlers, from: nat, before: seq<Text>, lines: seq<Text>,
                                          crs: seq<nat>, l: Text, n: nat, rest: Text)
    requires from <= |s| && |lines| == |crs| && s[from..] == Render(lines, crs) + (l + Crs(n) + [LF] + rest)
    requires Proper(lines) && LF !in l && (l != [] ==> l[|l| - 1] != CR) && Takes(h, before, lines)
    ensures var o := AfterLine(h, before + lines, l, from + |Render(lines, crs)| + |l| + n + 1);
      !o.Incomplete? ==> Outline(s, h, from, before) == o
    decreases |lines|
  {
    hide *;
    OutlineStep(s, h, from, before);
    if lines == [] {
      RenderNone(lines, crs, l + Crs(n) + [LF] + rest);
      assert before + lines == before;
      LineWritten(s, from, l, n, rest);
    } else {
      var tail := Render(lines[1..], crs[1..]) + (l + Crs(n) + [LF] + rest);
      RenderFirst(lines, crs, l + Crs(n) + [LF] + rest);
      LineWritten(s, from, lines[0], crs[0], tail);
      TakesFirst(h, before, lines, from + |lines[0]| + crs[0] + 1);
      OneMoreLine(before, lines);
      OutlineDecided(s, h, from + |lines[0]| + crs[0] + 1, before + [lines[0]], lines[1..], crs[1..], l, n, rest);
    }
  }

  lemma RenderNone(lines: seq<Text>, crs: seq<nat>, rest: Text)
    requires lines == [] && crs == []
    ensures Render(lines, crs) == [] && Render(lines, crs) + rest == rest
  {
  }

  lemma RenderFirst(lines: seq<Text>, crs: seq<nat>, rest: Text)
    requires |lines| == |crs| > 0 && Proper(lines)
    ensures Render(lines, crs) + rest == lines[0] + Crs(crs[0]) + [LF] + (Render(lines[1..], crs[1..]) + rest)
    ensures |Render(lines, crs)| == |lines[0]| + crs[0] + 1 + |Render(lines[1..], crs[1..])|
    ensures Proper(lines[1..]) && LF !in lines[0] && (lines[0] != [] ==> lines[0][|lines[0]| - 1] != CR)
  {
    assert lines[0] in lines && forall k :: k in lines[1..] ==> k in lines;
    var l, r := lines[0], Render(lines[1..], crs[1..]);
    assert Render(lines, crs) == l + Crs(crs[0]) + [LF] + r;
    hide *;
    Together(l, Crs(crs[0]), [LF], r, rest);
  }

  lemma Together(a: Text, b: Text, c: Text, d: Text, e: Text)
    ensures (a + b + c + d) + e == a + b + c + (d + e)
  {
  }

  lemma OneMoreLine(before: seq<Text>, lines: seq<Text>)
    requires lines != []
    ensures before + lines == before + [lines[0]] + lines[1..]
  {
  }

  lemma TakesFirst(h: Handlers, before: seq<Text>, lines: seq<Text>, at: nat)
    requires lines != [] && Takes(h, before, lines)
    ensures AfterLine(h, before, lines[0], at) == Incomplete(before + [lines[0]], at)
    ensures Takes(h, before + [lines[0]], lines[1..])
  {
  }

  lemma LineWritten(s: Text, from: nat, l: Text, n: nat, tail: Text)
    requires from <= |s| && s[from..] == l + Crs(n) + [LF] + tail && LF !in l && (l != [] ==> l[|l| - 1] != CR)
    ensures from + |l| + n < |s| && LineEnd(s, from) == from + |l| + n
    ensures StripCr(s[from..from + |l| + n]) == l && s[from + |l| + n + 1..] == tail
  {
    hide *;
    var i := from + |l| + n;
    assert |s| - from == |l| + n + 1 + |tail|;
    WithinTail(s, from, |l| + n);
    LineFirst(l, n, tail);
    LineEndIs(s, from, i);
    StripAll(l, n);
  }

  lemma WithinTail(s: Text, from: nat, k: nat)
    requires from + k < |s|
    ensures s[from..from + k] == s[from..][..k] && s[from + k] == s[from..][k]
    ensures s[from + k + 1..] == s[from..][k + 1..]
  {
  }

  lemma LineFirst(l: Text, n: nat, tail: Text)
    requires LF !in l
    ensures var t, k := l + Crs(n) + [LF] + tail, |l| + n;
      t[..k] == l + Crs(n) && t[k] == LF && t[k + 1..] == tail && LF !in t[..k]
  {
  }

  lemma {:induction false} StripAll(l: Text, n: nat)
    requires l != [] ==> l[|l| - 1] != CR
    ensures StripCr(l + Crs(n)) == l
  {
    if n == 0 {
      assert l + Crs(0) == l;
    } else {
      var t := l + Crs(n);
      assert t[..|t| - 1] == l + Crs(n - 1);
      StripAll(l, n - 1);
    }
  }

  // ------------------------------------------------- the state of the scanner inside a line

  /** req->status; Answering stands for the statuses reached once the request has been read. */
  datatype Status = HeaderText | OneCr | OneLf | TwoCr | BodyRead | BodyWrite | Answering | Dead

  predicate InHeader(st: Status) { st == HeaderText || st == OneCr || st == OneLf || st == TwoCr }

  /** The status after the part `t` of the current line, which starts at `start`, and where
      header_end stands if the line should end now; `later` for a line after the first. */
  ghost predicate LineState(st: Status, headerEnd: nat, later: bool, start: nat, t: Text) {
    if later && t == [] then st == OneLf
    else if later && StripCr(t) == [] then st == TwoCr
    else if t != [] && t[|t| - 1] == CR then st == OneCr && headerEnd == start + |StripCr(t)|
    else st == HeaderText
  }

  lemma EmptyLine(h: Handlers, lines: seq<Text>, text: Text, at: nat)
    requires lines != [] && text == []
    ensures AfterLine(h, lines, text, at) == Headers(lines, at)
  {
  }

  /** What the parsed bytes mean when the byte at `p` is parsed. */
  lemma OneMoreByte(s: Text, p: nat, h: Handlers, lines: seq<Text>, start: nat)
    requires p < |s| && OneShot(s[..p], h) == Incomplete(lines, start)
    ensures start <= p && LF !in s[start..p] && (lines == [] ==> start == 0)
    ensures OneShot(s[..p + 1], h) ==
      if s[p] != LF then Incomplete(lines, start) else AfterLine(h, lines, StripCr(s[start..p]), p + 1)
  {
    var s' := s[..p + 1];
    assert s'[..p] == s[..p] && (start <= p ==> s'[start..p] == s[start..p]);
    MoreBytes(s', p, h, 0, []);
    OneShotIs(s', h);
    OneShotIs(s[..p], h);
    hide *;
    LastByte(s', p, h, lines, start);
  }

  lemma OneShotIs(s: Text, h: Handlers)
    ensures OneShot(s, h) == Outline(s, h, 0, [])
  {
  }

  /** The last byte of a text, in a line that starts at `start`. */
  lemma LastByte(s: Text, p: nat, h: Handlers, lines: seq<Text>, start: nat)
    requires start <= p && |s| == p + 1 && LF !in s[start..p]
    ensures Outline(s, h, start, lines) ==
      if s[p] != LF then Incomplete(lines, start) else AfterLine(h, lines, StripCr(s[start..p]), p + 1)
  {
    hide *;
    OutlineStep(s, h, start, lines);
    if s[p] == LF {
      LineEndIs(s, start, p);
      var o := AfterLine(h, lines, StripCr(s[start..p]), p + 1);
      if o.Incomplete? {
        LineEndIs(s, p + 1, p + 1);
        OutlineStep(s, h, p + 1, o.lines);
      }
    } else {
      assert s[start..p + 1] == s[start..p] + [s[p]];
      LineEndIs(s, start, p + 1);
    }
  }

  // ------------------------------------------------- the peer

  /** What a read or write is made on. */
  datatype Target = FromClient | ToPostFile

  datatype Received = Got(data: Text) | Interrupted | WouldBlock | Failed | Closed

  /** What read_header and read_body make of a read. */
  function ReadResult(got: Received): int {
    match got case Got(_) => 1 case Interrupted => 1 case WouldBlock => -1 case Failed => 0 case Closed => 0
  }

  function BodyReadResult(got: Received): int {
    match got case Got(_) => 1 case WouldBlock => -1 case _ => 0
  }

  /** What a write to the temporary file answers, and what write_body makes of it. */
  datatype Written = Wrote(n: nat) | WriteInterrupted | WriteBlocked | WriteFailed

  function WriteResult(w: Written): int {
    match w case Wrote(_) => 1 case WriteInterrupted => 1 case WriteBlocked => -1 case WriteFailed => 0
  }

  /** write: any error, or any number of bytes up to `max`; a prompt environment takes at least one. */
  method WritePost(max: nat, prompt: bool) returns (w: Written)
    requires max > 0
    ensures (w.Wrote? ==> w.n <= max) && (prompt ==> w.Wrote? && w.n > 0)
  {
    var n: nat, error: int := *, *;
    if prompt && !(0 < n <= max) {
      n, error := 1, 0;
    }
    w := if error == 0 && n <= max then Wrote(n)
         else if error == 1 then WriteInterrupted
         else if error == 2 then WriteBlocked
         else WriteFailed;
    if prompt {
      w := Wrote(n);
    }
  }

  /** The client: `total` is everything it will send from the first byte of the request. */
  class Peer {
    const total: Text
    var taken: nat
    ghost var calls: nat       // how often it has been read from

    constructor (total: Text, taken: nat)
      requires taken <= |total|
      ensures this.total == total && this.taken == taken
    {
      this.total, this.taken, calls := total, taken, 0;
    }

    /** read: any error, or any number of bytes up to `max`; a prompt environment has at least one
        byte unless everything has been sent. */
    method Read(max: nat, prompt: bool) returns (r: Received)
      requires max > 0 && taken <= |total|
      modifies this
      ensures taken <= |total| && calls == old(calls) + 1 && (prompt && old(taken) < |total| ==> r.Got?)
      ensures r.Got? ==>
        0 < |r.data| <= max && taken == old(taken) + |r.data| && r.data == total[old(taken)..taken]
      ensures !r.Got? ==> taken == old(taken)
    {
      calls := calls + 1;
      var n: nat, error: int := *, *;
      if prompt && taken < |total| && !(0 < n <= max && n <= |total| - taken) {
        n := 1;
      }
      if 0 < n <= max && n <= |total| - taken {
        r := Got(total[taken..taken + n]);
        taken := taken + n;
      } else {
        r := if error == 0 then Interrupted else if error == 1 then WouldBlock
             else if error == 2 then Failed else Closed;
      }
    }
  }

  // ------------------------------------------------- the request

  class Request {
    const h: Handlers
    const peer: Peer
    const prompt: bool        // every read and write moves at least one byte
    const clientStream: array<Byte>
    const buffer: array<Byte>
    var status: Status
    var streamPos: nat        // client_stream_pos
    var parsePos: nat
    var headerLine: nat       // header_line and header_end, as indices into client_stream,
    var headerEnd: nat        //   or into buffer when `inBuffer`
    var inBuffer: bool
    var logline: bool         // the request line has been processed
    var filesize: int
    var filepos: int
    var posted: Text          // what has been written to post_data_fd
    var cgiStarted: bool      // init_cgi has been called for the body
    var lines: seq<Text>      // what the line handlers were given
    ghost var asked: Target   // what the last read or write was made on

    ghost function Input(): (s: Text)
      reads peer
      requires peer.taken <= |peer.total|
    {
      peer.total[..peer.taken]
    }

    ghost predicate Shape()
      reads this, peer
    {
      && clientStream.Length == buffer.Length == SIZE && clientStream != buffer
      && peer.taken <= |peer.total|
      && parsePos <= streamPos <= SIZE && streamPos <= peer.taken
    }

    /** In the headers: the state of the scanner is that of the bytes parsed so far. */
    ghost predicate Scanning()
      reads this, peer, clientStream
    {
      && Shape() && InHeader(status) && !inBuffer && streamPos == peer.taken
      && headerLine <= parsePos
      && clientStream[headerLine..streamPos] == Input()[headerLine..]
      && OneShot(Input()[..parsePos], h) == Incomplete(lines, headerLine)
      && logline == (lines != [])
      && LineState(status, headerEnd, logline, headerLine, Input()[headerLine..parsePos])
      && posted == [] && !cgiStarted && filesize == 0
    }

    /** The bytes between header_line and header_end. */
    function Window(): (w: Text)
      reads this`inBuffer, this`headerLine, this`headerEnd, clientStream, buffer
      requires headerLine <= headerEnd <= clientStream.Length == buffer.Length
    {
      if inBuffer then buffer[headerLine..headerEnd] else clientStream[headerLine..headerEnd]
    }

    /** The first `n` bytes after the headers. */
    ghost function Body(n: nat): Text
      reads this`parsePos, peer
      requires peer.taken <= |peer.total| && parsePos + n <= peer.taken
    {
      Input()[parsePos..parsePos + n]
    }

    /** In the body: what has been written and the window are the body's first bytes. */
    ghost predicate Posting()
      reads this, peer, clientStream, buffer
    {
      && Shape() && (status == BodyRead || status == BodyWrite) && !cgiStarted
      && headerLine <= headerEnd <= SIZE
      && OneShot(Input(), h) == Headers(lines, parsePos)
      && BodyExpected(h, lines, filesize)
      && |posted| == filepos && filepos + (headerEnd - headerLine) <= filesize
      && parsePos + filepos + (headerEnd - headerLine) <= peer.taken
      && posted + Window() == Body(filepos + (headerEnd - headerLine))
      && (filepos + (headerEnd - headerLine) == filesize || parsePos + filepos + (headerEnd - headerLine) == peer.taken)
      && (status == BodyRead ==> inBuffer && headerLine == headerEnd == 0 && filepos < filesize)
    }

    /** The headers are decided and the request goes on outside this model.  Unless a body has been
        announced, what was received behind them is still in client_stream. */
    ghost predicate Decided()
      reads this, peer, clientStream
    {
      && Shape() && status == Answering
      && var o := OneShot(Input(), h);
         && !o.Incomplete? && o.lines == lines && o.at == parsePos
         && (if filesize == 0 then
               && !BodyDue() && !cgiStarted && posted == []
               && streamPos == peer.taken && Unparsed() == Input()[parsePos..]
             else o.Headers? && BodyExpected(h, lines, filesize))
         && (cgiStarted ==> parsePos + filesize <= peer.taken && posted == Input()[parsePos..parsePos + filesize])
    }

    /** The bytes received and not parsed, which free_request moves to the next request of a kept
        connection. */
    function Unparsed(): Text
      reads this`parsePos, this`streamPos, clientStream
      requires parsePos <= streamPos <= clientStream.Length
    {
      clientStream[parsePos..streamPos]
    }

    /** A body is announced that the server takes. */
    ghost predicate BodyDue()
      reads this, peer
    {
      peer.taken <= |peer.total| && OneShot(Input(), h).Headers? && exists n :: BodyExpected(h, lines, n)
    }

    /** What has been received decides the headers, and they are accepted. */
    ghost predicate IsAccepted()
      reads peer
    {
      peer.taken <= |peer.total| && Accepted(h, OneShot(Input(), h))
    }

    lemma PostingIsAccepted()
      requires Posting()
      ensures IsAccepted()
    {
      hide OneShot;
    }

    ghost predicate Overrun()
      reads this, peer
    {
      && Shape() && status == Dead && !cgiStarted
      && streamPos == parsePos == peer.taken == SIZE && OneShot(Input(), h).Incomplete?
      && OneShot(Input(), h).lines == lines
    }

    ghost predicate Valid()
      reads this, peer, clientStream, buffer
    {
      Scanning() || Posting() || Decided() || Overrun()
    }

    /** A new request; the bytes `moved` arrived behind the request before it. */
    constructor (h: Handlers, peer: Peer, prompt: bool, moved: Text)
      requires peer.taken <= |peer.total| && moved == peer.total[..peer.taken] && |moved| <= SIZE
      ensures Scanning() && Valid() && status == HeaderText
      ensures this.h == h && this.peer == peer && this.prompt == prompt && fresh(clientStream) && fresh(buffer)
      ensures lines == []
    {
      this.h, this.peer, this.prompt := h, peer, prompt;
      clientStream := new Byte[SIZE](i => if 0 <= i < |moved| then moved[i] else 0);
      buffer := new Byte[SIZE];
      status, streamPos, parsePos, headerLine, headerEnd, inBuffer := HeaderText, |moved|, 0, 0, 0, false;
      logline, filesize, filepos, posted, cgiStarted, lines := false, 0, 0, [], false, [];
      new;
      assert clientStream[..|moved|] == moved;
    }

    /** The switch of read_header. */
    method Switch(c: Byte, ghost start: nat, ghost t: Text)
      requires LineState(status, headerEnd, logline, start, t) && parsePos == start + |t|
      modifies this`status, this`headerEnd
      ensures if c != LF then
                InHeader(status) && status != OneLf && LineState(status, headerEnd, logline, start, t + [c])
              else if logline && StripCr(t) == [] then status == BodyRead
              else status == OneLf && headerEnd == start + |StripCr(t)|
    {
      assert (t + [c])[..|t|] == t;
      assert c == CR ==> StripCr(t + [c]) == StripCr(t);
      match status {
        case HeaderText =>
          if c == CR {
            status := OneCr;
            headerEnd := parsePos;
          } else if c == LF {
            status := OneLf;
            headerEnd := parsePos;
          }
        case OneCr =>
          if c == LF {
            status := OneLf;
          } else if c != CR {
            status := HeaderText;
          }
        case OneLf =>
          if c == CR {
            status := TwoCr;
          } else if c == LF {
            status := BodyRead;
          } else {
            status := HeaderText;
          }
        case TwoCr =>
          if c == LF {
            status := BodyRead;
          } else if c != CR {
            status := HeaderText;
          }
        case _ =>
      }
    }

    /** A line has just ended: the parsed bytes mean what its handler says. */
    ghost predicate AtLineEnd()
      reads this, peer, clientStream
    {
      && Shape() && status == OneLf && !inBuffer && streamPos == peer.taken
      && headerLine <= headerEnd < parsePos
      && clientStream[headerLine..streamPos] == Input()[headerLine..]
      && OneShot(Input()[..parsePos], h) == AfterLine(h, lines, Input()[headerLine..headerEnd], parsePos)
      && logline == (lines != []) && (logline ==> headerLine < headerEnd)
      && posted == [] && !cgiStarted && filesize == 0
    }

    /** The empty line has just been read. */
    ghost predicate AtHeaderEnd()
      reads this, peer, clientStream
    {
      && Shape() && status == BodyRead && !inBuffer && streamPos == peer.taken
      && clientStream[parsePos..streamPos] == Input()[parsePos..]
      && OneShot(Input()[..parsePos], h) == Headers(lines, parsePos)
      && posted == [] && !cgiStarted && filesize == 0
    }

    /** One byte of the headers. */
    method Step()
      requires Scanning() && parsePos < streamPos
      modifies this`status, this`headerEnd, this`parsePos
      ensures parsePos == old(parsePos) + 1
      ensures if status == OneLf then AtLineEnd() else if status == BodyRead then AtHeaderEnd() else Scanning()
    {
      hide LineState, StripCr, OneShot, AfterLine;
      ghost var s, t, p := Input(), Input()[headerLine..parsePos], parsePos;
      var c := clientStream[parsePos];
      assert c == clientStream[headerLine..streamPos][p - headerLine] == s[p];
      OneMoreByte(s, p, h, lines, headerLine);
      Switch(c, headerLine, t);
      parsePos := parsePos + 1;
      assert s[headerLine..parsePos] == t + [c];
      ghost var text := StripCr(t);
      if status == OneLf {
        Slices(s, headerLine, headerEnd, p);
      } else if status == BodyRead {
        ArraySlices(clientStream, headerLine, parsePos, streamPos);
        EmptyLine(h, lines, text, parsePos);
      }
    }

    /** Terminate the line with a NUL, and read it. */
    method TakeLine() returns (text: Text)
      requires AtLineEnd()
      modifies clientStream
      ensures text == Input()[headerLine..headerEnd]
      ensures clientStream[headerLine..headerEnd] == text && clientStream[headerEnd] == 0
      ensures clientStream[parsePos..streamPos] == Input()[parsePos..]
    {
      hide OneShot, AfterLine;
      ghost var s := Input();
      ArraySlices(clientStream, headerLine, headerEnd, streamPos);
      ArraySlices(clientStream, headerLine, parsePos, streamPos);
      Slices(s, headerLine, headerEnd, |s|);
      Slices(s, headerLine, parsePos, |s|);
      text := clientStream[headerLine..headerEnd];
      clientStream[headerEnd] := 0;
    }

    /** What the line handlers may do to the text of a line. */
    method Overwrite(lo: nat, hi: nat)
      requires lo <= hi < parsePos <= streamPos <= clientStream.Length
      modifies clientStream
      ensures clientStream[parsePos..streamPos] == old(clientStream[parsePos..streamPos])
    {
      var scribble: nat -> Byte := *;
      forall i | lo <= i < hi { clientStream[i] := scribble(i); }
    }

    /** End a line: hand it to process_logline or process_option_line. */
    method EndLine() returns (verdict: LineVerdict)
      requires AtLineEnd()
      modifies this`lines, this`logline, this`headerLine, this`status, clientStream
      ensures lines == old(lines) + [old(Input()[headerLine..headerEnd])]
      ensures if verdict == Full then Scanning() && streamPos == old(streamPos)
              else status == Answering && Decided() && !BodyDue()
                   && (verdict == Simple <==> OneShot(Input(), h).SimpleRequest?) && !OneShot(Input(), h).Headers?
    {
      LinesOfAPrefix(Input(), parsePos, h);
      hide StripCr, OneShot, LineEnd;
      var text := TakeLine();
      lines := lines + [text];
      if logline {
        Overwrite(headerLine, headerEnd);
        verdict := if h.option(lines) then Full else Refuse;
      } else {
        logline := true;
        verdict := h.logline(text);
      }
      if verdict == Full {
        headerLine := parsePos;
        assert Input()[parsePos..parsePos] == [];
      } else {
        status := Answering;
      }
    }

    /** The end of the headers: process_header_end, and the check of a POST's Content-Length. */
    method EndHeaders() returns (retval: int)
      requires AtHeaderEnd()
      modifies this`status, this`headerLine, this`headerEnd, this`filesize, this`filepos
      ensures retval in {0, 1} && (if status == Answering then Decided() else Posting())
      ensures status == Answering || status == BodyWrite
      ensures Posting() <==> exists n :: BodyExpected(h, lines, n)
      ensures status == Answering ==> !BodyDue()
      ensures retval == 1 <==> IsAccepted()
      ensures var v := h.headerEnd(lines);
        && (retval == 1 <==> v.accepted && (v.post ==> status == BodyWrite))
        && (status == BodyWrite <==>
              && v.accepted && v.post && v.contentLength.Some? && 0 < v.contentLength.value
              && (h.postLimit == 0 || v.contentLength.value <= h.postLimit))
        && (status == BodyWrite ==> filesize == v.contentLength.value)
    {
      AtEnd();
      var v := h.headerEnd(lines);
      retval := if v.accepted then 1 else 0;
      if v.accepted && v.post {
        if v.contentLength.None? || v.contentLength.value <= 0
          || (h.postLimit != 0 && v.contentLength.value > h.postLimit) {
          retval := 0;
        } else {
          BodyStart();
          StartBody(v.contentLength.value);
          return;
        }
      }
      LinesOfAPrefix(Input(), parsePos, h);
      hide OneShot;
      status := Answering;
    }

    lemma AtEnd()
      requires AtHeaderEnd()
      ensures OneShot(Input(), h) == Headers(lines, parsePos)
    {
      LinesOfAPrefix(Input(), parsePos, h);
      hide OneShot;
    }

    /** The window starts as what has been received of the body. */
    method StartBody(length: int)
      requires Shape() && !inBuffer && streamPos == peer.taken && posted == [] && !cgiStarted
      requires OneShot(Input(), h) == Headers(lines, parsePos) && BodyExpected(h, lines, length) && 0 < length
      requires Unparsed() == Input()[parsePos..]
      modifies this`status, this`headerLine, this`headerEnd, this`filesize, this`filepos
      ensures status == BodyWrite && Posting() && filesize == length
    {
      hide OneShot, BodyExpected, Posting, Unparsed;
      headerLine := parsePos;
      headerEnd := streamPos;
      filesize := length;
      filepos := 0;
      if headerEnd - headerLine > filesize {
        headerEnd := headerLine + filesize;
      }
      status := BodyWrite;
      BodyStarted();
    }

    lemma BodyStarted()
      requires Shape() && !inBuffer && streamPos == peer.taken && posted == [] && !cgiStarted && status == BodyWrite
      requires OneShot(Input(), h) == Headers(lines, parsePos) && BodyExpected(h, lines, filesize) && filepos == 0
      requires Unparsed() == Input()[parsePos..] && headerLine == parsePos <= headerEnd <= streamPos
      requires headerEnd - headerLine <= filesize && (headerEnd - headerLine == filesize || headerEnd == streamPos)
      ensures Posting()
    {
      hide OneShot, BodyExpected;
      ArraySlices(clientStream, parsePos, headerEnd, streamPos);
      Slices(Input(), parsePos, headerEnd, |Input()|);
      assert posted + Window() == Window() == Body(headerEnd - headerLine);
    }

    lemma BodyStart()
      requires AtHeaderEnd()
      ensures Shape() && !inBuffer && streamPos == peer.taken && posted == [] && !cgiStarted
      ensures Unparsed() == Input()[parsePos..]
      ensures OneShot(Input(), h) == Headers(lines, parsePos)
    {
      LinesOfAPrefix(Input(), parsePos, h);
      hide OneShot;
    }

    lemma ScanBounds()
      requires Scanning()
      ensures parsePos <= streamPos && !cgiStarted && InHeader(status)
    {
    }

    /** The read at the end of read_header, made when every byte has been parsed. */
    method ReadMore() returns (retval: int, ghost got: Option<Received>)
      requires Scanning() && parsePos == streamPos
      modifies this`status, this`streamPos, this`asked, peer, clientStream
      ensures retval == -1 ==> Scanning() && asked == FromClient
      ensures (Scanning() || (Overrun() && retval == 0)) && status != Answering && status != BodyWrite
      ensures retval in {-1, 0, 1}
      ensures retval == -1 ==> peer.taken == old(peer.taken) && streamPos == old(streamPos)
      ensures retval == 1 && streamPos == old(streamPos) ==> peer.taken == old(peer.taken)
      ensures prompt ==>
        Overrun() || streamPos > old(streamPos) || (parsePos == streamPos && peer.taken == |peer.total|)
      ensures (got.None? <==> old(streamPos) == SIZE) && (got.Some? ==> peer.calls == old(peer.calls) + 1)
      ensures if got.None? then retval == 0 && Overrun() else Scanning() && retval == ReadResult(got.value)
      ensures streamPos - old(streamPos) == (if got.Some? && got.value.Got? then |got.value.data| else 0)
      ensures got.Some? && got.value.Got? ==> got.value.data != []
    {
      hide OneShot, LineState;
      var left := SIZE - streamPos;
      got := None;
      if left < 1 {
        status := Dead;
        assert Input()[..parsePos] == Input();
        retval := 0;
        return;
      }
      ghost var s := Input();
      asked := FromClient;
      var r := peer.Read(left, prompt);
      got := Some(r);
      hide OneShot, LineState;
      match r
      case Interrupted => retval := 1;
      case WouldBlock => retval := -1;
      case Failed | Closed => retval := 0;
      case Got(data) =>
        assert Input() == s + data;
        TakeIn(data, s);
        retval := 1;
    }

    /** The bytes just received, behind those of `s`. */
    method TakeIn(data: Text, ghost s: Text)
      requires clientStream.Length == buffer.Length == SIZE && clientStream != buffer && peer.taken <= |peer.total|
      requires InHeader(status) && !inBuffer && headerLine <= parsePos == streamPos == |s| && streamPos + |data| <= SIZE
      requires Input() == s + data && clientStream[headerLine..streamPos] == s[headerLine..]
      requires OneShot(s[..parsePos], h) == Incomplete(lines, headerLine) && logline == (lines != [])
      requires LineState(status, headerEnd, logline, headerLine, s[headerLine..parsePos])
      requires posted == [] && !cgiStarted && filesize == 0
      modifies this`streamPos, clientStream
      ensures Scanning() && streamPos == old(streamPos) + |data|
    {
      hide OneShot, LineState;
      Store(clientStream, streamPos, data);
      Appended(s, Input(), data, headerLine, parsePos);
      streamPos := streamPos + |data|;
    }

    /** A request decided by one of its lines is accepted if it has no version and its end is accepted. */
    lemma LineVerdictIs()
      requires Decided() && !OneShot(Input(), h).Headers?
      ensures IsAccepted() <==> OneShot(Input(), h).SimpleRequest? && h.headerEnd(lines).accepted
    {
      hide OneShot, BodyDue, BodyExpected;
    }

    /** The loop of read_header; `decided` when it returns from inside. */
    method ParseReceived() returns (decided: bool, retval: int)
      requires Scanning()
      modifies this, clientStream
      ensures old(lines) <= lines && streamPos == old(streamPos) && !cgiStarted
      ensures if decided then
                && (status == Answering || status == BodyWrite) && (Posting() || Decided()) && retval in {0, 1}
                && (status == Answering ==> !BodyDue()) && (retval == 1 <==> IsAccepted())
              else Scanning() && parsePos == streamPos
    {
      ScanBounds();
      hide *;
      decided, retval := true, 0;
      while parsePos < streamPos
        invariant Scanning() && parsePos <= streamPos == old(streamPos) && !cgiStarted
        invariant old(lines) <= lines
        decreases streamPos - parsePos
      {
        Step();
        if status == OneLf {
          var verdict := EndLine();
          if verdict != Full {
            retval := if verdict == Simple && h.headerEnd(lines).accepted then 1 else 0;
            LineVerdictIs();
            return;
          }
        } else if status == BodyRead {
          retval := EndHeaders();
          return;
        }
        ScanBounds();
      }
      decided := false;
    }

    /** read_header: parse what has been received, then try to receive more. */
    method ReadHeader() returns (retval: int, ghost got: Option<Received>)
      requires Scanning()
      modifies this, peer, clientStream
      ensures if status == Answering || status == BodyWrite then retval == 1 <==> IsAccepted()
              else retval == (if got.None? then 0 else ReadResult(got.value)) && (got.None? ==> Overrun())
      ensures got.Some? && !got.value.Got? ==> streamPos == old(streamPos)
      ensures got.Some? ==> peer.calls == old(peer.calls) + 1
      ensures status == Answering || status == BodyWrite || got.Some? || Overrun()
      ensures Scanning() || Posting() || Decided() || Overrun()
      ensures old(lines) <= lines && !cgiStarted && (status == Answering ==> !BodyDue())
      ensures retval in {-1, 0, 1}
      ensures status != Answering && status != BodyWrite ==> old(streamPos) <= parsePos
      ensures retval == -1 ==>
        Scanning() && parsePos == streamPos && peer.taken == old(peer.taken) && asked == FromClient
      ensures prompt ==>
        || status == Answering || status == BodyWrite || Overrun() || streamPos > old(streamPos)
        || (Scanning() && parsePos == streamPos && peer.taken == |peer.total|)
    {
      hide *;
      var decided;
      got := None;
      decided, retval := ParseReceived();
      if !decided {
        retval, got := ReadMore();
      }
    }

    /** read_body: receive the next bytes of the body into the empty buffer. */
    method ReadBody() returns (retval: int, ghost got: Received)
      requires Posting() && status == BodyRead
      modifies this`status, this`headerEnd, this`asked, peer, buffer
      ensures retval in {-1, 0, 1} && (if status == Answering then Decided() else Posting())
      ensures retval == 1 ==>
        status == BodyWrite && 0 < headerEnd && Window() == peer.total[old(peer.taken)..peer.taken]
      ensures retval == -1 ==> status == BodyRead && peer.taken == old(peer.taken) && asked == FromClient
      ensures retval == BodyReadResult(got) && (retval == 0 <==> status == Answering)
      ensures prompt && old(peer.taken) < |peer.total| ==> retval == 1
    {
      hide OneShot, BodyExpected;
      var toRead := filesize - filepos;
      if toRead > SIZE - (headerEnd - headerLine) {
        toRead := SIZE - (headerEnd - headerLine);
      }
      PostingBounds();
      ghost var s := Input();
      asked := FromClient;
      var r := peer.Read(toRead, prompt);
      got := r;
      LinesOfAPrefix(Input(), |s|, h);
      assert Input()[..|s|] == s;
      match r
      case WouldBlock => retval := -1;
      case Interrupted | Failed | Closed =>
        status := Answering;
        retval := 0;
      case Got(data) =>
        assert Input() == s + data;
        Appended(s, Input(), data, parsePos, parsePos + filepos);
        Fill(data);
        retval := 1;
    }

    /** The bytes just received, in the buffer. */
    method Fill(data: Text)
      requires Shape() && status == BodyRead && !cgiStarted && inBuffer && headerLine == headerEnd == 0
      requires OneShot(Input(), h) == Headers(lines, parsePos) && BodyExpected(h, lines, filesize)
      requires |posted| == filepos && filepos + |data| <= filesize && |data| <= SIZE
      requires parsePos + filepos + |data| == peer.taken && posted + data == Input()[parsePos..]
      modifies this`status, this`headerEnd, buffer
      ensures status == BodyWrite && Posting() && headerEnd == |data| && Window() == data
    {
      hide OneShot, BodyExpected;
      Store(buffer, headerEnd, data);
      status := BodyWrite;
      headerEnd := headerEnd + |data|;
      assert Window() == data;
      assert Input()[parsePos..] == Body(filepos + |data|);
      hide Window, Body;
    }

    /** Before a read of the body everything received has been written. */
    lemma PostingBounds()
      requires Posting() && status == BodyRead
      ensures peer.taken <= |peer.total|
      ensures posted == Input()[parsePos..] && |posted| == filepos && parsePos + filepos == peer.taken
    {
      assert posted + Window() == posted;
      Slices(Input(), parsePos, parsePos + filepos, |Input()|);
      assert parsePos + filepos == |Input()|;
    }

    /** write_body: write the window to the temporary file; when it is empty, read on, or start the
        CGI if the whole body is there. */
    method WriteBody() returns (retval: int, ghost wrote: Option<Written>)
      requires Posting() && status == BodyWrite
      modifies this`status, this`headerLine, this`headerEnd, this`inBuffer, this`filepos, this`posted, this`cgiStarted
      modifies this`asked
      ensures retval == -1 ==> status == BodyWrite && asked == ToPostFile
      ensures retval in {-1, 0, 1} && (if status == Answering then Decided() else Posting())
      ensures old(headerLine == headerEnd) ==>
        && posted == old(posted) && filepos == old(filepos)
        && (if filepos == filesize then status == Answering && cgiStarted else status == BodyRead && retval == 1)
      ensures old(headerLine < headerEnd) ==>
        && !cgiStarted && headerEnd == old(headerEnd) && old(headerLine) <= headerLine <= headerEnd
        && posted == old(posted) + old(Window())[..headerLine - old(headerLine)]
        && wrote.Some? && retval == WriteResult(wrote.value) && (status == BodyWrite <==> retval != 0)
        && headerLine - old(headerLine) == (if wrote.value.Wrote? then wrote.value.n else 0)
      ensures prompt && old(headerLine < headerEnd) ==> retval == 1 && headerLine > old(headerLine)
    {
      hide OneShot, BodyExpected, Window;
      var toWrite := headerEnd - headerLine;
      if filepos + toWrite > filesize {
        toWrite := filesize - filepos;
      }
      wrote := None;
      if toWrite == 0 {
        retval := Drained();
        return;
      }
      asked := ToPostFile;
      var w := WritePost(toWrite, prompt);
      wrote := Some(w);
      assert old(Window())[..0] == [] && posted + [] == posted;
      match w
      case Wrote(n) =>
        Advance(n);
        retval := 1;
      case WriteInterrupted => retval := 1;
      case WriteBlocked => retval := -1;
      case WriteFailed =>
        status := Answering;
        retval := 0;
    }

    /** The part of write_body for an empty window. */
    method Drained() returns (retval: int)
      requires Posting() && status == BodyWrite && headerLine == headerEnd
      modifies this`status, this`headerLine, this`headerEnd, this`inBuffer, this`cgiStarted
      ensures if status == Answering then Decided() else Posting()
      ensures retval in {0, 1}
      ensures if filepos == filesize then status == Answering && cgiStarted else status == BodyRead && retval == 1
    {
      assert filesize != 0;
      hide OneShot, BodyExpected;
      assert posted + Window() == posted;
      inBuffer, headerLine, headerEnd := true, 0, 0;
      if filepos >= filesize {
        cgiStarted, status := true, Answering;        // init_cgi
        var ok: bool := *;
        return if ok then 1 else 0;
      }
      status := BodyRead;
      retval := 1;
    }

    /** The part of write_body after `written` bytes were written. */
    method Advance(written: nat)
      requires Posting() && status == BodyWrite && written <= headerEnd - headerLine
      modifies this`headerLine, this`filepos, this`posted
      ensures Posting() && headerLine == old(headerLine) + written && posted == old(posted) + old(Window())[..written]
    {
      hide OneShot, BodyExpected, Window, Body;
      ghost var w := Window();
      WindowSlice();
      SplitWindow(written);
      SplitSum(posted, w, written);
      posted := posted + Window()[..written];
      filepos := filepos + written;
      headerLine := headerLine + written;
      WindowSlice();
      assert Window() == w[written..];
    }

    lemma WindowSlice()
      requires headerLine <= headerEnd <= clientStream.Length == buffer.Length
      ensures Window() == (if inBuffer then buffer[headerLine..headerEnd] else clientStream[headerLine..headerEnd])
      ensures |Window()| == headerEnd - headerLine
    {
    }

    lemma IsValid()
      requires Scanning() || Posting() || Decided() || Overrun()
      ensures Valid()
    {
    }

    lemma NotInHeader()
      requires Posting() || Decided() || Overrun()
      ensures !InHeader(status)
    {
      hide OneShot, LineState, BodyExpected, Accepted;
    }

    lemma ReadResults(got: Option<Received>)
      ensures got.Some? ==> (ReadResult(got.value) == 0 <==> got.value == Failed || got.value == Closed)
    {
    }

    /** The handler for the status. */
    method Call() returns (retval: int, ghost got: Option<Received>)
      requires Valid() && status != Answering && status != Dead
      modifies this, peer, clientStream, buffer
      ensures Valid() && retval in {-1, 0, 1}
      ensures retval == -1 ==>
        && (if old(status) == BodyRead || old(status) == BodyWrite then status == old(status)
            else InHeader(status) && parsePos == streamPos)
        && asked == (if old(status) == BodyWrite then ToPostFile else FromClient)
      ensures retval == 0 ==> status == Answering || Overrun() || got == Some(Failed) || got == Some(Closed)
      ensures InHeader(status) ==> InHeader(old(status)) && peer.calls == old(peer.calls) + 1
    {
      ByStatus(this);
      hide *;
      got := None;
      if status == BodyRead {
        ghost var r;
        retval, r := ReadBody();
        NotInHeader();
      } else if status == BodyWrite {
        ghost var w;
        retval, w := WriteBody();
        NotInHeader();
      } else {
        retval, got := ReadHeader();
        ReadResults(got);
        if retval == -1 { ScanBounds(); }
        StatusOnly(status);
        if Overrun() { NotInHeader(); }
      }
      IsValid();
    }

    /** The window without its first `k` bytes. */
    lemma SplitWindow(k: nat)
      requires headerLine + k <= headerEnd <= clientStream.Length == buffer.Length
      ensures Window()[k..]
           == if inBuffer then buffer[headerLine + k..headerEnd] else clientStream[headerLine + k..headerEnd]
    {
    }
  }

  /** What a request in any state of its run has read of the client's stream. */
  ghost predicate ReadsStream(req: Request)
    reads req, req.peer, req.clientStream, req.buffer
  {
    req.Valid() && ReadsLines(req) && ReadsHeaders(req) && ReadsBody(req)
  }

  /** The lines handed over are the first lines of the stream, and all that have been received
      when the scanner waits for more. */
  ghost predicate ReadsLines(req: Request)
    requires req.Valid()
    reads req, req.peer, req.clientStream, req.buffer
  {
    && req.lines <= OneShot(req.peer.total, req.h).lines
    && (req.Scanning() && req.parsePos == req.streamPos ==>
          OneShot(req.Input(), req.h) == Incomplete(req.lines, req.headerLine))
  }

  /** The headers end where those of the stream end; a full buffer means they do not end in it. */
  ghost predicate ReadsHeaders(req: Request)
    reads req, req.peer
  {
    var total, h := req.peer.total, req.h;
    && (req.status == Answering || req.status == BodyRead || req.status == BodyWrite ==>
          var o := OneShot(total, h);
          !o.Incomplete? && o.lines == req.lines && o.at == req.parsePos)
    && (req.status == Dead ==> SIZE <= |total| && OneShot(total[..SIZE], h).Incomplete?)
  }

  /** The body passed to the CGI program is the first Content-Length bytes behind the headers. */
  ghost predicate ReadsBody(req: Request)
    reads req, req.peer
  {
    var total, h := req.peer.total, req.h;
    req.cgiStarted ==>
      && OneShot(total, h).Headers? && BodyExpected(h, req.lines, req.filesize)
      && req.parsePos + req.filesize <= |total|
      && req.posted == total[req.parsePos..req.parsePos + req.filesize]
  }

  lemma StatusOnly(st: Status)
    ensures st == Answering || st == BodyWrite ==> !InHeader(st)
  {
  }

  /** What has been received is a prefix of the stream, so what was read of it stands. */
  lemma ValidReadsStream(req: Request)
    requires req.Valid()
    ensures ReadsStream(req)
  {
    ValidReadsLines(req);
    ValidReadsHeaders(req);
    ValidReadsBody(req);
    hide Request.Valid, ReadsLines, ReadsHeaders, ReadsBody;
  }

  lemma ValidReadsLines(req: Request)
    requires req.Valid()
    ensures ReadsLines(req)
  {
    var total, taken, p := req.peer.total, req.peer.taken, req.parsePos;
    hide OneShot, BodyExpected, LineState;
    LinesOfAPrefix(total, taken, req.h);
    LinesOfAPrefix(total, p, req.h);
    assert total[..taken][..p] == total[..p];
    if req.Scanning() && p == req.streamPos { assert total[..p] == req.Input(); }
  }

  lemma ValidReadsHeaders(req: Request)
    requires req.Valid()
    ensures ReadsHeaders(req)
  {
    hide OneShot, BodyExpected, LineState;
    LinesOfAPrefix(req.peer.total, req.peer.taken, req.h);
  }

  lemma ValidReadsBody(req: Request)
    requires req.Valid()
    ensures ReadsBody(req)
  {
    var total, taken, p := req.peer.total, req.peer.taken, req.parsePos;
    hide OneShot, BodyExpected, LineState;
    LinesOfAPrefix(total, taken, req.h);
    if req.cgiStarted { SliceOfPrefix(total, taken, p, p + req.filesize); }
  }

  /** Packet boundaries do not matter: however the bytes of one stream were divided for two
      requests, the lines handed over by the one are the first lines of the other, and once
      both have read their headers they agree on every line, on the byte the headers end at and
      on the body passed to the CGI program. */
  lemma PacketBoundariesDoNotMatter(a: Request, b: Request)
    requires a.Valid() && b.Valid() && a.h == b.h && a.peer.total == b.peer.total
    ensures a.lines <= b.lines || b.lines <= a.lines
    ensures a.status == b.status == Answering ==> a.lines == b.lines && a.parsePos == b.parsePos
    ensures a.cgiStarted && b.cgiStarted ==> a.posted == b.posted
  {
    hide *;
    Reading(a);
    Reading(b);
  }

  lemma Reading(a: Request)
    requires a.Valid()
    ensures a.lines <= OneShot(a.peer.total, a.h).lines
    ensures a.status == Answering ==>
      var o := OneShot(a.peer.total, a.h); !o.Incomplete? && a.lines == o.lines && a.parsePos == o.at
    ensures a.cgiStarted ==>
      && a.status == Answering && 0 < a.filesize && a.parsePos + a.filesize <= |a.peer.total|
      && a.h.headerEnd(a.lines).contentLength == Some(a.filesize)
      && a.posted == a.peer.total[a.parsePos..a.parsePos + a.filesize]
  {
    hide OneShot, LineState;
    ValidReadsStream(a);
  }

  /** The calls the scheduler makes for one request, in any number, until one returns 0 or the
      request has been read. */
  method Serve(h: Handlers, peer: Peer, moved: Text, calls: nat)
    returns (req: Request, retval: int, ghost got: Option<Received>, i: nat)
    requires peer.taken <= |peer.total| && moved == peer.total[..peer.taken] && |moved| <= SIZE
    modifies peer
    ensures ReadsStream(req) && req.peer == peer && req.h == h
    ensures i == calls || req.status == Answering || req.status == Dead || got == Some(Failed) || got == Some(Closed)
    ensures InHeader(req.status) ==> peer.calls == old(peer.calls) + i
  {
    var prompt: bool := *;
    req := new Request(h, peer, prompt, moved);
    retval, got, i := 1, None, 0;
    while i < calls && retval != 0 && req.status != Answering && req.status != Dead
      invariant req.Valid() && req.peer == peer && req.h == h && i <= calls
      invariant fresh(req) && fresh(req.clientStream) && fresh(req.buffer)
      invariant retval == 0 ==>
        req.status == Answering || req.status == Dead || got == Some(Failed) || got == Some(Closed)
      invariant InHeader(req.status) ==> peer.calls == old(peer.calls) + i
    {
      retval, got := req.Call();
      i := i + 1;
    }
    ValidReadsStream(req);
  }

  // ------------------------------------------------- progress

  /** The stream decides the headers within the buffer, and holds the body they announce. */
  ghost predicate Supplied(total: Text, h: Handlers) {
    && !OneShot(total[..if |total| < SIZE then |total| else SIZE], h).Incomplete?
    && var o := OneShot(total, h);
       forall n :: o.Headers? && BodyExpected(h, o.lines, n) ==> o.at + n <= |total|
  }

  /** What is left: the headers, the bytes to be received or written, and steps in between. */
  datatype Measure = Measure(headers: int, bytes: int, steps: int)

  predicate Less(a: Measure, b: Measure) {
    || a.headers < b.headers
    || (a.headers == b.headers && a.bytes < b.bytes)
    || (a.headers == b.headers && a.bytes == b.bytes && a.steps < b.steps)
  }

  ghost function Remaining(req: Request): Measure
    reads req
  {
    if InHeader(req.status) then Measure(1, |req.peer.total| - req.streamPos, 0)
    else Measure(0, req.filesize - req.filepos,
                 if req.status == BodyRead then 1 else if req.headerLine < req.headerEnd then 0 else 2)
  }

  /** When the buffer is full or the stream has ended, all of it has been parsed. */
  lemma ParsedAll(req: Request)
    requires req.Overrun() || (req.Scanning() && req.parsePos == req.streamPos && req.peer.taken == |req.peer.total|)
    ensures var total := req.peer.total; OneShot(total[..if |total| < SIZE then |total| else SIZE], req.h).Incomplete?
  {
    var total := req.peer.total;
    hide OneShot, LineState;
    assert req.Input()[..req.parsePos] == req.Input() == total[..if |total| < SIZE then |total| else SIZE];
  }

  /** The headers are decided before the buffer is full or the stream ends. */
  lemma NeverStuck(req: Request)
    requires Supplied(req.peer.total, req.h)
    ensures !req.Overrun() && !(req.Scanning() && req.parsePos == req.streamPos && req.peer.taken == |req.peer.total|)
  {
    hide OneShot, Request.Overrun, Request.Scanning;
    if req.Overrun() || (req.Scanning() && req.parsePos == req.streamPos && req.peer.taken == |req.peer.total|) {
      ParsedAll(req);
    }
  }

  /** While the body is being received, there is more of it to come. */
  lemma BodyArrives(req: Request)
    requires req.Posting() && req.status == BodyRead && Supplied(req.peer.total, req.h)
    ensures req.peer.taken < |req.peer.total|
  {
    req.PostingBounds();
    LinesOfAPrefix(req.peer.total, req.peer.taken, req.h);
    hide OneShot, BodyExpected;
  }

  lemma ByStatus(req: Request)
    requires req.Valid() && req.status != Answering && req.status != Dead
    ensures if req.status == BodyRead || req.status == BodyWrite then req.Posting() else req.Scanning()
  {
    hide OneShot, LineState, BodyExpected;
  }

  /** A call that moves at least one byte comes nearer to the end, and the end is not reached before
      a body that is due has been passed on. */
  method CallPromptly(req: Request) returns (retval: int)
    requires req.Valid() && req.prompt && Supplied(req.peer.total, req.h)
    requires req.status != Answering && req.status != Dead
    modifies req, req.peer, req.clientStream, req.buffer
    ensures req.Valid() && req.status != Dead
    ensures if req.status == Answering then req.BodyDue() ==> req.cgiStarted
            else Less(Remaining(req), old(Remaining(req))) && retval == 1
    ensures req.status == Answering && !req.cgiStarted ==> (retval == 1 <==> req.IsAccepted())
    ensures req.cgiStarted ==> req.IsAccepted()
  {
    ByStatus(req);
    hide *;
    if req.status == BodyRead {
      ReceivePromptly(req);
      retval := 1;
    } else if req.status == BodyWrite {
      retval := WritePromptly(req);
    } else {
      retval := ReadPromptly(req);
    }
  }

  method ReceivePromptly(req: Request)
    requires req.Posting() && req.status == BodyRead && req.prompt && Supplied(req.peer.total, req.h)
    modifies req, req.peer, req.buffer
    ensures req.Valid() && req.status == BodyWrite && !req.cgiStarted && Less(Remaining(req), old(Remaining(req)))
  {
    BodyArrives(req);
    hide OneShot, BodyExpected, Supplied, Request.Window, Request.Body, Request.Scanning;
    var _, _ := req.ReadBody();
  }

  method WritePromptly(req: Request) returns (retval: int)
    requires req.Posting() && req.status == BodyWrite && req.prompt
    modifies req
    ensures req.Valid() && req.status != Dead
    ensures if req.status == Answering then req.cgiStarted && req.IsAccepted()
            else Less(Remaining(req), old(Remaining(req))) && retval == 1 && !req.cgiStarted
  {
    req.PostingIsAccepted();
    hide OneShot, BodyExpected, Request.Window, Request.Body, Request.Scanning, Accepted;
    ghost var w;
    retval, w := req.WriteBody();
  }

  method ReadPromptly(req: Request) returns (retval: int)
    requires req.Scanning() && req.prompt && Supplied(req.peer.total, req.h)
    modifies req, req.peer, req.clientStream
    ensures req.Valid() && req.status != Dead
    ensures if req.status == Answering
            then !req.BodyDue() && !req.cgiStarted && (retval == 1 <==> req.IsAccepted())
            else Less(Remaining(req), old(Remaining(req))) && retval == 1 && !req.cgiStarted
  {
    hide OneShot, BodyExpected, Supplied, LineState, Request.BodyDue;
    ghost var got;
    retval, got := req.ReadHeader();
    NeverStuck(req);
    if req.Posting() { req.PostingIsAccepted(); }
  }

  /** A request is read: when every read and write moves at least one byte and the stream decides the
      headers within the buffer and holds the body they announce, reading ends after finitely many
      calls, and the body that is due, and no other, has been passed to the CGI program. */
  method ServePromptly(h: Handlers, peer: Peer, moved: Text) returns (req: Request, retval: int)
    requires peer.taken <= |peer.total| && moved == peer.total[..peer.taken] && |moved| <= SIZE
    requires Supplied(peer.total, h)
    modifies peer
    ensures req.status == Answering && ReadsStream(req) && req.peer == peer && req.h == h
    ensures var o := OneShot(peer.total, h);
      && o.lines == req.lines && o.at == req.parsePos
      && (req.cgiStarted <==> o.Headers? && exists n :: BodyExpected(h, o.lines, n))
      && (if req.cgiStarted then Accepted(h, o) else retval == 1 <==> Accepted(h, o))
  {
    hide *;
    req := new Request(h, peer, true, moved);
    retval := 1;
    ghost var left := Remaining(req);
    StillPositive(req);
    while retval != 0 && req.status != Answering
      invariant req.Valid() && req.peer == peer && req.h == h && req.prompt && req.status != Dead
      invariant retval == 0 ==> req.status == Answering
      invariant req.status == Answering ==>
        if req.cgiStarted then req.IsAccepted() else retval == 1 <==> req.IsAccepted()
      invariant fresh(req) && fresh(req.clientStream) && fresh(req.buffer)
      invariant req.status == Answering ==> (req.BodyDue() ==> req.cgiStarted)
      invariant req.status != Answering ==>
        left == Remaining(req) && left.headers >= 0 && left.bytes >= 0 && left.steps >= 0
      decreases req.status != Answering, left.headers, left.bytes, left.steps
    {
      retval := CallPromptly(req);
      if req.status != Answering {
        LessMeans(Remaining(req), left);
        StillPositive(req);
        left := Remaining(req);
      }
    }
    AllRead(req);
  }

  lemma StillPositive(req: Request)
    requires req.Valid() && req.status != Answering && req.status != Dead
    ensures var m := Remaining(req); m.headers >= 0 && m.bytes >= 0 && m.steps >= 0
  {
    hide OneShot, LineState, BodyExpected;
  }

  lemma LessMeans(a: Measure, b: Measure)
    requires Less(a, b)
    ensures a.headers < b.headers
      || (a.headers == b.headers && (a.bytes < b.bytes || (a.bytes == b.bytes && a.steps < b.steps)))
  {
  }

  lemma AllRead(req: Request)
    requires req.Valid() && req.status == Answering && (req.BodyDue() ==> req.cgiStarted)
    ensures ReadsStream(req)
    ensures var o := OneShot(req.peer.total, req.h);
      && o.lines == req.lines && o.at == req.parsePos && (Accepted(req.h, o) <==> req.IsAccepted())
      && (req.cgiStarted <==> o.Headers? && exists n :: BodyExpected(req.h, o.lines, n))
  {
    ValidReadsStream(req);
    LinesOfAPrefix(req.peer.total, req.peer.taken, req.h);
    hide OneShot, BodyExpected, LineState, ReadsStream;
  }

  // ------------------------------------------------- one kept connection

  /** A request of a connection: its lines, where it begins and its headers end in what the client
      sends, and its body. */
  datatype Message = Message(lines: seq<Text>, begin: nat, end: nat, body: Text)

  /** The connection is kept when the request has ended, which it never is behind a body. */
  predicate GoesOn(h: Handlers, o: Outcome, keeps: seq<bool>) {
    !o.Incomplete? && BodyLength(h, o) == 0 && keeps != [] && keeps[0]
  }

  /** The requests of a connection in one shot: each begins where the headers of the one before it
      end.  `keeps` says after which of them the connection is to be kept. */
  ghost function InTurn(total: Text, h: Handlers, begin: nat, keeps: seq<bool>): seq<Message>
    requires begin <= |total|
    decreases |keeps|
  {
    var o := OneShot(total[begin..], h);
    if o.Incomplete? then []
    else
      var end, n := begin + o.at, BodyLength(h, o);
      [Message(o.lines, begin, end, total[end..if end + n <= |total| then end + n else |total|])]
      + if GoesOn(h, o, keeps) then InTurn(total, h, end, keeps[1..]) else []
  }

  /** Each of the requests is supplied. */
  ghost predicate AllSupplied(total: Text, h: Handlers, begin: nat, keeps: seq<bool>)
    requires begin <= |total|
    decreases |keeps|
  {
    && Supplied(total[begin..], h)
    && var o := OneShot(total[begin..], h);
       GoesOn(h, o, keeps) ==> AllSupplied(total, h, begin + o.at, keeps[1..])
  }

  /** The request has been read, with the body that is due. */
  predicate Finished(req: Request)
    reads req
  {
    req.status == Answering && (req.filesize == 0 || req.cgiStarted)
  }

  /** A finished request has read the first request of what its client sends, and holds what was
      received behind it. */
  lemma FinishedMeans(req: Request)
    requires ReadsStream(req) && Finished(req)
    ensures req.parsePos <= req.streamPos <= SIZE == req.clientStream.Length
    ensures var o := OneShot(req.peer.total, req.h);
      && !o.Incomplete? && o.lines == req.lines && o.at == req.parsePos && BodyLength(req.h, o) == req.filesize
      && req.parsePos + req.filesize <= |req.peer.total|
      && req.posted == req.peer.total[req.parsePos..req.parsePos + req.filesize]
    ensures req.filesize == 0 ==> req.Unparsed() <= req.peer.total[req.parsePos..]
  {
    LinesOfAPrefix(req.peer.total, req.peer.taken, req.h);
    if req.filesize != 0 { IsBodyLength(req.h, OneShot(req.peer.total, req.h), req.filesize); }
    hide OneShot, BodyExpected, BodyLength, LineState;
  }

  lemma IsBodyLength(h: Handlers, o: Outcome, n: int)
    requires o.Headers? && BodyExpected(h, o.lines, n)
    ensures BodyLength(h, o) == n
  {
  }

  /** With the body that is due a request is finished. */
  lemma AllFinished(req: Request)
    requires ReadsStream(req) && req.status == Answering
    requires var o := OneShot(req.peer.total, req.h);
      req.cgiStarted <==> o.Headers? && exists n :: BodyExpected(req.h, o.lines, n)
    ensures Finished(req)
  {
    LinesOfAPrefix(req.peer.total, req.peer.taken, req.h);
    hide OneShot, BodyExpected, LineState;
  }

  /** What a finished request has read is the next of the connection's requests, and what is moved to
      the one after it is what was received behind it. */
  lemma NextInTurn(req: Request, total: Text, begin: nat, keeps: seq<bool>)
    requires ReadsStream(req) && Finished(req) && begin <= |total| && req.peer.total == total[begin..]
    ensures req.parsePos <= req.streamPos <= SIZE == req.clientStream.Length && begin + req.parsePos <= |total|
    ensures req.filesize == 0 ==> req.Unparsed() <= total[begin + req.parsePos..] && |req.Unparsed()| <= SIZE
    ensures var end, goesOn := begin + req.parsePos, req.filesize == 0 && keeps != [] && keeps[0];
      && InTurn(total, req.h, begin, keeps)
           == [Message(req.lines, begin, end, req.posted)]
            + (if goesOn then InTurn(total, req.h, end, keeps[1..]) else [])
      && (goesOn && AllSupplied(total, req.h, begin, keeps) ==> AllSupplied(total, req.h, end, keeps[1..]))
  {
    hide ReadsStream, OneShot, BodyLength, Supplied;
    FinishedMeans(req);
    var t, p := req.peer.total, req.parsePos;
    assert t[p..] == total[begin + p..] && t[p..p + req.filesize] == total[begin + p..begin + p + req.filesize];
  }

  lemma OneMoreMessage(all: seq<Message>, served: seq<Message>, m: Message, rest: seq<Message>)
    requires all == served + ([m] + rest)
    ensures all == (served + [m]) + rest && served + [m] <= all
  {
  }

  /** The requests of one connection, whatever the packets: they are those of the one-shot reading, each
      from where the one before it ended, and all of them when every read and write moves something. */
  method ServeConnection(h: Handlers, total: Text, keeps: seq<bool>, prompt: bool, calls: nat)
    returns (served: seq<Message>)
    requires prompt ==> AllSupplied(total, h, 0, keeps)
    ensures served <= InTurn(total, h, 0, keeps)
    ensures prompt ==> served == InTurn(total, h, 0, keeps)
  {
    hide *;
    served := [];
    var begin: nat, moved: Text, rest, open := 0, [], keeps, true;
    while open
      invariant begin <= |total| && moved <= total[begin..] && |moved| <= SIZE
      invariant open ==> InTurn(total, h, 0, keeps) == served + InTurn(total, h, begin, rest)
      invariant open && prompt ==> AllSupplied(total, h, begin, rest)
      invariant served <= InTurn(total, h, 0, keeps)
      invariant !open && prompt ==> served == InTurn(total, h, 0, keeps)
      decreases open, |rest|
    {
      var peer := new Peer(total[begin..], |moved|);
      var req;
      if prompt {
        SuppliedNow(total, h, begin, rest);
        var retval;
        req, retval := ServePromptly(h, peer, moved);
        AllFinished(req);
      } else {
        var retval, made;
        ghost var got;
        req, retval, got, made := Serve(h, peer, moved, calls);
      }
      open := false;
      if Finished(req) {
        NextInTurn(req, total, begin, rest);
        var m := Message(req.lines, begin, begin + req.parsePos, req.posted);
        open := req.filesize == 0 && rest != [] && rest[0];
        OneMoreMessage(InTurn(total, h, 0, keeps), served, m,
                       if open then InTurn(total, h, begin + req.parsePos, rest[1..]) else []);
        served := served + [m];
        if open {
          begin, moved, rest := begin + req.parsePos, req.Unparsed(), rest[1..];
        }
      }
    }
  }

  lemma SuppliedNow(total: Text, h: Handlers, begin: nat, keeps: seq<bool>)
    requires begin <= |total| && AllSupplied(total, h, begin, keeps)
    ensures Supplied(total[begin..], h)
  {
  }
}
