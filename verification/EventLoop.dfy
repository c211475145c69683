/** The select loop of the HTTP server: requests on three intrusive doubly linked lists
    (ready, blocked, free), the two descriptor sets that select overwrites, and the scheduler
    pass over the ready list. */
module EventLoop {
  import opened Handlers
  import opened Schedule
  import opened ScheduleSteps
  import opened ScheduleRounds
  import opened ScheduleEnds

  // ------------------------------------------------- one list

  /** One of the lists, through its head pointer. */
  class Queue {
    var head: Request?
    ghost var nodes: seq<Request>

    ghost predicate Valid()
      reads this, nodes`next, nodes`prev
    {
      && head == (if nodes == [] then null else nodes[0])
      && Distinct(nodes)
      && (forall i {:trigger nodes[i].next} :: 0 <= i < |nodes| ==>
            nodes[i].next == if i + 1 < |nodes| then nodes[i + 1] else null)
      && (forall i {:trigger nodes[i].prev} :: 0 <= i < |nodes| ==>
            nodes[i].prev == if i == 0 then null else nodes[i - 1])
    }

    constructor ()
      ensures Valid() && nodes == []
    {
      head, nodes := null, [];
    }

    /** dequeue: unlink a request from wherever it stands on the list. */
    method Dequeue(req: Request, ghost front: seq<Request>, ghost tail: seq<Request>)
      requires Valid() && nodes == front + [req] + tail
      modifies this, nodes`next, nodes`prev
      ensures Valid() && nodes == front + tail
      ensures req.next == null && req.prev == null && req !in nodes
    {
      ghost var s, k := nodes, |front|;
      assert s[k] == req;
      assert s[k].next == req.next && s[k].prev == req.prev;
      if k > 0 { assert s[k - 1].next == req; }
      if k + 1 < |s| { assert s[k + 1].prev == req; }
      if head == req {
        head := req.next;
      }
      if req.prev != null {
        req.prev.next := req.next;
      }
      if req.next != null {
        req.next.prev := req.prev;
      }
      req.next := null;
      req.prev := null;
      nodes := s[..k] + s[k + 1..];
      assert nodes == front + tail;
    }

    /** enqueue: push a request on the front. */
    method Enqueue(req: Request)
      requires Valid() && req !in nodes
      modifies this, nodes`prev, req`next, req`prev
      ensures Valid() && nodes == [req] + old(nodes)
    {
      if head != null {
        assert nodes[0].prev == null;
        head.prev := req;
      }
      req.next := head;
      req.prev := null;
      head := req;
      nodes := [req] + nodes;
    }

    /** The request after one on the list. */
    lemma Next(req: Request, front: seq<Request>, tail: seq<Request>)
      requires Valid() && nodes == front + [req] + tail
      ensures req.next == if tail == [] then null else tail[0]
    {
      assert nodes[|front|] == req;
    }
  }

  /** dequeue, beside two other lists. */
  method Dequeue3(q: Queue, p: Queue, o: Queue, req: Request, ghost front: seq<Request>, ghost tail: seq<Request>)
    requires q != p && q != o && q.Valid() && p.Valid() && o.Valid() && q.nodes == front + [req] + tail
    requires (forall r :: r in p.nodes ==> r !in q.nodes) && (forall r :: r in o.nodes ==> r !in q.nodes)
    modifies q, q.nodes`next, q.nodes`prev
    ensures q.Valid() && p.Valid() && o.Valid() && q.nodes == front + tail
  {
    hide Queue.Valid;
    q.Dequeue(req, front, tail);
    assert p.Valid() by { assert forall r :: r in p.nodes ==> r.next == old(r.next) && r.prev == old(r.prev); }
    assert o.Valid() by { assert forall r :: r in o.nodes ==> r.next == old(r.next) && r.prev == old(r.prev); }
  }

  /** enqueue, beside two other lists. */
  method Enqueue3(q: Queue, p: Queue, o: Queue, req: Request)
    requires q != p && q != o && q.Valid() && p.Valid() && o.Valid()
    requires req !in q.nodes && req !in p.nodes && req !in o.nodes
    requires (forall r :: r in p.nodes ==> r !in q.nodes) && (forall r :: r in o.nodes ==> r !in q.nodes)
    modifies q, q.nodes`prev, req`next, req`prev
    ensures q.Valid() && p.Valid() && o.Valid() && q.nodes == [req] + old(q.nodes)
  {
    hide Queue.Valid;
    q.Enqueue(req);
    assert p.Valid() by { assert forall r :: r in p.nodes ==> r.next == old(r.next) && r.prev == old(r.prev); }
    assert o.Valid() by { assert forall r :: r in o.nodes ==> r.next == old(r.next) && r.prev == old(r.prev); }
  }

  // ------------------------------------------------- the descriptor sets

  /** block_read_fdset, block_write_fdset and max_fd. */
  class FdSets {
    var readSet: set<int>
    var writeSet: set<int>
    var maxFd: int

    constructor ()
      ensures readSet == writeSet == {} && maxFd == -1
    {
      readSet, writeSet, maxFd := {}, {}, -1;
    }

    predicate HasBit(w: Wait)
      reads this
    {
      match w case WaitRead(fd) => fd in readSet case WaitWrite(fd) => fd in writeSet
    }

    /** The sets hold exactly these bits. */
    ghost predicate Hold(bits: set<Wait>)
      reads this
    {
      forall w: Wait :: w in bits <==> HasBit(w)
    }

    /** BOA_FD_SET on the read set. */
    method SetRead(fd: int, ghost bits: set<Wait>)
      requires Hold(bits)
      modifies this
      ensures Hold(bits + {WaitRead(fd)}) && maxFd == if old(maxFd) < fd then fd else old(maxFd)
    {
      readSet := readSet + {fd};
      if fd > maxFd { maxFd := fd; }
    }

    /** BOA_FD_SET on the write set. */
    method SetWrite(fd: int, ghost bits: set<Wait>)
      requires Hold(bits)
      modifies this
      ensures Hold(bits + {WaitWrite(fd)}) && maxFd == if old(maxFd) < fd then fd else old(maxFd)
    {
      writeSet := writeSet + {fd};
      if fd > maxFd { maxFd := fd; }
    }

    /** The switch of block_request. */
    method Watch(c: Control, ghost bits: set<Wait>)
      requires Hold(bits)
      modifies this
      ensures Hold(bits + {WaitOf(c)})
      ensures maxFd == if old(maxFd) < WaitOf(c).fd then WaitOf(c).fd else old(maxFd)
    {
      hide FdSets.Hold;
      if c.bufferEnd != 0 {
        SetWrite(c.fd, bits);
      } else {
        match c.status
        case Write | PipeWrite | Done => SetWrite(c.fd, bits);
        case PipeRead => SetRead(c.dataFd, bits);
        case BodyWrite => SetWrite(c.postDataFd, bits);
        case _ => SetRead(c.fd, bits);
      }
    }

    /** The switch of ready_request. */
    method Unwatch(c: Control, ghost bits: set<Wait>)
      requires Hold(bits)
      modifies this`readSet, this`writeSet
      ensures Hold(bits - {WaitOf(c)})
    {
      if c.bufferEnd != 0 {
        writeSet := writeSet - {c.fd};
      } else {
        match c.status
        case Write | PipeWrite | Done => writeSet := writeSet - {c.fd};
        case PipeRead => readSet := readSet - {c.dataFd};
        case BodyWrite => writeSet := writeSet - {c.postDataFd};
        case _ => readSet := readSet - {c.fd};
      }
    }

    /** The FD_ISSET of fdset_update. */
    predicate IsSet(c: Control)
      reads this
    {
      if c.bufferEnd != 0 then c.fd in writeSet
      else match c.status
        case Write | PipeWrite | Done => c.fd in writeSet
        case PipeRead => c.dataFd in readSet
        case BodyWrite => c.postDataFd in writeSet
        case _ => c.fd in readSet
    }

    lemma IsSetMeans(c: Control, bits: set<Wait>)
      requires Hold(bits)
      ensures IsSet(c) == (WaitOf(c) in bits)
    {
    }

    /** select: any part of the sets may be left. */
    method Overwrite(ghost bits: set<Wait>) returns (ghost bits': set<Wait>)
      requires Hold(bits)
      modifies this`readSet, this`writeSet
      ensures Hold(bits') && bits' <= bits
    {
      var readable: set<int>, writable: set<int> := *, *;
      readSet := readSet * readable;
      writeSet := writeSet * writable;
      bits' := set w | w in bits && HasBit(w);
    }
  }

  // ------------------------------------------------- the server's memory

  /** The globals of the server, the kernel's table of open descriptors, and the state they stand
      for. */
  class Server {
    const ready: Queue
    const blocked: Queue
    const free: Queue
    const sets: FdSets
    const serverFd: int
    var totalConnections: int
    var pendingRequests: bool
    var sigtermFlag: bool
    var open: set<int>
    var memory: nat
    ghost var m: State

    ghost function Repr(): set<object>
      reads this
    {
      {this, ready, blocked, free, sets} + m.ctl.Keys
    }

    /** The memory holds the state `m`. */
    ghost predicate Coupled()
      reads this, Repr()
    {
      Lists(m) && Linked(m) && Fields(m)
    }

    /** The lists of `s` are those in memory. */
    ghost predicate Linked(s: State)
      reads ready, blocked, free
      reads s.ready`next, s.ready`prev, s.blocked`next, s.blocked`prev, s.free`next, s.free`prev
    {
      && ready != blocked && ready != free && blocked != free
      && ready.nodes == s.ready && blocked.nodes == s.blocked && free.nodes == s.free
      && ready.Valid() && blocked.Valid() && free.Valid()
    }

    /** The fields of every request and the globals are those of `s`. */
    ghost predicate Fields(s: State)
      reads this`totalConnections, this`pendingRequests, this`sigtermFlag, this`open, this`memory, sets, s.ctl.Keys`ctl
    {
      && (forall r :: r in s.ctl ==> r.ctl == s.ctl[r])
      && totalConnections == s.total && pendingRequests == s.pending && sigtermFlag == s.sigterm
      && open == s.open && memory == s.memory
      && sets.Hold(s.bits) && sets.maxFd == s.maxFd
    }

    constructor (serverFd: int, memory: nat)
      requires 2 < serverFd
      ensures Coupled() && Repr() == {this, ready, blocked, free, sets} && this.serverFd == serverFd
      ensures fresh(ready) && fresh(blocked) && fresh(free) && fresh(sets)
      ensures m == Start(serverFd, memory)
    {
      ready := new Queue();
      blocked := new Queue();
      free := new Queue();
      sets := new FdSets();
      this.serverFd, this.memory := serverFd, memory;
      totalConnections, pendingRequests, sigtermFlag := 0, false, false;
      open := {0, 1, 2, serverFd};
      m := Start(serverFd, memory);
      new;
      hide *;
      AtStart(serverFd, memory);
    }

    lemma AtStart(serverFd: int, memory: nat)
      requires ready != blocked && ready != free && blocked != free && m == Start(serverFd, memory)
      requires ready.Valid() && blocked.Valid() && free.Valid() && ready.nodes == blocked.nodes == free.nodes == []
      requires totalConnections == 0 && !pendingRequests && !sigtermFlag && open == {0, 1, 2, serverFd}
      requires this.memory == memory
      requires sets.readSet == sets.writeSet == {} && sets.maxFd == -1
      ensures Coupled() && Repr() == {this, ready, blocked, free, sets}
    {
      hide Queue.Valid;
    }

    // What the steps of the scheduler are made of.

    lemma InMemory()
      requires Coupled()
      ensures Lists(m) && Linked(m) && Fields(m) && Apart(m)
      ensures Repr() == {this, ready, blocked, free, sets} + m.ctl.Keys
    {
    }

    /** From now on the memory stands for `s`. */
    ghost method Becomes(s: State)
      requires Lists(s) && Linked(s) && Fields(s)
      modifies this`m
      ensures Coupled() && m == s && Repr() == {this, ready, blocked, free, sets} + s.ctl.Keys
    {
      hide Queue.Valid, FdSets.Hold, Lists;
      m := s;
    }

    /** dequeue(&list, req). */
    method Unlink(which: Which, req: Request, ghost front: seq<Request>, ghost tail: seq<Request>)
      requires Coupled() && ListOf(m, which) == front + [req] + tail
      modifies Repr()
      ensures Coupled() && m == With(old(m), which, front + tail) && Loose(m, req)
      ensures Repr() == old(Repr())
    {
      hide *;
      InMemory();
      ListsWithout(m, which, req, front, tail);
      UnlinkNodes(which, req, front, tail);
      SameFields(m, which, front + tail);
      Becomes(With(m, which, front + tail));
    }

    method UnlinkNodes(which: Which, req: Request, ghost front: seq<Request>, ghost tail: seq<Request>)
      requires Linked(m) && Apart(m) && ListOf(m, which) == front + [req] + tail
      modifies ready, blocked, free, m.ctl.Keys`next, m.ctl.Keys`prev
      ensures Linked(With(m, which, front + tail))
    {
      hide Queue.Valid;
      match which
      case Ready => Dequeue3(ready, blocked, free, req, front, tail);
      case Blocked => Dequeue3(blocked, ready, free, req, front, tail);
      case Free => Dequeue3(free, ready, blocked, req, front, tail);
    }

    lemma SameFields(s: State, which: Which, list: seq<Request>)
      requires Fields(s)
      ensures Fields(With(s, which, list)) && With(s, which, list).ctl == s.ctl
    {
    }

    /** enqueue(&list, req). */
    method Link(which: Which, req: Request)
      requires Coupled() && Loose(m, req)
      modifies Repr()
      ensures Coupled() && m == With(old(m), which, [req] + ListOf(old(m), which))
      ensures Repr() == old(Repr())
    {
      hide *;
      InMemory();
      ListsWith(m, which, req);
      LinkNodes(which, req);
      SameFields(m, which, [req] + ListOf(m, which));
      Becomes(With(m, which, [req] + ListOf(m, which)));
    }

    method LinkNodes(which: Which, req: Request)
      requires Linked(m) && Loose(m, req) && Apart(m)
      modifies ready, blocked, free, m.ctl.Keys`next, m.ctl.Keys`prev
      ensures Linked(With(m, which, [req] + ListOf(m, which)))
    {
      hide Queue.Valid;
      match which
      case Ready => Enqueue3(ready, blocked, free, req);
      case Blocked => Enqueue3(blocked, ready, free, req);
      case Free => Enqueue3(free, ready, blocked, req);
    }

    /** The globals change and the lists do not. */
    lemma SameLinks(s: State, s': State)
      requires Lists(s) && Linked(s)
      requires s'.ready == s.ready && s'.blocked == s.blocked && s'.free == s.free
      requires s'.ctl.Keys == s.ctl.Keys && s'.last.Keys == s.last.Keys && s'.handled.Keys == s.handled.Keys
      ensures Lists(s') && Linked(s')
    {
      hide Queue.Valid, Distinct;
    }

    method SetOpen(open': set<int>)
      requires Coupled()
      modifies Repr()
      ensures Coupled() && m == old(m).(open := open') && Repr() == old(Repr())
    {
      InMemory();
      SameLinks(m, m.(open := open'));
      hide Lists, Apart, Linked, FdSets.Hold, Coupled;
      open := open';
      Becomes(m.(open := open'));
    }

    method SetTotal(total: int)
      requires Coupled()
      modifies Repr()
      ensures Coupled() && m == old(m).(total := total) && Repr() == old(Repr())
    {
      InMemory();
      SameLinks(m, m.(total := total));
      hide Lists, Apart, Linked, FdSets.Hold, Coupled;
      totalConnections := total;
      Becomes(m.(total := total));
    }

    method SetPending(pending: bool)
      requires Coupled()
      modifies Repr()
      ensures Coupled() && m == old(m).(pending := pending) && Repr() == old(Repr())
    {
      InMemory();
      SameLinks(m, m.(pending := pending));
      hide Lists, Apart, Linked, FdSets.Hold, Coupled;
      pendingRequests := pending;
      Becomes(m.(pending := pending));
    }

    /** SIGTERM may have arrived. */
    method Signals()
      requires Coupled()
      modifies Repr()
      ensures Coupled() && m == old(m).(sigterm := m.sigterm) && (old(m).sigterm ==> m.sigterm) && Repr() == old(Repr())
    {
      InMemory();
      hide Lists, Apart, Linked, FdSets.Hold, Coupled;
      var arrived: bool := *;
      if arrived {
        sigtermFlag := true;
      }
      ghost var s := m.(sigterm := sigtermFlag);
      SameLinks(m, s);
      Becomes(s);
    }

    method Put(req: Request, c: Control)
      requires Coupled() && req in m.ctl
      modifies Repr()
      ensures Coupled() && m == Putting(old(m), req, c) && Repr() == old(Repr())
    {
      InMemory();
      SameLinks(m, Putting(m, req, c));
      hide Lists, Apart, Linked, FdSets.Hold, Coupled;
      req.ctl := c;
      Becomes(Putting(m, req, c));
    }

    method Watch(c: Control)
      requires Coupled()
      modifies Repr()
      ensures Coupled() && m == Watching(old(m), WaitOf(c)) && Repr() == old(Repr())
    {
      InMemory();
      SameLinks(m, Watching(m, WaitOf(c)));
      hide Lists, Apart, Linked, FdSets.Hold, Coupled, WaitOf;
      sets.Watch(c, m.bits);
      Becomes(Watching(m, WaitOf(c)));
    }

    method Unwatch(c: Control)
      requires Coupled()
      modifies Repr()
      ensures Coupled() && Repr() == old(Repr())
      ensures m == old(m).(bits := old(m).bits - {WaitOf(c)}, strays := old(m).strays - {WaitOf(c)})
    {
      InMemory();
      ghost var s := m.(bits := m.bits - {WaitOf(c)}, strays := m.strays - {WaitOf(c)});
      SameLinks(m, s);
      hide Lists, Apart, Linked, FdSets.Hold, Coupled, WaitOf;
      sets.Unwatch(c, m.bits);
      Becomes(s);
    }

    /** The head pointers. */
    lemma Heads()
      requires Coupled()
      ensures ready.head == if m.ready == [] then null else m.ready[0]
      ensures blocked.head == if m.blocked == [] then null else m.blocked[0]
      ensures free.head == if m.free == [] then null else m.free[0]
    {
      hide Lists, FdSets.Hold;
    }

    /** The request after one on a list. */
    lemma LinkAfter(which: Which, req: Request, front: seq<Request>, tail: seq<Request>)
      requires Coupled() && ListOf(m, which) == front + [req] + tail
      ensures req.next == if tail == [] then null else tail[0]
    {
      hide Queue.Valid, Lists;
      match which
      case Ready => ready.Next(req, front, tail);
      case Blocked => blocked.Next(req, front, tail);
      case Free => free.Next(req, front, tail);
    }

    method SetMemory(memory: nat)
      requires Coupled()
      modifies Repr()
      ensures Coupled() && m == old(m).(memory := memory) && Repr() == old(Repr())
    {
      InMemory();
      SameLinks(m, m.(memory := memory));
      hide Lists, Apart, Linked, FdSets.Hold, Coupled;
      this.memory := memory;
      Becomes(m.(memory := memory));
    }

    /** malloc. */
    method Allocate() returns (req: Request)
      requires Coupled()
      modifies Repr()
      ensures Coupled() && fresh(req) && req !in old(m).ctl && Repr() == old(Repr()) + {req}
      ensures m == old(m).(ctl := old(m).ctl[req := CLEARED],
                           last := old(m).last[req := Accepted], handled := old(m).handled[req := 0])
    {
      InMemory();
      hide *;
      req := new Request();
      ghost var s := m.(ctl := m.ctl[req := CLEARED], last := m.last[req := Accepted], handled := m.handled[req := 0]);
      AllocatedLinks(s, req);
      AllocatedFields(req);
      Becomes(s);
    }

    lemma AllocatedFields(req: Request)
      requires Fields(m) && req.ctl == CLEARED
      ensures Fields(m.(ctl := m.ctl[req := CLEARED], last := m.last[req := Accepted], handled := m.handled[req := 0]))
    {
      hide FdSets.Hold;
    }

    lemma AllocatedLinks(s: State, req: Request)
      requires Lists(m) && Linked(m)
      requires s.ready == m.ready && s.blocked == m.blocked && s.free == m.free
      requires s.ctl.Keys == m.ctl.Keys + {req} && s.last.Keys == m.last.Keys + {req}
      requires s.handled.Keys == m.handled.Keys + {req}
      ensures Lists(s) && Linked(s)
    {
      hide Queue.Valid, Distinct;
    }

    lemma Field(req: Request)
      requires Coupled() && req in m.ctl
      ensures req.ctl == m.ctl[req]
    {
      hide Linked, Lists, FdSets.Hold;
    }

    /** block_request: from the ready list to the blocked list, and start watching. */
    method BlockRequest(req: Request, ghost front: seq<Request>, ghost tail: seq<Request>)
      requires Coupled() && m.ready == front + [req] + tail && req in m.ctl
      modifies Repr()
      ensures Coupled() && m == Blocking(old(m), req, front, tail) && Repr() == old(Repr())
    {
      hide Coupled, Repr, Loose, WaitOf;
      Unlink(Ready, req, front, tail);
      Link(Blocked, req);
      Field(req);
      Watch(req.ctl);
    }

    /** ready_request: from the blocked list to the ready list, and stop watching. */
    method ReadyRequest(req: Request, ghost front: seq<Request>, ghost tail: seq<Request>)
      requires Coupled() && m.blocked == front + [req] + tail && req in m.ctl
      modifies Repr()
      ensures Coupled() && m == Waking(old(m), req, front, tail) && Repr() == old(Repr())
    {
      hide Coupled, Repr, Loose, WaitOf;
      Unlink(Blocked, req, front, tail);
      Link(Ready, req);
      Field(req);
      Unwatch(req.ctl);
    }

    // ------------------------------------------------- dispatching one request

    ghost method Note(req: Request, l: Last, n: nat)
      requires Coupled() && req in m.ctl
      modifies Repr()
      ensures Coupled() && m == old(m).(last := old(m).last[req := l], handled := old(m).handled[req := n])
      ensures Repr() == old(Repr())
    {
      InMemory();
      ghost var s := m.(last := m.last[req := l], handled := m.handled[req := n]);
      SameLinks(m, s) by { KeysOf(m, req); }
      hide Lists, Apart, Linked, FdSets.Hold, Coupled;
      Becomes(s);
    }

    lemma KeysOf(m: State, req: Request)
      requires Lists(m) && req in m.ctl
      ensures req in m.last && req in m.handled
    {
    }

    /** The fields and descriptors of a live request, in memory. */
    lemma LiveInMemory(req: Request)
      requires Coupled() && Sound(m, serverFd) && req in m.ready
      ensures req in m.ctl && req in m.last && req in m.handled && req.ctl == m.ctl[req] && open == m.open
      ensures GoodControl(req.ctl, open, serverFd) && {0, 1, 2, serverFd} <= open
    {
      hide Sound, Linked, Lists, FdSets.Hold, GoodControl;
      Live(m, req, serverFd);
    }

    method Handled(req: Request, sent: Sent) returns (retval: int, c: Control, open': set<int>)
      requires Coupled() && GoodControl(req.ctl, open, serverFd) && {0, 1, 2, serverFd} <= open
      ensures Coupled() && m == old(m) && Repr() == old(Repr()) && retval in {-1, 0, 1, RET_UPGRADE}
      ensures Dispatched(req.ctl, c, open, open', serverFd, retval) && Ruled(req.ctl, c, open, open', sent, retval)
    {
      hide Lists, Queue.Valid, FdSets.Hold, GoodControl, Dispatched, Ruled;
      retval, c, open' := Handle(req.ctl, open, serverFd, sent);
    }

    /** Dispatch one ready request: flush what it has buffered, or run the handler of its status. */
    method Dispatch(req: Request, sent: Sent) returns (retval: int)
      requires Coupled() && Sound(m, serverFd) && req in m.ready && req in m.ctl && req in m.handled
      modifies Repr()
      ensures Coupled() && Repr() == old(Repr()) && retval in {-1, 0, 1, RET_UPGRADE} && req in m.ctl
      ensures m == Dispatching(old(m), req, m.ctl[req], m.open, retval)
      ensures Dispatched(old(m).ctl[req], m.ctl[req], old(m).open, m.open, serverFd, retval)
      ensures Ruled(old(m).ctl[req], m.ctl[req], old(m).open, m.open, sent, retval)
    {
      hide Coupled, Repr, Loose, WaitOf, Sound, GoodControl, Dispatched, Ruled, LastOf;
      LiveInMemory(req);
      var c, open';
      retval, c, open' := Handled(req, sent);
      Note(req, LastOf(retval, m.ctl[req]), m.handled[req] + 1);
      Put(req, c);
      SetOpen(open');
    }

    // ------------------------------------------------- accepting and freeing

    /** new_request: the head of the free list, or a fresh block of memory; cleared.  Null exactly
        when the free list is empty and memory is exhausted. */
    method NewRequest() returns (req: Request?)
      requires Coupled()
      modifies Repr()
      ensures Coupled() && (req == null <==> old(m).free == [] && old(m).memory == 0)
      ensures req == null ==> m == old(m) && Repr() == old(Repr())
      ensures req != null ==>
        && Available(old(m), req) && m == Taking(old(m), req, CLEARED, Accepted) && Loose(m, req)
        && Repr() == old(Repr()) + {req} && (req in old(Repr()) || fresh(req))
    {
      hide Coupled, Repr, Loose, Lists;
      FreeInMemory();
      Heads();
      if free.head != null {
        req := free.head;
        TakenIsLoose(m, req);
        TakeHead(req);
      } else if memory == 0 {
        req := null;
      } else {
        req := Allocate();
        TakenIsLoose(old(m), req);
        FreeInMemory();
        SetMemory(memory - 1);
      }
    }

    lemma FreeInMemory()
      requires Coupled()
      ensures memory == m.memory && Lists(m)
      ensures forall r :: r in m.free ==> r in m.ctl && r in m.last && r in m.handled && r in Repr()
      ensures m.last.Keys == m.handled.Keys == m.ctl.Keys
    {
      hide Linked, FdSets.Hold;
    }

    method TakeHead(head: Request)
      requires Coupled() && m.free != [] && head == m.free[0]
      modifies Repr()
      ensures Coupled() && m == Taking(old(m), head, CLEARED, Accepted) && Repr() == old(Repr()) + {head}
    {
      hide Coupled, Repr, Loose, Lists;
      FreeInMemory();
      assert m.free == [] + [head] + m.free[1..];
      Unlink(Free, head, [], m.free[1..]);
      Put(head, CLEARED);
      Note(head, Accepted, m.handled[head]);
      assert m.handled == old(m).handled && [] + old(m).free[1..] == old(m).free[1..];
    }

    lemma Globals()
      requires Coupled()
      ensures open == m.open && totalConnections == m.total && pendingRequests == m.pending && sigtermFlag == m.sigterm
    {
      hide Lists, Linked, FdSets.Hold;
    }

    /** get_sock_request: accept a connection, if there is one, onto the front of the ready list. */
    method GetRequest(a: Accept) returns (conn: Request?)
      requires Coupled() && m.pending
      modifies Repr()
      ensures Coupled() && Polled(old(m), a, conn, m)
      ensures Repr() == old(Repr()) + (if conn == null then {} else {conn})
      ensures conn == null || conn in old(Repr()) || fresh(conn)
    {
      hide Coupled, Repr, Lists, Loose, Available;
      Globals();
      conn := null;
      match a
      case NoneWaiting => SetPending(false);
      case AcceptFails =>
      case Connection(fd, named, kaMax) =>
        if 2 < fd < FD_SETSIZE && fd !in open && named {     // otherwise it is closed again at once
          conn := Admit(fd, kaMax);
        }
    }

    /** new_request, and the fields its users set. */
    method NewRequestFor(c: Control, ghost l: Last) returns (conn: Request?)
      requires Coupled()
      modifies Repr()
      ensures Coupled() && (conn == null <==> old(m).free == [] && old(m).memory == 0)
      ensures conn == null ==> m == old(m)
      ensures conn != null ==> Available(old(m), conn) && m == Taking(old(m), conn, c, l) && Loose(m, conn)
      ensures Repr() == old(Repr()) + (if conn == null then {} else {conn})
      ensures conn == null || conn in old(Repr()) || fresh(conn)
    {
      hide Coupled, Repr, Lists, Available;
      conn := NewRequest();
      if conn != null {
        Put(conn, c);
        Note(conn, l, m.handled[conn]);
        TakenFor(old(m), conn, c, l);
      }
    }

    /** The part of get_sock_request after accept has handed out `fd`. */
    method Admit(fd: int, kaMax: int) returns (conn: Request?)
      requires Coupled()
      modifies Repr()
      ensures Coupled() && (conn == null <==> old(m).free == [] && old(m).memory == 0)
      ensures conn == null ==> m == old(m)
      ensures conn != null ==> Available(old(m), conn) && m == Admitting(old(m), conn, fd, kaMax)
      ensures Repr() == old(Repr()) + (if conn == null then {} else {conn})
      ensures conn == null || conn in old(Repr()) || fresh(conn)
    {
      hide Coupled, Repr, Lists, Available;
      conn := NewRequestFor(CLEARED.(fd := fd, kacount := kaMax), Accepted);
      if conn != null {
        Globals();
        SetOpen(open + {fd});
        Globals();
        SetTotal(totalConnections + 1);
        Link(Ready, conn);
      }
    }

    // ------------------------------------------------- freeing

    /** The first half of free_request: off the ready list, data descriptors closed. */
    method Detach(req: Request, ghost front: seq<Request>, ghost tail: seq<Request>)
      requires Coupled() && m.ready == front + [req] + tail && req in m.ctl
      modifies Repr()
      ensures Coupled() && m == Detaching(old(m), req, front, tail) && Loose(m, req) && Repr() == old(Repr())
    {
      hide Coupled, Repr, Lists;
      Field(req);
      var c := req.ctl;
      Unlink(Ready, req, front, tail);
      Globals();
      SetOpen(open - IfOpen(c.dataFd) - IfOpen(c.postDataFd));
    }

    /** Keep the connection of a detached request under a new request, which waits for the client
        even when bytes of its request have already been read. */
    method KeepConnection(req: Request) returns (conn: Request?)
      requires Coupled() && Loose(m, req) && req in m.ctl
      modifies Repr()
      ensures Coupled() && (conn == null <==> old(m).free == [] && old(m).memory == 0)
      ensures conn == null ==> m == old(m)
      ensures conn != null ==> Available(old(m), conn) && m == Keeping(old(m), req, conn)
      ensures Repr() == old(Repr()) + (if conn == null then {} else {conn})
      ensures conn == null || conn in old(Repr()) || fresh(conn)
    {
      hide Coupled, Repr, Lists, Available, Loose, Taking, Renewed;
      Field(req);
      var c := req.ctl;
      FreeInMemory();
      conn := NewRequestFor(Renewed(c), Recycled(c.unparsed));
      if conn != null {
        TakenBeside(old(m), conn, Renewed(c), Recycled(c.unparsed), req);
        RenewedWait(c);
        Link(Blocked, conn);
        Watch(Renewed(c));
        Link(Free, req);
      }
    }

    /** Close the connection of a detached request. */
    method CloseConnection(req: Request)
      requires Coupled() && Loose(m, req) && req in m.ctl
      modifies Repr()
      ensures Coupled() && m == Closing(old(m), req) && Repr() == old(Repr())
    {
      hide Coupled, Repr, Lists;
      Field(req);
      var fd := req.ctl.fd;
      Globals();
      SetOpen(open - {fd});
      Globals();
      SetTotal(totalConnections - 1);
      Link(Free, req);
    }

    /** free_request: with output still buffered the request only becomes DONE; otherwise its data
        descriptors are closed, and its connection goes on under a new request on the blocked list
        exactly if it is to be kept alive and there is a request to be had, or is closed. */
    method FreeRequest(req: Request, ghost front: seq<Request>, ghost tail: seq<Request>) returns (conn: Request?)
      requires Coupled() && m.ready == front + [req] + tail && req in m.ctl
      modifies Repr()
      ensures Coupled() && m == Freeing(old(m), req, front, tail, conn)
      ensures conn != null <==>
        && !StillSending(old(m).ctl[req]) && KeepsAlive(old(m).ctl[req]) && HasRoom(old(m))
      ensures conn != null ==> Available(old(m), conn)
      ensures Repr() == old(Repr()) + (if conn == null then {} else {conn})
      ensures conn == null || conn in old(Repr()) || fresh(conn)
    {
      hide Coupled, Repr, Lists, Loose, Detaching, Keeping, Closing, Putting;
      conn := null;
      Field(req);
      DetachedMeans(m, req, front, tail);
      var c := req.ctl;
      if c.bufferEnd != 0 && c.status != Dead {
        Put(req, c.(status := Done));
        return;
      }
      Detach(req, front, tail);
      if c.keepalive == KaActive && c.responseStatus < 500 && c.kacount > 0 {
        conn := KeepConnection(req);
      }
      if conn == null {
        CloseConnection(req);
      }
    }

    // ------------------------------------------------- one pass of the scheduler

    /** The first half of a turn: dispatch `current`, which leaves it as `c`, and give up keeping it alive
        on SIGTERM. */
    method Turn(current: Request, sent: Sent, ghost front: seq<Request>, ghost tail: seq<Request>)
      returns (retval: int, ghost c: Control)
      requires Coupled() && Walking(m, serverFd, [current] + tail) && m.ready == front + [current] + tail
      requires current in m.ctl
      modifies Repr()
      ensures Coupled() && Repr() == old(Repr()) && Walking(m, serverFd, [current] + tail)
      ensures m.ready == front + [current] + tail && Stands(m, current, retval, old(m).ctl[current])
      ensures current in m.ctl && m.ctl[current] == (if m.sigterm then c.(keepalive := KaStopped) else c)
      ensures Dispatched(old(m).ctl[current], c, old(m).open, m.open, serverFd, retval)
      ensures Ruled(old(m).ctl[current], c, old(m).open, m.open, sent, retval)
      ensures Counted(old(m), m, [current]) && Spares(old(m), m, [current]) && Calm(old(m), m, [current], serverFd)
    {
      hide *;
      Current(m, serverFd, current, front, tail);
      retval := Dispatch(current, sent);
      c := m.ctl[current];
      RuledEnds(old(m).ctl[current], c, old(m).open, m.open, sent, retval);
      TurnDispatched(old(m), current, c, m.open, retval, serverFd, front, tail);
      DispatchingCalm(old(m), current, c, m.open, retval, serverFd);
      StandsKnown(m, current, retval, old(m).ctl[current]);
      ghost var m1 := m;
      Signals();
      SameFlags(m1, m, serverFd, [current] + tail);
      FlagsCalm(m1, m, serverFd);
      TurnFlags(old(m), m1, m, current, retval, old(m).ctl[current], serverFd);
      Globals();
      if sigtermFlag {
        Squash(current, retval, old(m), front, tail);
      }
    }

    lemma StandsKnown(m: State, r: Request, retval: int, before: Control)
      requires Stands(m, r, retval, before)
      ensures r in m.ctl
    {
    }

    /** Between the dispatch and the check of the flag only the flag may change. */
    lemma TurnFlags(m0: State, m1: State, m: State, r: Request, retval: int, before: Control, serverFd: int)
      requires m == m1.(sigterm := m.sigterm) && Stands(m1, r, retval, before)
      requires Counted(m0, m1, [r]) && Spares(m0, m1, [r]) && Calm(m0, m1, [r], serverFd)
      requires Counted(m1, m, []) && Spares(m1, m, []) && Calm(m1, m, [], serverFd)
      ensures Stands(m, r, retval, before)
      ensures Counted(m0, m, [r]) && Spares(m0, m, [r]) && Calm(m0, m, [r], serverFd)
    {
      assert Spares(m1, m, [r]);
      hide SameFile, Explained, Over;
      SparesOn(m0, m1, m, [r]);
      CalmFor(m1, m, [r], serverFd);
      CalmOn(m0, m1, m, [r], serverFd);
    }

    method Squash(current: Request, ghost retval: int, ghost m0: State, ghost front: seq<Request>,
                  ghost tail: seq<Request>)
      requires Coupled() && Walking(m, serverFd, [current] + tail) && m.ready == front + [current] + tail
      requires current in m.ctl && current in m0.ctl && Stands(m, current, retval, m0.ctl[current])
      requires Counted(m0, m, [current]) && Spares(m0, m, [current]) && Calm(m0, m, [current], serverFd)
      modifies Repr()
      ensures Coupled() && Repr() == old(Repr()) && Walking(m, serverFd, [current] + tail)
      ensures m.ready == front + [current] + tail && Stands(m, current, retval, m0.ctl[current])
      ensures current in m.ctl && m.open == old(m).open && m.sigterm == old(m).sigterm
      ensures m.ctl[current] == old(m).ctl[current].(keepalive := KaStopped)
      ensures Counted(m0, m, [current]) && Spares(m0, m, [current]) && Calm(m0, m, [current], serverFd)
    {
      hide *;
      ghost var m1 := m;
      Field(current);
      Put(current, current.ctl.(keepalive := KaStopped));
      PutMeans(m1, current, m1.ctl[current].(keepalive := KaStopped), m);
      TurnSquashed(m1, current, retval, m0.ctl[current], serverFd, front, tail);
      PuttingCalm(m1, current, m1.ctl[current].(keepalive := KaStopped), serverFd);
      CalmFor(m1, m, [current], serverFd);
      CalmOn(m0, m1, m, [current], serverFd);
      SparesOn(m0, m1, m, [current]);
      CountedOn(m0, m1, m, [current], []);
      assert [current] + [] == [current];
    }

    lemma PutMeans(m: State, r: Request, c: Control, m': State)
      requires m' == Putting(m, r, c)
      ensures r in m'.ctl && m'.ctl[r] == c && m'.open == m.open && m'.sigterm == m.sigterm
    {
    }

    /** get_request, if a connection is pending. */
    method AcceptIfPending(ghost rest: seq<Request>, a: Accept) returns (ghost conn: Request?)
      requires Coupled() && Walking(m, serverFd, rest)
      modifies Repr()
      ensures Coupled() && Walking(m, serverFd, rest) && old(Repr()) <= Repr()
      ensures forall o :: o in Repr() && o !in old(Repr()) ==> fresh(o)
      ensures Polled(old(m), a, conn, m) && m.ready == (if conn == null then [] else [conn]) + old(m).ready
      ensures Counted(old(m), m, []) && Spares(old(m), m, []) && Calm(old(m), m, [], serverFd)
    {
      hide *;
      conn := null;
      Globals();
      if pendingRequests {
        conn := GetRequest(a);
      }
      NotPolled(old(m), a);
      PolledKeeps(old(m), a, conn, m, serverFd, rest);
      PolledCalm(old(m), a, conn, m, serverFd);
    }

    lemma NotPolled(m: State, a: Accept)
      ensures !m.pending ==> Polled(m, a, null, m)
    {
    }

    /** The switch on the result of the dispatch. */
    method File(current: Request, retval: int, ghost front: seq<Request>, ghost tail: seq<Request>)
      returns (ghost conn: Request?, ghost front': seq<Request>)
      requires Coupled() && m.ready == front + [current] + tail && current in m.ctl
      modifies Repr()
      ensures Coupled() && m == Filing(old(m), current, front, tail, retval, conn) && m.ready == front' + tail
      ensures old(Repr()) <= Repr() && (forall o :: o in Repr() && o !in old(Repr()) ==> fresh(o))
      ensures conn != null <==>
        && retval == 0 && !StillSending(old(m).ctl[current]) && KeepsAlive(old(m).ctl[current])
        && HasRoom(old(m))
      ensures conn != null ==> Available(old(m), conn)
    {
      hide Coupled, Repr, StillSending, KeepsAlive, Available;
      conn := null;
      front' := front + [current];
      if retval == -1 {
        BlockRequest(current, front, tail);
        front' := front;
      } else if retval == 0 {
        conn := FreeRequest(current, front, tail);
        front' := if StillSending(old(m).ctl[current]) then front + [current] else front;
      }
    }

    /** One turn of the walk: dispatch `current`, accept, then file it by the result. */
    method Visit(current: Request, sent: Sent, a: Accept, ghost front: seq<Request>, ghost tail: seq<Request>)
      returns (next: Request?, ghost retval: int, ghost front': seq<Request>, ghost t: Turned)
      requires Coupled() && Walking(m, serverFd, [current] + tail) && m.ready == front + [current] + tail
      requires current in m.ctl
      modifies Repr()
      ensures Coupled() && Walking(m, serverFd, tail) && old(Repr()) <= Repr()
      ensures forall o :: o in Repr() && o !in old(Repr()) ==> fresh(o)
      ensures m.ready == front' + tail && next == if tail == [] then null else tail[0]
      ensures Turns(old(m), current, t, m, sent, a, retval)
      ensures Counted(old(m), m, [current]) && Spares(old(m), m, [current]) && Calm(old(m), m, [current], serverFd)
      ensures MustEnd(old(m).ctl[current]) ==> Over(m, current)
    {
      hide *;
      ghost var c;
      var result;
      result, c := Turn(current, sent, front, tail);
      retval := result;
      ghost var m1 := m;
      ghost var accepted := AcceptIfPending([current] + tail, a);
      ghost var m2 := m;
      ghost var front2 := (if accepted == null then [] else [accepted]) + front;
      Prepended(m1, m2, accepted, front, current, tail);
      StandsStill(m1, m2, current, retval, old(m).ctl[current], front, tail);
      LinkAfter(Ready, current, front2, tail);
      next := current.next;
      ghost var conn;
      conn, front' := File(current, result, front2, tail);
      FilingKeeps(m2, current, front2, tail, retval, conn, serverFd, old(m).ctl[current]);
      FilingDisposes(m2, current, front2, tail, retval, conn, serverFd, old(m).ctl[current]);
      FilingKept(m2, current, front2, tail, retval, conn);
      FilingCalm(m2, current, front2, tail, retval, conn, serverFd);
      VisitSpares(old(m), m1, m2, m, current);
      VisitCalm(old(m), m1, m2, m, current, serverFd);
      t := Turned(c, m1, accepted, m2, conn);
      IsTurn(old(m), current, t, m, sent, a, retval);
      FreeInMemory();
      TurnsOver(old(m), current, t, m, sent, a, retval);
    }

    /** The walk over the ready list: each request on it is dispatched once and no other, and in
        the end every request is where the result of its last dispatch puts it. */
    method WalkReady()
      requires Coupled() && Walking(m, serverFd, m.ready)
      modifies Repr()
      ensures Coupled() && Walking(m, serverFd, []) && old(Repr()) <= Repr()
      ensures forall o :: o in Repr() && o !in old(Repr()) ==> fresh(o)
      ensures Counted(old(m), m, old(m).ready) && Spares(old(m), m, old(m).ready)
      ensures Ends(old(m), m, old(m).ready) && Calm(old(m), m, old(m).ready, serverFd)
    {
      hide *;
      ghost var start := m.ready;
      ghost var front: seq<Request>, walked: seq<Request>, rest: seq<Request> := [], [], start;
      Heads();
      WalkStarts(m, serverFd);
      FreeInMemory();
      EndsNone(m, start, serverFd);
      var current := ready.head;
      while current != null
        invariant Coupled() && Walking(m, serverFd, rest) && old(Repr()) <= Repr()
        invariant forall o :: o in Repr() && o !in old(Repr()) ==> fresh(o)
        invariant m.ready == front + rest && start == walked + rest
        invariant current == if rest == [] then null else rest[0]
        invariant Counted(old(m), m, walked) && Spares(old(m), m, start)
        invariant Ends(old(m), m, walked) && SameControls(old(m), m, rest) && Calm(old(m), m, start, serverFd)
        decreases |rest|
      {
        ghost var tail: seq<Request>, m1 := rest[1..], m;
        Walk(m, serverFd, start, walked, rest, front);
        var sent: Sent, a: Accept := *, *;
        ghost var retval, t;
        current, retval, front, t := Visit(current, sent, a, front, tail);
        WalkCounted(old(m), m1, m, start, walked, rest);
        EndsOn(old(m), m1, m, start, walked, rest, serverFd);
        walked, rest := walked + [rest[0]], tail;
      }
      assert walked == start;
    }

    /** process_requests.  Every request that is ready once a pending connection has been accepted
        is dispatched exactly once in the pass, and nothing else is, although accepting pushes on
        the list being walked and blocking or freeing unlinks the current request. */
    method ProcessRequests(a: Accept) returns (ghost start: seq<Request>)
      requires Coupled() && Walking(m, serverFd, m.ready)
      modifies Repr()
      ensures Coupled() && Walking(m, serverFd, []) && old(Repr()) <= Repr()
      ensures forall o :: o in Repr() && o !in old(Repr()) ==> fresh(o)
      ensures start == old(m).ready || (|start| > 0 && start[1..] == old(m).ready && start[0] !in old(m).blocked)
      ensures Counted(old(m), m, start) && Spares(old(m), m, start)
      ensures Ends(old(m), m, old(m).ready) && (WaitRead(serverFd) in m.bits <==> WaitRead(serverFd) in old(m).bits)
      ensures old(m).pending && Usable(a, old(m).open) && HasRoom(old(m)) ==> Admitted(old(m), m)
    {
      hide *;
      FreeInMemory();
      ghost var conn := AcceptIfPending(m.ready, a);
      ghost var m1 := m;
      PassStarts(old(m), m, conn, serverFd);
      start := m.ready;
      WalkReady();
      PassCounted(old(m), m1, m, start);
      PassEndsOn(old(m), m1, m, serverFd);
      AdmittedNow(old(m), a, conn, m1, m);
    }

    // ------------------------------------------------- select

    /** The bits that time-outs have left behind are kept track of. */
    ghost method Leave(strays: set<Wait>)
      requires Coupled()
      modifies Repr()
      ensures Coupled() && m == old(m).(strays := strays) && Repr() == old(Repr())
    {
      InMemory();
      SameLinks(m, m.(strays := strays));
      hide Lists, Apart, Linked, FdSets.Hold, Coupled;
      Becomes(m.(strays := strays));
    }

    /** The keepalive and request time-outs of fdset_update. */
    method TimeOut(req: Request)
      requires Coupled() && req in m.ctl
      modifies Repr()
      ensures Coupled() && Repr() == old(Repr())
      ensures m == Putting(old(m), req, TimedOut(old(m).ctl[req], true)).(
        strays := old(m).strays + Left(old(m), old(m).ctl[req], true))
    {
      hide Coupled, Repr, Lists, Left;
      Field(req);
      Put(req, req.ctl.(status := Dead));
      Leave(m.strays + Left(old(m), old(m).ctl[req], true));
    }

    lemma Bits(c: Control)
      requires Coupled()
      ensures sets.IsSet(c) == (WaitOf(c) in m.bits)
    {
      hide Lists, Linked, FdSets.Hold, FdSets.IsSet;
      sets.IsSetMeans(c, m.bits);
    }

    /** One iteration of fdset_update: a request that is dead or whose descriptor select left set
        becomes ready; any other is watched again. */
    method UpdateOne(current: Request, timedOut: bool, ghost front: seq<Request>, ghost tail: seq<Request>)
      returns (next: Request?)
      requires Coupled() && m.blocked == front + [current] + tail && current in m.ctl
      modifies Repr()
      ensures Coupled() && m == Updating(old(m), current, front, tail, timedOut) && Repr() == old(Repr())
      ensures next == if tail == [] then null else tail[0]
    {
      hide Coupled, Repr, Lists, WaitOf, Waking, Watching;
      LinkAfter(Blocked, current, front, tail);
      next := current.next;
      if timedOut {
        TimeOut(current);
      }
      NoTimeOut(old(m), current);
      Field(current);
      Bits(current.ctl);
      if sets.IsSet(current.ctl) || current.ctl.status == Dead {
        ReadyRequest(current, front, tail);
      } else {
        Watch(current.ctl);
      }
    }

    /** fdset_update, when the requests in `timedOut` have waited too long. */
    method FdsetUpdate(timedOut: set<Request>)
      requires Coupled() && forall r :: r in m.blocked ==> r in m.ctl
      modifies Repr()
      ensures Coupled() && m == Updates(old(m), [], old(m).blocked, timedOut) && Repr() == old(Repr())
    {
      hide Coupled, Repr, Updating, Kept;
      ghost var front: seq<Request>, rest: seq<Request> := [], m.blocked;
      Heads();
      var current := blocked.head;
      while current != null
        invariant Coupled() && Repr() == old(Repr()) && m.blocked == front + rest
        invariant forall r :: r in rest ==> r in m.ctl
        invariant current == if rest == [] then null else rest[0]
        invariant Updates(m, front, rest, timedOut) == Updates(old(m), [], old(m).blocked, timedOut)
        decreases |rest|
      {
        UpdatesOn(m, front, rest, timedOut);
        ghost var front' := Kept(m, current, front, current in timedOut);
        current := UpdateOne(current, current in timedOut, front, rest[1..]);
        front, rest := front', rest[1..];
      }
    }

    /** Reset max_fd, and run fdset_update unless nothing is blocked. */
    method Wake(timedOut: set<Request>)
      requires Coupled() && forall r :: r in m.blocked ==> r in m.ctl
      modifies Repr()
      ensures Coupled() && m == Updates(old(m).(maxFd := -1), [], old(m).blocked, timedOut) && Repr() == old(Repr())
    {
      hide Coupled, Repr;
      ResetMaxFd();
      Heads();
      if blocked.head != null {
        FdsetUpdate(timedOut);
      }
    }

    method ResetMaxFd()
      requires Coupled()
      modifies Repr()
      ensures Coupled() && m == old(m).(maxFd := -1) && Repr() == old(Repr())
    {
      InMemory();
      SameLinks(m, m.(maxFd := -1));
      hide Lists, Apart, Linked, Coupled;
      sets.maxFd := -1;
      Becomes(m.(maxFd := -1));
    }

    /** The listening socket is watched while there is room for another connection. */
    method WatchServer(maxConnections: int)
      requires Coupled() && Walking(m, serverFd, [])
      modifies Repr()
      ensures Coupled() && Walking(m, serverFd, []) && Repr() == old(Repr())
      ensures m == Heard(old(m), m.sigterm, serverFd, maxConnections)
      ensures Counted(old(m), m, []) && Spares(old(m), m, [])
      ensures forall r :: r in old(m).ctl && Over(old(m), r) ==> Over(m, r)
    {
      hide Coupled, Repr, Walking, Counted, Spares, Over;
      Signals();
      Globals();
      if !sigtermFlag && totalConnections < maxConnections - 10 {
        WatchFd(serverFd);
      }
      HeardKeeps(old(m), m.sigterm, serverFd, maxConnections);
    }

    method WatchFd(fd: int)
      requires Coupled()
      modifies Repr()
      ensures Coupled() && m == Watching(old(m), WaitRead(fd)) && Repr() == old(Repr())
    {
      InMemory();
      SameLinks(m, Watching(m, WaitRead(fd)));
      hide Lists, Apart, Linked, FdSets.Hold, Coupled, WaitOf;
      sets.SetRead(fd, m.bits);
      Becomes(Watching(m, WaitRead(fd)));
    }

    /** The call of select, and what follows it unless it is interrupted. */
    method Select(interrupted: bool)
      requires Coupled()
      modifies Repr()
      ensures Coupled() && Selected(old(m), m, interrupted, serverFd) && Repr() == old(Repr())
    {
      hide Coupled, Repr;
      var room: nat := *;
      Leave(m.strays * m.bits);
      SetMemory(room);
      if !interrupted {
        Overwrite();
        ServerBit();
        if serverFd in sets.readSet {
          SetPending(true);
        }
      }
    }

    lemma ServerBit()
      requires Coupled()
      ensures serverFd in sets.readSet <==> WaitRead(serverFd) in m.bits
    {
      hide Lists, Linked;
      assert sets.HasBit(WaitRead(serverFd)) <==> WaitRead(serverFd) in m.bits;
    }

    method Overwrite()
      requires Coupled()
      modifies Repr()
      ensures Coupled() && m == old(m).(bits := m.bits, strays := old(m).strays * m.bits) && m.bits <= old(m).bits
      ensures Repr() == old(Repr())
    {
      InMemory();
      hide Lists, Apart, Linked, FdSets.Hold, Coupled;
      ghost var bits' := sets.Overwrite(m.bits);
      SameLinks(m, m.(bits := bits', strays := m.strays * bits'));
      Becomes(m.(bits := bits', strays := m.strays * bits'));
    }

    /** The part of an iteration of select_loop before the call of select. */
    method Round(timedOut: set<Request>, a: Accept, maxConnections: int)
      requires Coupled() && Sound(m, serverFd) && FiledBut(m, m.ready) && forall r :: r in m.blocked ==> r in m.ctl
      modifies Repr()
      ensures Coupled() && Walking(m, serverFd, []) && RoundDone(old(m), m, timedOut)
      ensures RoundEnds(old(m), m, timedOut) && Listens(old(m), m, a, serverFd, maxConnections)
      ensures old(Repr()) <= Repr() && (forall o :: o in Repr() && o !in old(Repr()) ==> fresh(o))
    {
      hide *;
      Wake(timedOut);
      ghost var m1 := m;
      UpdatedFacts(old(m), m1, timedOut, serverFd);
      ghost var start := ProcessRequests(a);
      ghost var m2 := m;
      WatchServer(maxConnections);
      PassEnds(m1, m2, m, start);
      RoundSteps(old(m), m1, m, start, timedOut, serverFd);
      EndsLater(m1, m2, m, m1.ready);
      RoundEndsNow(old(m), m1, m, timedOut, serverFd);
      ListensNow(old(m), m1, m2, m, a, timedOut, serverFd, maxConnections);
    }

    /** select_loop, for any number of iterations.  `seen` are the states at the calls of select and
        `left` what those leave.  In every one of `seen` each blocked request is watched and every
        request is where its last dispatch put it. */
    method SelectLoop(iterations: nat, maxConnections: int)
      returns (ghost seen: seq<State>, ghost left: seq<State>, ghost choices: seq<Choice>)
      requires Coupled() && Sound(m, serverFd) && FiledBut(m, m.ready)
      modifies Repr()
      ensures Coupled() && |seen| == |left| == iterations
      ensures Trace(old(m).(bits := {}, strays := {}), seen, left, choices, serverFd, maxConnections)
      ensures m == Before(old(m).(bits := {}, strays := {}), left, iterations)
    {
      hide *;
      seen, left, choices := [], [], [];
      Zero();
      ghost var start := m;
      ZeroKeeps(old(m), serverFd);
      NoTrace(start, serverFd, maxConnections);
      var i := 0;
      while i < iterations
        invariant Coupled() && Sound(m, serverFd) && FiledBut(m, m.ready)
        invariant forall o :: o in Repr() && o !in old(Repr()) ==> fresh(o)
        invariant i == |seen| == |left| <= iterations && Trace(start, seen, left, choices, serverFd, maxConnections)
        invariant m == Before(start, left, i)
      {
        var expired: set<Request>, a: Accept, interrupted: bool := *, *, *;
        BlockedIsKnown();
        Round(expired, a, maxConnections);
        ghost var s, c := m, Choice(expired, a, interrupted);
        Select(interrupted);
        SelectedKeeps(s, m, interrupted, serverFd);
        IsIteration(Before(start, left, i), s, m, c, serverFd, maxConnections);
        TraceOn(start, seen, left, choices, serverFd, maxConnections, s, m, c);
        seen, left, choices := seen + [s], left + [m], choices + [c];
        i := i + 1;
      }
    }

    lemma BlockedIsKnown()
      requires Coupled()
      ensures forall r :: r in m.blocked ==> r in m.ctl
    {
      hide Linked, Fields;
    }

    /** FD_ZERO of both sets. */
    method Zero()
      requires Coupled()
      modifies Repr()
      ensures Coupled() && m == old(m).(bits := {}, strays := {}) && Repr() == old(Repr())
    {
      InMemory();
      SameLinks(m, m.(bits := {}, strays := {}));
      hide Lists, Apart, Linked, Coupled;
      sets.readSet, sets.writeSet := {}, {};
      Becomes(m.(bits := {}, strays := {}));
    }
  }
}
