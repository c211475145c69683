/** The cache of mapped files: an open-addressed table of reference-counted mappings. */
module MmapCache {
  import opened Options

  const LIST_SIZE: nat := 256
  const USE_MAX: nat := 128

  /** struct mmap_entry; `address` is where the file is mapped. */
  datatype Entry = Entry(dev: nat, ino: nat, len: nat, address: int, useCount: int)

  datatype File = File(dev: nat, ino: nat, len: nat)

  predicate Holds(e: Entry, f: File) { File(e.dev, e.ino, e.len) == f }

  predicate InUse(e: Entry) { e.useCount > 0 }

  /** MMAP_LIST_HASH. */
  function Hash(f: File): (i: nat)
    ensures i < LIST_SIZE
  {
    f.ino % LIST_SIZE
  }

  /** The slot `k` steps of MMAP_LIST_NEXT after `start`. */
  function Slot(start: nat, k: nat): (i: nat)
    ensures i < LIST_SIZE
  {
    (start + k) % LIST_SIZE
  }

  // ------------------------------------------------- counting

  lemma {:induction false} FullSet(s: set<nat>, n: nat)
    requires forall i: nat :: i in s <==> i < n
    ensures |s| == n
  {
    if n == 0 {
      assert s == {};
    } else {
      FullSet(s - {n - 1}, n - 1);
    }
  }

  function UsedSlots(t: seq<Entry>): set<nat> { set i: nat | i < |t| && InUse(t[i]) }

  /** The sum of the use counts. */
  function Uses(t: seq<Entry>): int {
    if t == [] then 0 else Uses(t[..|t| - 1]) + t[|t| - 1].useCount
  }

  lemma {:induction false} UsesAfter(t: seq<Entry>, i: nat, e: Entry)
    requires i < |t|
    ensures Uses(t[i := e]) == Uses(t) - t[i].useCount + e.useCount
  {
    var n := |t| - 1;
    if i < n {
      UsesAfter(t[..n], i, e);
      assert t[i := e][..n] == t[..n][i := e];
    } else {
      assert t[i := e][..n] == t[..n];
    }
  }

  lemma UsedAfter(t: seq<Entry>, i: nat, e: Entry)
    requires i < |t|
    ensures UsedSlots(t[i := e]) == (if InUse(e) then UsedSlots(t) + {i} else UsedSlots(t) - {i})
  {
  }

  /** Pigeonhole: a probe that has gone all the way round has seen every slot in use. */
  lemma AllRound(t: seq<Entry>, start: nat)
    requires |t| == LIST_SIZE && start < LIST_SIZE
    requires forall k: nat :: k < LIST_SIZE ==> InUse(t[Slot(start, k)])
    ensures |UsedSlots(t)| == LIST_SIZE
  {
    forall i: nat | i < LIST_SIZE ensures InUse(t[i]) {
      var k := if start <= i then i - start else i + LIST_SIZE - start;
      assert Slot(start, k) == i;
    }
    FullSet(UsedSlots(t), LIST_SIZE);
  }

  // ------------------------------------------------- the path of a probe

  /** The first `k` slots from `start` on are in use, for other files. */
  ghost predicate Passed(t: seq<Entry>, f: File, start: nat, k: nat)
    requires |t| == LIST_SIZE
  {
    forall j: nat :: j < k ==> InUse(t[Slot(start, j)]) && !Holds(t[Slot(start, j)], f)
  }

  /** Slot `i` is where the probe for `f` stops: every slot before it holds another file. */
  ghost predicate FirstOnPath(t: seq<Entry>, f: File, i: nat)
    requires |t| == LIST_SIZE && i < LIST_SIZE
  {
    && (!InUse(t[i]) || Holds(t[i], f))
    && exists k: nat :: k < LIST_SIZE && i == Slot(Hash(f), k) && Passed(t, f, Hash(f), k)
  }

  lemma FirstSlot(start: nat)
    requires start < LIST_SIZE
    ensures Slot(start, 0) == start
  {
  }

  lemma NextSlot(start: nat, k: nat)
    requires start < LIST_SIZE && k < LIST_SIZE
    ensures (Slot(start, k) + 1) % LIST_SIZE == Slot(start, k + 1)
    ensures Slot(start, k + 1) == start <==> k + 1 == LIST_SIZE
  {
  }

  lemma OneMorePassed(t: seq<Entry>, f: File, start: nat, k: nat)
    requires |t| == LIST_SIZE && Passed(t, f, start, k) && InUse(t[Slot(start, k)]) && !Holds(t[Slot(start, k)], f)
    ensures Passed(t, f, start, k + 1)
  {
    hide Slot;
  }

  lemma StopsAt(t: seq<Entry>, f: File, i: nat, k: nat)
    requires |t| == LIST_SIZE && k < LIST_SIZE && i == Slot(Hash(f), k) && Passed(t, f, Hash(f), k)
    requires !InUse(t[i]) || Holds(t[i], f)
    ensures FirstOnPath(t, f, i)
  {
    hide Slot, Hash;
  }

  /** The probe stops at one slot only. */
  lemma OneSlotOnPath(t: seq<Entry>, f: File, i: nat, j: nat)
    requires |t| == LIST_SIZE && i < LIST_SIZE && j < LIST_SIZE && FirstOnPath(t, f, i) && FirstOnPath(t, f, j)
    ensures i == j
  {
    hide Slot, Hash;
    var k: nat :| k < LIST_SIZE && i == Slot(Hash(f), k) && Passed(t, f, Hash(f), k);
    var l: nat :| l < LIST_SIZE && j == Slot(Hash(f), l) && Passed(t, f, Hash(f), l);
    assert !(k < l) && !(l < k);
  }

  // ------------------------------------------------- the invariant

  /** The counter counts the slots in use, and a slot has as many handles as uses. */
  ghost predicate Counted(t: seq<Entry>, used: int, handles: multiset<nat>) {
    && |t| == LIST_SIZE
    && used == |UsedSlots(t)| <= USE_MAX + 1
    && (forall i: nat :: i < LIST_SIZE ==> t[i].useCount == handles[i])
    && (forall i: nat :: LIST_SIZE <= i ==> i !in handles)
    && |handles| == Uses(t)
  }

  /** The slots in use hold the live mappings, one each. */
  ghost predicate Mapped(t: seq<Entry>, used: int, live: set<int>) {
    && (forall i: nat :: i < |t| && InUse(t[i]) ==> t[i].address in live)
    && (forall i: nat, j: nat :: i < j < |t| && InUse(t[i]) && InUse(t[j]) ==> t[i].address != t[j].address)
    && |live| == used
  }

  lemma CountUse(t: seq<Entry>, used: int, handles: multiset<nat>, i: nat, e: Entry)
    requires Counted(t, used, handles) && i < LIST_SIZE && e.useCount == t[i].useCount + 1
    requires InUse(t[i]) || used <= USE_MAX
    ensures Counted(t[i := e], used + (if InUse(t[i]) then 0 else 1), handles + multiset{i})
  {
    assert handles[i] == t[i].useCount;
    hide Uses, UsedSlots;
    UsesAfter(t, i, e);
    UsedCount(t, i, e);
  }

  lemma CountRelease(t: seq<Entry>, used: int, handles: multiset<nat>, i: nat, e: Entry)
    requires Counted(t, used, handles) && i < LIST_SIZE && InUse(t[i]) && e.useCount == t[i].useCount - 1
    ensures Counted(t[i := e], used - (if InUse(e) then 0 else 1), handles - multiset{i})
  {
    assert handles[i] == t[i].useCount;
    hide Uses, UsedSlots;
    UsesAfter(t, i, e);
    UsedCount(t, i, e);
  }

  lemma UsedCount(t: seq<Entry>, i: nat, e: Entry)
    requires i < |t|
    ensures |UsedSlots(t[i := e])| == |UsedSlots(t)| - (if InUse(t[i]) then 1 else 0) + (if InUse(e) then 1 else 0)
  {
    UsedAfter(t, i, e);
    var s := UsedSlots(t);
    assert (i in s) == InUse(t[i]);
    assert InUse(t[i]) ==> s + {i} == s && |s - {i}| == |s| - 1;
    assert !InUse(t[i]) ==> s - {i} == s && |s + {i}| == |s| + 1;
  }

  lemma MapsKept(t: seq<Entry>, used: int, live: set<int>, i: nat, e: Entry)
    requires Mapped(t, used, live) && i < |t| && InUse(t[i]) && InUse(e) && e.address == t[i].address
    ensures Mapped(t[i := e], used, live)
  {
  }

  lemma MapAdded(t: seq<Entry>, used: int, live: set<int>, i: nat, e: Entry)
    requires Mapped(t, used, live) && i < |t| && !InUse(t[i]) && e.address !in live
    ensures Mapped(t[i := e], used + 1, live + {e.address})
  {
  }

  lemma MapRemoved(t: seq<Entry>, used: int, live: set<int>, i: nat, e: Entry)
    requires Mapped(t, used, live) && i < |t| && InUse(t[i]) && !InUse(e)
    ensures t[i].address in live && Mapped(t[i := e], used - 1, live - {t[i].address})
  {
  }

  /** No mapping is without a slot. */
  lemma EveryMappingHasASlot(t: seq<Entry>, live: set<int>, m: int)
    requires Mapped(t, |UsedSlots(t)|, live) && m in live
    ensures exists i: nat :: i < |t| && InUse(t[i]) && t[i].address == m
  {
    if forall i: nat :: i < |t| && InUse(t[i]) ==> t[i].address != m {
      TooFewAddresses(t, UsedSlots(t), live - {m});
    }
  }

  lemma {:induction false} TooFewAddresses(t: seq<Entry>, slots: set<nat>, addresses: set<int>)
    requires forall i :: i in slots ==> i < |t| && t[i].address in addresses
    requires forall i, j :: i in slots && j in slots && i != j ==> t[i].address != t[j].address
    ensures |slots| <= |addresses|
  {
    if slots != {} {
      var i :| i in slots;
      TooFewAddresses(t, slots - {i}, addresses - {t[i].address});
    }
  }

  // ------------------------------------------------- the kernel

  class Kernel {
    var live: set<int>      // the addresses of the mappings that exist
    var next: int           // what the next call of mmap answers: an address, or -1

    constructor ()
      ensures live == {}
    {
      live := {};
      next := *;
    }

    /** The next mapping will fail; an address that is mapped already is never answered. */
    predicate Refuses()
      reads this
    {
      next == -1 || next in live
    }

    /** mmap: -1, or the address of a new mapping. */
    method Mmap() returns (m: int)
      modifies this
      ensures m == (if old(Refuses()) then -1 else old(next))
      ensures live == if m == -1 then old(live) else old(live) + {m}
      ensures m != -1 ==> m !in old(live)
    {
      m := if Refuses() then -1 else next;
      if m != -1 {
        live := live + {m};
      }
      next := *;
    }

    /** munmap of an existing mapping. */
    method Munmap(m: int)
      requires m in live
      modifies this`live
      ensures live == old(live) - {m}
    {
      live := live - {m};
    }
  }

  // ------------------------------------------------- the cache

  class Cache {
    const kernel: Kernel
    const list: array<Entry>
    var entriesUsed: int
    ghost var handles: multiset<nat>     // the slots handed out and not released, with repetition

    ghost predicate Valid()
      reads this, list, kernel
    {
      Counted(list[..], entriesUsed, handles) && Mapped(list[..], entriesUsed, kernel.live)
    }

    constructor ()
      ensures Valid() && handles == multiset{} && fresh(list) && fresh(kernel)
      ensures entriesUsed == 0 && kernel.live == {} && list.Length == LIST_SIZE
      ensures forall e :: e in list[..] ==> !InUse(e)
    {
      kernel := new Kernel();
      list := new Entry[LIST_SIZE](_ => Entry(0, 0, 0, 0, 0));
      entriesUsed, handles := 0, multiset{};
      new;
      EmptyTable(list[..]);
    }

    /** find_mmap: share the mapping of the file if the probe meets it before a free slot, or map
        the file into the free slot.  It fails exactly when the probe meets a free slot first and
        the table has its fill of entries or mmap fails; running all the way round the table is
        impossible. */
    method Find(f: File) returns (r: Option<nat>)
      requires Valid()
      modifies this, list, kernel
      ensures Valid()
      ensures r.None? ==>
        && list[..] == old(list[..]) && handles == old(handles) && kernel.live == old(kernel.live)
        && entriesUsed == old(entriesUsed)
        && (old(entriesUsed) > USE_MAX || old(kernel.Refuses()))
        && exists i: nat :: i < LIST_SIZE && FirstOnPath(old(list[..]), f, i) && !InUse(old(list[..])[i])
      ensures r.Some? ==>
        && r.value < LIST_SIZE && Holds(list[r.value], f)
        && list[r.value].dev == f.dev && list[r.value].ino == f.ino && list[r.value].len == f.len
        && handles == old(handles) + multiset{r.value}
        && FirstOnPath(old(list[..]), f, r.value)
        && list[..] == old(list[..])[r.value := list[r.value]]
        && (if old(InUse(list[r.value]))
            then list[r.value] == old(list[r.value]).(useCount := old(list[r.value]).useCount + 1)
                 && kernel.live == old(kernel.live) && entriesUsed == old(entriesUsed)
            else list[r.value] == Entry(f.dev, f.ino, f.len, old(kernel.next), 1)
                 && old(entriesUsed) <= USE_MAX && !old(kernel.Refuses())
                 && kernel.live == old(kernel.live) + {old(kernel.next)} && entriesUsed == old(entriesUsed) + 1)
    {
      var i, found := Probe(f);
      hide Counted, Mapped, FirstOnPath;
      var entry := list[i];
      if found {
        CountUse(list[..], entriesUsed, handles, i, entry.(useCount := entry.useCount + 1));
        MapsKept(list[..], entriesUsed, kernel.live, i, entry.(useCount := entry.useCount + 1));
        list[i] := entry.(useCount := entry.useCount + 1);
        handles := handles + multiset{i};
        return Some(i);
      }
      if entriesUsed > USE_MAX {
        return None;
      }
      var m := kernel.Mmap();
      if m == -1 {
        return None;
      }
      var added := Entry(f.dev, f.ino, f.len, m, 1);
      CountUse(list[..], entriesUsed, handles, i, added);
      MapAdded(list[..], entriesUsed, old(kernel.live), i, added);
      entriesUsed := entriesUsed + 1;
      list[i] := added;
      handles := handles + multiset{i};
      r := Some(i);
    }

    /** The probe: the first slot on the path of the file that is free or holds the file. */
    method Probe(f: File) returns (i: nat, found: bool)
      requires Valid()
      ensures i < LIST_SIZE && FirstOnPath(list[..], f, i)
      ensures found == InUse(list[i]) && (!found ==> list[i].useCount == 0)
    {
      var start := Hash(f);
      i := start;
      found := false;
      ghost var k := 0;
      ghost var t := list[..];
      InMemory();
      FirstSlot(start);
      hide Slot, Hash, Valid, FirstOnPath;
      while list[i].useCount != 0
        invariant k < LIST_SIZE && i == Slot(start, k) && Passed(t, f, start, k)
        decreases LIST_SIZE - k
      {
        if list[i].dev == f.dev && list[i].ino == f.ino && list[i].len == f.len {
          StopsAt(t, f, i, k);
          return i, true;
        }
        NextSlot(start, k);
        OneMorePassed(t, f, start, k);
        k := k + 1;
        i := (i + 1) % LIST_SIZE;
        if i == start {
          NotAllRound(f, start);
          assert false;                  // the source returns NULL here
        }
      }
      StopsAt(t, f, i, k);
    }

    lemma InMemory()
      requires Valid()
      ensures list.Length == LIST_SIZE && forall i: nat :: i < LIST_SIZE ==> list[i].useCount >= 0
    {
      assert forall i: nat :: i < LIST_SIZE ==> list[i] == list[..][i];
    }

    lemma NotAllRound(f: File, start: nat)
      requires Valid() && start < LIST_SIZE
      ensures !Passed(list[..], f, start, LIST_SIZE)
    {
      hide Slot;
      if Passed(list[..], f, start, LIST_SIZE) {
        AllRound(list[..], start);
      }
    }

    /** release_mmap: give back one handle; the last one of a slot unmaps the file. */
    method Release(e: Option<nat>)
      requires Valid() && (e.Some? ==> e.value < LIST_SIZE)
      modifies this, list, kernel
      ensures Valid()
      ensures e.None? || old(handles)[e.value] == 0 ==>
        && list[..] == old(list[..]) && handles == old(handles) && kernel.live == old(kernel.live)
        && entriesUsed == old(entriesUsed)
      ensures e.Some? && old(handles)[e.value] > 0 ==>
        && handles == old(handles) - multiset{e.value}
        && list[..] == old(list[..])[e.value := old(list[e.value]).(useCount := old(list[e.value]).useCount - 1)]
        && old(list[e.value]).address in old(kernel.live)
        && kernel.live == old(kernel.live) - (if old(handles)[e.value] == 1 then {old(list[e.value]).address} else {})
        && entriesUsed == old(entriesUsed) - (if old(handles)[e.value] == 1 then 1 else 0)
    {
      if e.None? {
        return;
      }
      var i := e.value;
      var entry := list[i];
      assert handles[i] == list[..][i].useCount;
      if entry.useCount == 0 {
        return;
      }
      hide Counted, Mapped;
      var less := entry.(useCount := entry.useCount - 1);
      CountRelease(list[..], entriesUsed, handles, i, less);
      list[i] := less;
      if less.useCount == 0 {
        MapRemoved(old(list[..]), entriesUsed, kernel.live, i, less);
        kernel.Munmap(entry.address);
        entriesUsed := entriesUsed - 1;
      } else {
        MapsKept(old(list[..]), entriesUsed, kernel.live, i, less);
      }
      handles := handles - multiset{i};
    }

    /** Nothing leaks: once every handle has been released, every mapping is gone. */
    lemma NothingLeaks()
      requires Valid() && handles == multiset{}
      ensures kernel.live == {} && entriesUsed == 0
    {
      assert forall i: nat :: i < LIST_SIZE ==> list[..][i].useCount == handles[i] == 0;
      assert UsedSlots(list[..]) == {};
    }

    /** In every state the live mappings are exactly those of the slots with a handle. */
    lemma LiveMappings(m: int)
      requires Valid()
      ensures m in kernel.live <==> exists i: nat :: i < LIST_SIZE && i in handles && list[..][i].address == m
    {
      var t := list[..];
      assert forall i: nat :: i < LIST_SIZE ==> (i in handles <==> InUse(t[i]));
      if m in kernel.live {
        EveryMappingHasASlot(t, kernel.live, m);
        var i: nat :| i < |t| && InUse(t[i]) && t[i].address == m;
        assert i in handles;
      }
    }
  }

  lemma EmptyTable(t: seq<Entry>)
    requires |t| == LIST_SIZE && forall i: nat :: i < |t| ==> t[i].useCount == 0
    ensures Counted(t, 0, multiset{}) && Mapped(t, 0, {})
  {
    assert UsedSlots(t) == {};
    NoUses(t);
  }

  lemma {:induction false} NoUses(t: seq<Entry>)
    requires forall i: nat :: i < |t| ==> t[i].useCount == 0
    ensures Uses(t) == 0
  {
    if t != [] { NoUses(t[..|t| - 1]); }
  }

  /** A slot stays what it was handed out as while any handle for it is outstanding, whatever
      file is looked up next. */
  method SlotIsStable(cache: Cache, i: nat, f: File) returns (r: Option<nat>)
    requires cache.Valid() && cache.handles[i] > 0 && i < LIST_SIZE
    modifies cache, cache.list, cache.kernel
    ensures cache.Valid() && cache.handles[i] > 0 && cache.list[i].address in cache.kernel.live
    ensures cache.list[i] == old(cache.list[i]).(useCount := cache.list[i].useCount)
  {
    r := cache.Find(f);
    assert cache.list[..][i] == cache.list[i];
  }

  /** The first slot on the path of a file stays so while the table only fills up. */
  lemma StaysFirst(t: seq<Entry>, f: File, i: nat, j: nat, e: Entry)
    requires |t| == LIST_SIZE && i < LIST_SIZE && j < LIST_SIZE && FirstOnPath(t, f, i) && InUse(t[i])
    requires InUse(e) && (InUse(t[j]) ==> e.dev == t[j].dev && e.ino == t[j].ino && e.len == t[j].len)
    ensures FirstOnPath(t[j := e], f, i) && InUse(t[j := e][i])
  {
    var k: nat :| k < LIST_SIZE && i == Slot(Hash(f), k) && Passed(t, f, Hash(f), k);
    assert Passed(t[j := e], f, Hash(f), k);
    hide Slot, Hash;
  }

  /** A file is mapped once: as long as nothing is released, looking it up again gives the same slot,
      whatever is looked up in between. */
  method SharesMapping(cache: Cache, f: File, others: seq<File>) returns (first: Option<nat>, again: Option<nat>)
    requires cache.Valid()
    modifies cache, cache.list, cache.kernel
    ensures cache.Valid() && (first.Some? ==> again == first)
  {
    first := cache.Find(f);
    if first.None? {
      return None, None;
    }
    hide Cache.Valid, FirstOnPath;
    Found(old(cache.list[..]), cache.list[..], f, first.value);
    var i := 0;
    while i < |others|
      invariant cache.Valid() && first.value < LIST_SIZE == cache.list.Length
      invariant FirstOnPath(cache.list[..], f, first.value) && InUse(cache.list[..][first.value])
    {
      ghost var t := cache.list[..];
      var r := cache.Find(others[i]);
      if r.Some? { StaysFirst(t, f, first.value, r.value, cache.list[r.value]); }
      i := i + 1;
    }
    ghost var t := cache.list[..];
    again := cache.Find(f);
    SharedSlot(t, f, first.value, again);
  }

  lemma Found(t: seq<Entry>, t': seq<Entry>, f: File, i: nat)
    requires |t| == |t'| == LIST_SIZE && i < LIST_SIZE && FirstOnPath(t, f, i)
    requires t' == t[i := t'[i]] && InUse(t'[i]) && Holds(t'[i], f)
    ensures FirstOnPath(t', f, i)
  {
    var k: nat :| k < LIST_SIZE && i == Slot(Hash(f), k) && Passed(t, f, Hash(f), k);
    assert Passed(t', f, Hash(f), k);
    hide Slot, Hash;
  }

  /** A look-up that meets the file's own slot first cannot fail, and stops there. */
  lemma SharedSlot(t: seq<Entry>, f: File, i: nat, r: Option<nat>)
    requires |t| == LIST_SIZE && i < LIST_SIZE && FirstOnPath(t, f, i) && InUse(t[i])
    requires r.None? ==> exists j: nat :: j < LIST_SIZE && FirstOnPath(t, f, j) && !InUse(t[j])
    requires r.Some? ==> r.value < LIST_SIZE && FirstOnPath(t, f, r.value)
    ensures r == Some(i)
  {
    forall j: nat | j < LIST_SIZE && FirstOnPath(t, f, j) ensures j == i { OneSlotOnPath(t, f, i, j); }
    hide FirstOnPath;
  }

  /** After a release it may be mapped twice: a slot that was released before its own on the path stops
      the probe, and the file is mapped there again. */
  method MapsTwice() returns (cache: Cache, first: nat, second: nat)
    ensures cache.Valid() && first != second && first < LIST_SIZE && second < LIST_SIZE
    ensures var a, b := cache.list[first], cache.list[second];
      && InUse(a) && InUse(b) && a.dev == b.dev && a.ino == b.ino && a.len == b.len
      && a.address in cache.kernel.live && b.address in cache.kernel.live && a.address != b.address
  {
    hide Cache.Valid, FirstOnPath;
    cache := new Cache();
    SecondSlot(cache.list[..]);
    var a := MapNew(cache, File(0, 0, 1), 0, 1);
    SecondSlot(cache.list[..]);
    first := MapNew(cache, File(1, 0, 1), 1, 2);
    cache.Release(Some(a));
    SecondSlot(cache.list[..]);
    second := MapNew(cache, File(1, 0, 1), 0, 3);
  }

  /** Where the probe for two files with the same hash stops. */
  lemma SecondSlot(t: seq<Entry>)
    requires |t| == LIST_SIZE
    ensures !InUse(t[0]) ==> FirstOnPath(t, File(0, 0, 1), 0) && FirstOnPath(t, File(1, 0, 1), 0)
    ensures InUse(t[0]) && t[0].dev == 0 && !InUse(t[1]) ==> FirstOnPath(t, File(1, 0, 1), 1)
  {
    assert Slot(0, 0) == 0 && Slot(0, 1) == 1;
    if !InUse(t[0]) {
      StopsAt(t, File(0, 0, 1), 0, 0);
      StopsAt(t, File(1, 0, 1), 0, 0);
    } else if t[0].dev == 0 && !InUse(t[1]) {
      StopsAt(t, File(1, 0, 1), 1, 1);
    }
  }

  /** A look-up that maps the file into slot `i`, at an address that is free. */
  method MapNew(cache: Cache, f: File, i: nat, address: int) returns (r: nat)
    requires cache.Valid() && i < LIST_SIZE == cache.list.Length && FirstOnPath(cache.list[..], f, i)
    requires !InUse(cache.list[i]) && cache.entriesUsed <= USE_MAX && address != -1 && address !in cache.kernel.live
    modifies cache, cache.list, cache.kernel
    ensures cache.Valid() && r == i
    ensures cache.list[..] == old(cache.list[..])[i := Entry(f.dev, f.ino, f.len, address, 1)]
    ensures cache.kernel.live == old(cache.kernel.live) + {address} && cache.entriesUsed == old(cache.entriesUsed) + 1
    ensures cache.handles == old(cache.handles) + multiset{i}
  {
    forall j: nat | j < LIST_SIZE && FirstOnPath(cache.list[..], f, j) ensures j == i {
      OneSlotOnPath(cache.list[..], f, i, j);
    }
    hide FirstOnPath, Cache.Valid;
    cache.kernel.next := address;
    var found := cache.Find(f);
    r := found.value;
  }
}
