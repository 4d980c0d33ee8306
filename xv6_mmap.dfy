// Memory-mapped regions in the xv6 kernel: file-descriptor allocation,
// the mmap and munmap system calls, and the page-fault handler that fills
// regions in lazily and grows MAP_GROWSUP regions one guard page at a time.
// Page tables are the set of page addresses the process has mapped;
// physical memory, file reads and writes, and locks are outside the model.

module Xv6Mmap {
  import opened Wrappers

  const PGSIZE: nat := 4096
  const KERNBASE: nat := 0x8000_0000
  const MMAP_BASE: nat := 0x6000_0000
  /** Open files per process (param.h is not part of this model; xv6 uses 16). */
  const NOFILE: nat := 16
  const U32_LIMIT: nat := 0x1_0000_0000

  /** A 32-bit unsigned machine word. */
  type U32 = x: int | 0 <= x < 0x1_0000_0000

  const MAP_PRIVATE: bv32 := 0x0001
  const MAP_SHARED: bv32 := 0x0002
  const MAP_ANONYMOUS: bv32 := 0x0004
  const MAP_FIXED: bv32 := 0x0008
  const MAP_GROWSUP: bv32 := 0x0010

  predicate HasFlag(flags: bv32, bit: bv32)
  {
    flags & bit != 0
  }

  /** PGROUNDDOWN. */
  function RoundDown(a: nat): (r: nat)
    ensures r <= a < r + PGSIZE && r % PGSIZE == 0
  {
    (a / PGSIZE) * PGSIZE
  }

  /** PGROUNDUP, on unbounded integers. */
  function RoundUp(a: nat): (r: nat)
    ensures a <= r < a + PGSIZE && r % PGSIZE == 0
  {
    RoundDown(a + PGSIZE - 1)
  }

  /** The end of a region of `length` bytes at `addr`, with a guard page for GROWSUP. */
  function End(addr: nat, length: nat, growsUp: bool): (e: nat)
    ensures e % PGSIZE == 0
    ensures var guard := if growsUp then PGSIZE else 0;
      addr + length + guard <= e < addr + length + guard + PGSIZE
  {
    RoundUp(addr + length) + (if growsUp then PGSIZE else 0)
  }

  // ---------------------------------------------------------------------
  // Regions and the per-process region table.
  // ---------------------------------------------------------------------

  datatype FileRef = FileRef(id: nat)

  /** struct mmap. */
  datatype Region = Region(valid: bool, prot: bv32, flags: bv32, length: int, start: int, end: int,
                           fd: int, file: Option<FileRef>, refcount: int)

  /** A slot cleared with memset. */
  const EMPTY: Region := Region(false, 0, 0, 0, 0, 0, 0, None, 0)

  predicate Overlap(s1: int, e1: int, s2: int, e2: int)
  {
    s1 < e2 && s2 < e1
  }

  /** A valid region lies in [MMAP_BASE, KERNBASE) and is not empty. */
  predicate WellFormed(r: Region)
  {
    r.valid ==> MMAP_BASE <= r.start < r.end <= KERNBASE && 0 < r.length
  }

  predicate Disjoint(rs: seq<Region>)
  {
    forall i, j :: 0 <= i < |rs| && 0 <= j < |rs| && i != j && rs[i].valid && rs[j].valid ==>
      !Overlap(rs[i].start, rs[i].end, rs[j].start, rs[j].end)
  }

  predicate RegionsOk(rs: seq<Region>)
  {
    (forall i :: 0 <= i < |rs| ==> WellFormed(rs[i])) && Disjoint(rs)
  }

  /** The first region from index `k` on that satisfies `p`. */
  function FirstWhere(rs: seq<Region>, p: Region -> bool, k: nat): (r: Option<nat>)
    ensures r.Some? ==> k <= r.value < |rs| && p(rs[r.value])
    ensures r.Some? ==> forall m :: k <= m < r.value ==> !p(rs[m])
    ensures r.None? ==> forall m :: k <= m < |rs| ==> !p(rs[m])
    decreases |rs| - k
  {
    if k >= |rs| then None else if p(rs[k]) then Some(k) else FirstWhere(rs, p, k + 1)
  }

  function IsFree(): Region -> bool
  {
    (r: Region) => !r.valid
  }

  /** The region holds `a`: `start <= a < end`. */
  function Holds(a: int): Region -> bool
  {
    (r: Region) => r.valid && r.start <= a < r.end
  }

  /** The region starts in [addr, end). */
  function StartsIn(addr: int, end: int): Region -> bool
  {
    (r: Region) => r.valid && addr <= r.start < end
  }

  /** The three overlap cases sys_mmap tests a MAP_FIXED request against. */
  predicate ThreeCases(r: Region, addr: int, end: int)
  {
    (r.start >= addr && r.start < end)
    || (r.end > addr && r.end <= end)
    || (r.start <= addr && r.end > end)
  }

  /** For a non-empty region and request, the three cases together are exactly overlap. */
  lemma ThreeCasesIff(r: Region, addr: int, end: int)
    requires r.start < r.end && addr < end
    ensures ThreeCases(r, addr, end) <==> Overlap(r.start, r.end, addr, end)
  {
  }

  /** No valid region has `a` strictly inside it. */
  predicate NoStraddle(rs: seq<Region>, a: int)
  {
    forall m :: 0 <= m < |rs| && rs[m].valid ==> !(rs[m].start < a < rs[m].end)
  }

  /** The end of a region is never strictly inside another, disjoint one. */
  lemma EndNotStraddled(rs: seq<Region>, j: nat)
    requires RegionsOk(rs) && j < |rs| && rs[j].valid
    ensures NoStraddle(rs, rs[j].end)
  {
    forall m | 0 <= m < |rs| && rs[m].valid
      ensures !(rs[m].start < rs[j].end < rs[m].end)
    {
      if m != j {
        assert !Overlap(rs[m].start, rs[m].end, rs[j].start, rs[j].end);
        assert WellFormed(rs[j]);
      }
    }
  }

  /** A window that no region straddles at its start and no region starts in meets no region. */
  lemma WindowFree(rs: seq<Region>, addr: int, end: int)
    requires NoStraddle(rs, addr)
    requires FirstWhere(rs, StartsIn(addr, end), 0).None?
    ensures forall m :: 0 <= m < |rs| && rs[m].valid ==> !Overlap(rs[m].start, rs[m].end, addr, end)
  {
    forall m | 0 <= m < |rs| && rs[m].valid
      ensures !Overlap(rs[m].start, rs[m].end, addr, end)
    {
      assert !StartsIn(addr, end)(rs[m]);
    }
  }

  /** A new valid region that overlaps none of the others keeps the table disjoint. */
  lemma InsertKeepsOk(rs: seq<Region>, s: nat, r: Region)
    requires RegionsOk(rs) && s < |rs| && WellFormed(r)
    requires forall m :: 0 <= m < |rs| && m != s && rs[m].valid ==> !Overlap(rs[m].start, rs[m].end, r.start, r.end)
    ensures RegionsOk(rs[s := r])
  {
  }

  // ---------------------------------------------------------------------
  // MAP_FIXED placement, as written and as intended.
  // ---------------------------------------------------------------------

  /** The end sys_mmap computes in 32-bit unsigned arithmetic, which can wrap. */
  function EndAsWritten(addr: U32, length: nat, growsUp: bool): U32
  {
    var e := RoundDown((addr + length) % U32_LIMIT + PGSIZE - 1) % U32_LIMIT;
    if growsUp then (e + PGSIZE) % U32_LIMIT else e
  }

  /** The MAP_FIXED acceptance test as written, on the wrapped end. */
  predicate FixedAcceptsAsWritten(rs: seq<Region>, addr: U32, length: nat, growsUp: bool)
  {
    var end := EndAsWritten(addr, length, growsUp);
    MMAP_BASE <= addr < KERNBASE && end < KERNBASE
    && forall m :: 0 <= m < |rs| && rs[m].valid ==> !ThreeCases(rs[m], addr, end)
  }

  /** The MAP_FIXED acceptance test on the true end. */
  predicate FixedAccepts(rs: seq<Region>, addr: nat, length: nat, growsUp: bool)
  {
    var end := End(addr, length, growsUp);
    MMAP_BASE <= addr < KERNBASE && end < KERNBASE
    && forall m :: 0 <= m < |rs| && rs[m].valid ==> !ThreeCases(rs[m], addr, end)
  }

  /** As written, a fixed request at 0x7fffffff of 0x7fffffff bytes wraps its end to 0 and is accepted. */
  lemma FixedWrapAccepted(rs: seq<Region>)
    requires forall m :: 0 <= m < |rs| ==> !rs[m].valid
    ensures EndAsWritten(0x7fff_ffff, 0x7fff_ffff, false) == 0
    ensures FixedAcceptsAsWritten(rs, 0x7fff_ffff, 0x7fff_ffff, false)
    ensures !WellFormed(Region(true, 0, MAP_FIXED | MAP_PRIVATE | MAP_ANONYMOUS, 0x7fff_ffff, 0x7fff_ffff,
                               EndAsWritten(0x7fff_ffff, 0x7fff_ffff, false), -1, None, 1))
  {
  }

  /** On the true end the same request is refused. */
  lemma FixedWrapRefused(rs: seq<Region>)
    ensures !FixedAccepts(rs, 0x7fff_ffff, 0x7fff_ffff, false)
  {
  }

  /** A request the corrected test accepts is a non-empty region below KERNBASE that meets no region. */
  lemma FixedAcceptsSound(rs: seq<Region>, addr: nat, length: nat, growsUp: bool)
    requires RegionsOk(rs) && length > 0 && FixedAccepts(rs, addr, length, growsUp)
    ensures MMAP_BASE <= addr < End(addr, length, growsUp) < KERNBASE
    ensures forall m :: 0 <= m < |rs| && rs[m].valid ==>
      !Overlap(rs[m].start, rs[m].end, addr, End(addr, length, growsUp))
  {
    forall m | 0 <= m < |rs| && rs[m].valid
      ensures !Overlap(rs[m].start, rs[m].end, addr, End(addr, length, growsUp))
    {
      assert WellFormed(rs[m]);
      ThreeCasesIff(rs[m], addr, End(addr, length, growsUp));
    }
  }

  /** Away from the top of the address space the wrapped and the true end agree. */
  lemma EndNoWrap(addr: U32, length: nat, growsUp: bool)
    requires addr + length + 2 * PGSIZE <= U32_LIMIT
    ensures EndAsWritten(addr, length, growsUp) == End(addr, length, growsUp)
  {
    var sum := addr + length;
    assert sum % U32_LIMIT == sum;
    var e := RoundDown(sum + PGSIZE - 1);
    assert e < U32_LIMIT - PGSIZE;
    assert e % U32_LIMIT == e;
    assert (e + PGSIZE) % U32_LIMIT == e + PGSIZE;
  }

  /** The first-fit search only runs once the window at MMAP_BASE fits, so its ends never wrap. */
  lemma SearchEndNoWrap(addr: U32, length: nat, growsUp: bool)
    requires End(MMAP_BASE, length, growsUp) < KERNBASE && addr <= KERNBASE
    ensures EndAsWritten(addr, length, growsUp) == End(addr, length, growsUp)
  {
    EndNoWrap(addr, length, growsUp);
  }

  /**
   * The address the first-fit search settles on, starting from `addr`: the window
   * [addr, End) is taken when no region starts inside it; otherwise the search
   * retries at the end of the first region (in slot order) that does, and gives up
   * once the window reaches KERNBASE.
   */
  function FirstFit(rs: seq<Region>, addr: nat, length: nat, growsUp: bool): (r: Option<nat>)
    requires forall m :: 0 <= m < |rs| ==> WellFormed(rs[m])
    requires addr <= KERNBASE
    ensures r.Some? ==> addr <= r.value && End(r.value, length, growsUp) < KERNBASE
    ensures r.Some? ==> FirstWhere(rs, StartsIn(r.value, End(r.value, length, growsUp)), 0).None?
    decreases KERNBASE - addr
  {
    var end := End(addr, length, growsUp);
    if KERNBASE <= end then None
    else match FirstWhere(rs, StartsIn(addr, end), 0)
      case None => Some(addr)
      case Some(j) =>
        assert WellFormed(rs[j]);
        FirstFit(rs, rs[j].end, length, growsUp)
  }

  // ---------------------------------------------------------------------
  // Guard-page growth, as written and as intended.
  // ---------------------------------------------------------------------

  /** The region after its guard page has been taken in and a new one added. */
  function Grown(r: Region): Region
  {
    r.(length := r.length + PGSIZE, end := r.end + PGSIZE)
  }

  /** The growth test as written: the fault is in the guard page and no region starts exactly at end_addr. */
  predicate GuardAllowedAsWritten(rs: seq<Region>, i: nat, fault: int)
    requires i < |rs|
  {
    fault >= rs[i].end - PGSIZE
    && forall m :: 0 <= m < |rs| && rs[m].valid ==> rs[m].start != rs[i].end
  }

  /** The growth test as intended: the new guard page lies below KERNBASE and meets no region. */
  predicate GuardAllowed(rs: seq<Region>, i: nat, fault: int)
    requires i < |rs|
  {
    fault >= rs[i].end - PGSIZE && rs[i].end + PGSIZE <= KERNBASE
    && forall m :: 0 <= m < |rs| && rs[m].valid ==> !Overlap(rs[m].start, rs[m].end, rs[i].end, rs[i].end + PGSIZE)
  }

  /** As written, a region starting one byte past end_addr does not stop growth, and the grown region overlaps it. */
  lemma GuardOverlapAsWritten()
    ensures var a := Region(true, 0, MAP_PRIVATE | MAP_ANONYMOUS | MAP_GROWSUP, 0x1000, 0x6000_0000, 0x6000_2000, -1, None, 1);
      var b := Region(true, 0, MAP_PRIVATE | MAP_ANONYMOUS | MAP_FIXED, 1, 0x6000_2001, 0x6000_3000, -1, None, 1);
      RegionsOk([a, b]) && GuardAllowedAsWritten([a, b], 0, 0x6000_1800)
      && !RegionsOk([Grown(a), b])
  {
    var a := Region(true, 0, MAP_PRIVATE | MAP_ANONYMOUS | MAP_GROWSUP, 0x1000, 0x6000_0000, 0x6000_2000, -1, None, 1);
    var b := Region(true, 0, MAP_PRIVATE | MAP_ANONYMOUS | MAP_FIXED, 1, 0x6000_2001, 0x6000_3000, -1, None, 1);
    assert [Grown(a), b][0] == Grown(a) && [Grown(a), b][1] == b;
    assert Overlap(Grown(a).start, Grown(a).end, b.start, b.end);
  }

  /** As written, a region ending at KERNBASE grows past it. */
  lemma GuardPastKernbaseAsWritten()
    ensures var a := Region(true, 0, MAP_PRIVATE | MAP_ANONYMOUS | MAP_GROWSUP, 0x1000, 0x7fff_e000, 0x8000_0000, -1, None, 1);
      RegionsOk([a]) && GuardAllowedAsWritten([a], 0, 0x7fff_f000) && !RegionsOk([Grown(a)])
  {
    var a := Region(true, 0, MAP_PRIVATE | MAP_ANONYMOUS | MAP_GROWSUP, 0x1000, 0x7fff_e000, 0x8000_0000, -1, None, 1);
    assert [Grown(a)][0] == Grown(a);
  }

  /** Growth the intended test allows keeps every region in bounds and all regions disjoint. */
  lemma GrowthKeepsOk(rs: seq<Region>, i: nat, fault: int)
    requires RegionsOk(rs) && i < |rs| && rs[i].valid && GuardAllowed(rs, i, fault)
    ensures RegionsOk(rs[i := Grown(rs[i])])
  {
    var t := rs[i := Grown(rs[i])];
    forall a, b | 0 <= a < |t| && 0 <= b < |t| && a != b && t[a].valid && t[b].valid
      ensures !Overlap(t[a].start, t[a].end, t[b].start, t[b].end)
    {
      if a == i {
        assert !Overlap(rs[b].start, rs[b].end, rs[i].end, rs[i].end + PGSIZE);
        assert !Overlap(rs[i].start, rs[i].end, rs[b].start, rs[b].end);
      } else if b == i {
        assert !Overlap(rs[a].start, rs[a].end, rs[i].end, rs[i].end + PGSIZE);
        assert !Overlap(rs[a].start, rs[a].end, rs[i].start, rs[i].end);
      }
    }
  }

  // ---------------------------------------------------------------------
  // Pages.
  // ---------------------------------------------------------------------

  /** The first `n` pages alloc_mem maps when it starts at `start`. */
  function PagesFrom(start: nat, n: nat): set<int>
  {
    set k | 0 <= k < n :: RoundDown(start) + k * PGSIZE
  }

  /** How many pages alloc_mem maps for [start, end). */
  function Steps(start: nat, end: nat): nat
  {
    if end <= start then 0 else (end - start + PGSIZE - 1) / PGSIZE
  }

  lemma RoundDownShift(start: nat, k: nat)
    ensures RoundDown(start + k * PGSIZE) == RoundDown(start) + k * PGSIZE
  {
    assert (start + k * PGSIZE) / PGSIZE == start / PGSIZE + k;
  }

  lemma PagesFromNext(start: nat, k: nat)
    ensures PagesFrom(start, k + 1) == PagesFrom(start, k) + {RoundDown(start) + k * PGSIZE}
  {
    var x := RoundDown(start) + k * PGSIZE;
    assert x in PagesFrom(start, k + 1);
  }

  lemma StepsAt(start: nat, end: nat, k: nat)
    requires start + k * PGSIZE >= end
    requires k == 0 || start + (k - 1) * PGSIZE < end
    ensures k == Steps(start, end)
  {
    if k > 0 {
      assert end - start + PGSIZE - 1 >= (k - 1) * PGSIZE + PGSIZE;
      assert end - start + PGSIZE - 1 < k * PGSIZE + PGSIZE;
    }
  }

  // ---------------------------------------------------------------------
  // The process.
  // ---------------------------------------------------------------------

  datatype FaultOutcome = Killed | LazilyAllocated(readsFile: bool) | Grew

  class Proc {
    var ofile: array<Option<FileRef>>
    var mmaps: array<Region>
    /** The page addresses that have page-table entries. */
    var mapped: set<int>
    var killed: bool

    ghost predicate Valid()
      reads this, ofile, mmaps
    {
      ofile.Length == NOFILE && RegionsOk(mmaps[..])
    }

    /** A fresh process with `nMmaps` region slots, no files and no mappings. */
    constructor (nMmaps: nat)
      ensures Valid() && fresh(ofile) && fresh(mmaps) && mmaps.Length == nMmaps
      ensures forall k :: 0 <= k < NOFILE ==> ofile[k] == None
      ensures forall k :: 0 <= k < nMmaps ==> mmaps[k] == EMPTY
      ensures mapped == {} && !killed
    {
      ofile := new Option<FileRef>[NOFILE](_ => None);
      mmaps := new Region[nMmaps](_ => EMPTY);
      mapped := {};
      killed := false;
    }

    /** argfd: the open file behind descriptor `fd`, if any. */
    function ArgFd(fd: int): (f: Option<FileRef>)
      reads this, ofile
      requires ofile.Length == NOFILE
      ensures f.Some? <==> 0 <= fd < NOFILE && ofile[fd].Some?
      ensures f.Some? ==> f == ofile[fd]
    {
      if fd < 0 || fd >= NOFILE then None else ofile[fd]
    }

    /** fdalloc: installs `f` at the lowest free descriptor, or reports -1 and changes nothing. */
    method FdAlloc(f: FileRef) returns (fd: int)
      requires Valid()
      modifies ofile
      ensures Valid()
      ensures -1 <= fd < NOFILE
      ensures fd == -1 <==> forall k :: 0 <= k < NOFILE ==> old(ofile[k]).Some?
      ensures fd == -1 ==> ofile[..] == old(ofile[..])
      ensures fd >= 0 ==> (
        old(ofile[fd]).None? && (forall k :: 0 <= k < fd ==> old(ofile[k]).Some?)
        && ofile[..] == old(ofile[..])[fd := Some(f)])
      ensures fd >= 0 ==> ArgFd(fd) == Some(f)
    {
      fd := 0;
      while fd < NOFILE
        invariant 0 <= fd <= NOFILE
        invariant forall k :: 0 <= k < fd ==> ofile[k].Some?
      {
        if ofile[fd].None? {
          ofile[fd] := Some(f);
          return;
        }
        fd := fd + 1;
      }
      return -1;
    }

    /** The descriptor part of sys_pipe: two descriptors, or none, the first released if the second fails. */
    method Pipe(rf: FileRef, wf: FileRef) returns (r: int, fd0: int, fd1: int)
      requires Valid()
      modifies ofile
      ensures Valid()
      ensures r == -1 ==> ofile[..] == old(ofile[..])
      ensures r == 0 ==> (
        0 <= fd0 < NOFILE && 0 <= fd1 < NOFILE && fd0 != fd1
        && ofile[..] == old(ofile[..])[fd0 := Some(rf)][fd1 := Some(wf)])
      ensures r == 0 || r == -1
      ensures r == 0 <==> TwoFree(old(ofile[..]))
    {
      fd1 := -1;
      fd0 := FdAlloc(rf);
      if fd0 >= 0 {
        fd1 := FdAlloc(wf);
      }
      if fd0 < 0 || fd1 < 0 {
        if fd0 >= 0 {
          ofile[fd0] := None;
          assert ofile[..] == old(ofile[..]);
        }
        return -1, fd0, fd1;
      }
      assert old(ofile[..])[fd0].None? && old(ofile[..])[fd1].None?;
      return 0, fd0, fd1;
    }

    /** sys_mmap: validates the request, places it, and records it in the first free slot. */
    method Mmap(addrArg: U32, length: int, prot: bv32, flags: bv32, fd: int) returns (r: int)
      requires Valid() && length < 0x8000_0000
      modifies mmaps
      ensures Valid()
      ensures r == -1 ==> mmaps[..] == old(mmaps[..])
      ensures (length <= 0 || HasFlag(flags, MAP_PRIVATE) == HasFlag(flags, MAP_SHARED)
               || (!HasFlag(flags, MAP_ANONYMOUS) && fd < 0)
               || FirstWhere(old(mmaps[..]), IsFree(), 0).None?) ==> r == -1
      ensures HasFlag(flags, MAP_FIXED) && r != -1 ==> r == addrArg
      ensures !HasFlag(flags, MAP_FIXED) && r != -1 ==>
        FirstFit(old(mmaps[..]), MMAP_BASE, length, HasFlag(flags, MAP_GROWSUP)) == Some(r)
      ensures r != -1 <==>
        length > 0 && HasFlag(flags, MAP_PRIVATE) != HasFlag(flags, MAP_SHARED)
        && (HasFlag(flags, MAP_ANONYMOUS) || ArgFd(fd).Some?)
        && FirstWhere(old(mmaps[..]), IsFree(), 0).Some?
        && (if HasFlag(flags, MAP_FIXED) then FixedAccepts(old(mmaps[..]), addrArg, length, HasFlag(flags, MAP_GROWSUP))
            else FirstFit(old(mmaps[..]), MMAP_BASE, length, HasFlag(flags, MAP_GROWSUP)).Some?)
      ensures (HasFlag(flags, MAP_FIXED) && length > 0
               && !FixedAccepts(old(mmaps[..]), addrArg, length, HasFlag(flags, MAP_GROWSUP))) ==> r == -1
      ensures r != -1 ==> (
        length > 0 && MMAP_BASE <= r && FirstWhere(old(mmaps[..]), IsFree(), 0).Some?
        && var end := End(r, length, HasFlag(flags, MAP_GROWSUP));
           var s := FirstWhere(old(mmaps[..]), IsFree(), 0).value;
           end < KERNBASE
           && (forall m :: 0 <= m < mmaps.Length && old(mmaps[m]).valid ==>
                 !Overlap(old(mmaps[m]).start, old(mmaps[m]).end, r, end))
           && mmaps[..] == old(mmaps[..])[s := Region(true, prot, flags, length, r, end, fd,
                                              if HasFlag(flags, MAP_ANONYMOUS) then None else ArgFd(fd), 1)])
    {
      if length <= 0 {
        return -1;
      }
      if HasFlag(flags, MAP_PRIVATE) == HasFlag(flags, MAP_SHARED) {
        return -1;
      }
      if !HasFlag(flags, MAP_ANONYMOUS) && fd < 0 {
        return -1;
      }
      ghost var rs := mmaps[..];
      var slot := FindSlot(IsFree());
      if slot.None? {
        return -1;
      }
      var growsUp := HasFlag(flags, MAP_GROWSUP);
      var addr: nat;
      if HasFlag(flags, MAP_FIXED) {
        var ok := FixedFree(addrArg, length, growsUp);
        if !ok {
          return -1;
        }
        addr := addrArg;
        FixedAcceptsSound(rs, addr, length, growsUp);
      } else {
        var found;
        found, addr := SearchSpace(length, growsUp);
        if !found {
          return -1;
        }
      }
      var end := End(addr, length, growsUp);
      var file: Option<FileRef> := None;
      if !HasFlag(flags, MAP_ANONYMOUS) {
        file := ArgFd(fd);
        if file.None? {
          return -1;
        }
      }
      var region := Region(true, prot, flags, length, addr, end, fd, file, 1);
      InsertKeepsOk(rs, slot.value, region);
      mmaps[slot.value] := region;
      r := addr;
    }

    /** The first slot satisfying `p`, scanning the table in order. */
    method FindSlot(p: Region -> bool) returns (slot: Option<nat>)
      ensures slot == FirstWhere(mmaps[..], p, 0)
    {
      var k := 0;
      while k < mmaps.Length
        invariant k <= mmaps.Length
        invariant FirstWhere(mmaps[..], p, 0) == FirstWhere(mmaps[..], p, k)
      {
        if p(mmaps[k]) {
          return Some(k);
        }
        k := k + 1;
      }
      return None;
    }

    /** The MAP_FIXED checks: the bounds, then the three overlap cases against every valid region. */
    method FixedFree(addr: U32, length: nat, growsUp: bool) returns (ok: bool)
      ensures ok == FixedAccepts(mmaps[..], addr, length, growsUp)
    {
      if MMAP_BASE > addr || KERNBASE <= addr {
        return false;
      }
      var end := End(addr, length, growsUp);
      if KERNBASE <= end {
        return false;
      }
      var k := 0;
      while k < mmaps.Length
        invariant k <= mmaps.Length
        invariant forall m :: 0 <= m < k && mmaps[m].valid ==> !ThreeCases(mmaps[m], addr, end)
      {
        if mmaps[k].valid && ThreeCases(mmaps[k], addr, end) {
          return false;
        }
        k := k + 1;
      }
      return true;
    }

    /** The first-fit search: from MMAP_BASE, skip past any region that starts in the window. */
    method SearchSpace(length: nat, growsUp: bool) returns (found: bool, addr: nat)
      requires Valid() && length > 0
      ensures found ==> MMAP_BASE <= addr && End(addr, length, growsUp) < KERNBASE
      ensures found ==> forall m :: 0 <= m < mmaps.Length && mmaps[m].valid ==>
        !Overlap(mmaps[m].start, mmaps[m].end, addr, End(addr, length, growsUp))
      ensures found ==> addr == MMAP_BASE || exists m :: 0 <= m < mmaps.Length && mmaps[m].valid && mmaps[m].end == addr
      ensures found == FirstFit(mmaps[..], MMAP_BASE, length, growsUp).Some?
      ensures found ==> addr == FirstFit(mmaps[..], MMAP_BASE, length, growsUp).value
    {
      ghost var rs := mmaps[..];
      addr := MMAP_BASE;
      var end := End(addr, length, growsUp);
      if KERNBASE <= end {
        return false, addr;
      }
      assert NoStraddle(rs, addr) by {
        forall m | 0 <= m < |rs| && rs[m].valid ensures !(rs[m].start < addr < rs[m].end) {
          assert WellFormed(rs[m]);
        }
      }
      while end < KERNBASE
        invariant MMAP_BASE <= addr <= KERNBASE && end == End(addr, length, growsUp)
        invariant NoStraddle(rs, addr)
        invariant addr == MMAP_BASE || exists m :: 0 <= m < |rs| && rs[m].valid && rs[m].end == addr
        invariant FirstFit(rs, addr, length, growsUp) == FirstFit(rs, MMAP_BASE, length, growsUp)
        decreases KERNBASE - addr
      {
        var j := FindSlot(StartsIn(addr, end));
        if j.None? {
          WindowFree(rs, addr, end);
          return true, addr;
        }
        assert WellFormed(rs[j.value]);
        EndNotStraddled(rs, j.value);
        addr := mmaps[j.value].end;
        end := End(addr, length, growsUp);
      }
      return false, addr;
    }

    /** sys_munmap: finds the region holding `addr`, writes a shared file mapping back, frees its pages and clears the slot. */
    method Munmap(addr: U32, length: int, writeBackOk: bool) returns (r: int)
      requires Valid()
      modifies this, mmaps
      ensures Valid() && ofile == old(ofile) && mmaps == old(mmaps) && killed == old(killed)
      ensures (length <= 0 || addr < MMAP_BASE || addr >= KERNBASE
               || FirstWhere(old(mmaps[..]), Holds(addr), 0).None?) ==> r == -1
      ensures r == -1 ==> mmaps[..] == old(mmaps[..]) && mapped == old(mapped)
      ensures r != -1 ==> (
        r == 0 && FirstWhere(old(mmaps[..]), Holds(addr), 0).Some?
        && var i := FirstWhere(old(mmaps[..]), Holds(addr), 0).value;
           var reg := old(mmaps[..])[i];
           var from := RoundDown(reg.start);
           mmaps[..] == old(mmaps[..])[i := EMPTY]
           && mapped == old(mapped) - PagesFrom(from, Steps(from, RoundUp(from + reg.length))))
      ensures (FirstWhere(old(mmaps[..]), Holds(addr), 0).Some? && length > 0 && MMAP_BASE <= addr < KERNBASE) ==> (
        var reg := old(mmaps[..])[FirstWhere(old(mmaps[..]), Holds(addr), 0).value];
        r == 0 <==> HasFlag(reg.flags, MAP_ANONYMOUS) || HasFlag(reg.flags, MAP_PRIVATE) || (reg.file.Some? && writeBackOk))
    {
      if length <= 0 || addr < MMAP_BASE || addr >= KERNBASE {
        return -1;
      }
      var i := FindSlot(Holds(addr));
      if i.None? {
        return -1;
      }
      var reg := mmaps[i.value];
      if !(HasFlag(reg.flags, MAP_ANONYMOUS) || HasFlag(reg.flags, MAP_PRIVATE)) {
        if reg.file.None? || !writeBackOk {
          return -1;
        }
      }
      Release(i.value);
      r := 0;
    }

    /** The freeing half of sys_munmap: unmaps the region's pages and clears its slot. */
    method Release(i: nat)
      requires Valid() && i < mmaps.Length && mmaps[i].valid
      modifies this`mapped, mmaps
      ensures Valid()
      ensures var from := RoundDown(old(mmaps[i]).start);
        mmaps[..] == old(mmaps[..])[i := EMPTY]
        && mapped == old(mapped) - PagesFrom(from, Steps(from, RoundUp(from + old(mmaps[i]).length)))
    {
      assert WellFormed(mmaps[..][i]);
      var reg := mmaps[i];
      var from := RoundDown(reg.start);
      var to := RoundUp(from + reg.length);
      mapped := mapped - PagesFrom(from, Steps(from, to));
      mmaps[i] := EMPTY;
    }

    /** alloc_mem: maps pages from `start` up to `end`, one per PGSIZE step, until `budget` pages run out. */
    method AllocMem(start: nat, end: nat, budget: nat) returns (r: int)
      requires end <= KERNBASE
      modifies this`mapped
      ensures r == 0 || r == -1
      ensures r == 0 <==> Steps(start, end) <= budget
      ensures r == 0 ==> mapped == old(mapped) + PagesFrom(start, Steps(start, end))
      ensures r == -1 ==> mapped == old(mapped) + PagesFrom(start, budget)
    {
      var a := start;
      var k := 0;
      while a < end
        invariant a == start + k * PGSIZE && k <= budget
        invariant k == 0 || start + (k - 1) * PGSIZE < end
        invariant mapped == old(mapped) + PagesFrom(start, k)
        decreases end - a
      {
        if k == budget {
          assert Steps(start, end) > k by {
            assert end - start + PGSIZE - 1 >= k * PGSIZE + PGSIZE;
          }
          return -1;
        }
        RoundDownShift(start, k);
        PagesFromNext(start, k);
        mapped := mapped + {RoundDown(a)};
        a := a + PGSIZE;
        k := k + 1;
      }
      StepsAt(start, end, k);
      return 0;
    }

    /** The T_PGFLT case of trap: lazy allocation, guard-page growth, or a segmentation fault. */
    method PageFault(fault: U32, budget: nat) returns (outcome: FaultOutcome)
      requires Valid()
      modifies this, mmaps
      ensures Valid() && ofile == old(ofile) && mmaps == old(mmaps)
      ensures killed == (old(killed) || outcome == Killed)
      ensures outcome != Grew ==> mmaps[..] == old(mmaps[..])
      ensures FirstWhere(old(mmaps[..]), Holds(fault), 0).None? ==> outcome == Killed && mapped == old(mapped)
      ensures FirstWhere(old(mmaps[..]), Holds(fault), 0).Some? ==>
        var i := FirstWhere(old(mmaps[..]), Holds(fault), 0).value;
        var reg := old(mmaps[i]);
        var growsUp := HasFlag(reg.flags, MAP_GROWSUP);
        if RoundDown(reg.start) !in old(mapped) then
          var top := reg.end - (if growsUp then PGSIZE else 0);
          (outcome.LazilyAllocated? <==> Steps(reg.start, top) <= budget)
          && (outcome.LazilyAllocated? ==> (
                outcome.readsFile == !HasFlag(reg.flags, MAP_ANONYMOUS)
                && mapped == old(mapped) + PagesFrom(reg.start, Steps(reg.start, top))))
          && (!outcome.LazilyAllocated? ==> outcome == Killed && mapped == old(mapped) + PagesFrom(reg.start, budget))
        else if !growsUp then
          outcome == Killed && mapped == old(mapped)
        else
          (outcome == Grew <==> GuardAllowed(old(mmaps[..]), i, fault) && budget >= 1)
          && (outcome == Grew ==> (
                mmaps[..] == old(mmaps[..])[i := Grown(reg)]
                && mapped == old(mapped) + {RoundDown(fault)}))
          && (outcome != Grew ==> outcome == Killed && mapped == old(mapped))
    {
      ghost var rs := mmaps[..];
      var i := FindSlot(Holds(fault));
      if i.None? {
        killed := true;
        return Killed;
      }
      var reg := mmaps[i.value];
      assert WellFormed(rs[i.value]);
      var growsUp := HasFlag(reg.flags, MAP_GROWSUP);
      if RoundDown(reg.start) !in mapped {
        var ok := MmapAlloc(i.value, budget);
        if ok < 0 {
          killed := true;
          return Killed;
        }
        return LazilyAllocated(!HasFlag(reg.flags, MAP_ANONYMOUS));
      }
      if !growsUp {
        killed := true;
        return Killed;
      }
      var grew := GrowRegion(i.value, fault, budget);
      if !grew {
        killed := true;
        return Killed;
      }
      return Grew;
    }

    /** mmap_alloc: maps the region's pages, leaving a GROWSUP region's guard page out. */
    method MmapAlloc(i: nat, budget: nat) returns (r: int)
      requires Valid() && i < mmaps.Length && mmaps[i].valid
      modifies this`mapped
      ensures r == 0 || r == -1
      ensures var reg := mmaps[i];
        var top := reg.end - (if HasFlag(reg.flags, MAP_GROWSUP) then PGSIZE else 0);
        (r == 0 <==> Steps(reg.start, top) <= budget)
        && mapped == old(mapped) + PagesFrom(reg.start, if r == 0 then Steps(reg.start, top) else budget)
    {
      assert WellFormed(mmaps[..][i]);
      var reg := mmaps[i];
      var top := reg.end - (if HasFlag(reg.flags, MAP_GROWSUP) then PGSIZE else 0);
      r := AllocMem(reg.start, top, budget);
    }

    /** alloc_guard: takes the guard page in and grows the region by one page, if the checks and the allocation succeed. */
    method GrowRegion(i: nat, fault: U32, budget: nat) returns (grew: bool)
      requires Valid() && i < mmaps.Length && mmaps[i].valid && mmaps[i].start <= fault < mmaps[i].end
      modifies this`mapped, mmaps
      ensures Valid()
      ensures grew <==> GuardAllowed(old(mmaps[..]), i, fault) && budget >= 1
      ensures grew ==> mmaps[..] == old(mmaps[..])[i := Grown(old(mmaps[i]))] && mapped == old(mapped) + {RoundDown(fault)}
      ensures !grew ==> mmaps[..] == old(mmaps[..]) && mapped == old(mapped)
    {
      ghost var rs := mmaps[..];
      var allowed := GuardFree(i, fault);
      if !allowed {
        return false;
      }
      var page := RoundDown(fault);
      assert Steps(page, page + PGSIZE) == 1;
      var ok := AllocMem(page, page + PGSIZE, budget);
      if ok < 0 {
        assert PagesFrom(page, 0) == {};
        return false;
      }
      RoundDownShift(page, 0);
      assert PagesFrom(page, 1) == {RoundDown(fault)} by {
        PagesFromNext(page, 0);
      }
      GrowthKeepsOk(rs, i, fault);
      mmaps[i] := Grown(mmaps[i]);
      return true;
    }

    /** The guard-page checks, with the corrected bound and overlap test. */
    method GuardFree(i: nat, fault: int) returns (ok: bool)
      requires i < mmaps.Length
      ensures ok == GuardAllowed(mmaps[..], i, fault)
    {
      var end := mmaps[i].end;
      if !(fault >= end - PGSIZE) || end + PGSIZE > KERNBASE {
        return false;
      }
      var k := 0;
      while k < mmaps.Length
        invariant k <= mmaps.Length
        invariant forall m :: 0 <= m < k && mmaps[m].valid ==> !Overlap(mmaps[m].start, mmaps[m].end, end, end + PGSIZE)
      {
        if mmaps[k].valid && Overlap(mmaps[k].start, mmaps[k].end, end, end + PGSIZE) {
          return false;
        }
        k := k + 1;
      }
      return true;
    }
  }

  /** At least two descriptors are free. */
  predicate TwoFree(s: seq<Option<FileRef>>)
  {
    exists i, j :: 0 <= i < j < |s| && s[i].None? && s[j].None?
  }

  /** The timer tick: only CPU 0 advances the 32-bit tick counter. */
  class Clock {
    var ticks: U32

    constructor ()
      ensures ticks == 0
    {
      ticks := 0;
    }

    method TimerInterrupt(cpu: nat)
      modifies this
      ensures ticks == if cpu == 0 then (old(ticks) + 1) % U32_LIMIT else old(ticks)
    {
      if cpu == 0 {
        ticks := (ticks + 1) % U32_LIMIT;
      }
    }
  }

  /** isdirempty: every directory entry after "." and ".." has inode number 0. */
  method IsDirEmpty(inums: seq<int>) returns (empty: bool)
    ensures empty <==> forall k :: 2 <= k < |inums| ==> inums[k] == 0
  {
    var k := 2;
    while k < |inums|
      invariant 2 <= k
      invariant forall m :: 2 <= m < k && m < |inums| ==> inums[m] == 0
    {
      if inums[k] != 0 {
        return false;
      }
      k := k + 1;
    }
    return true;
  }
}
