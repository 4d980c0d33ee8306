// The WFS log and its in-memory index.  The disk image is a superblock
// followed by log entries; the model keeps, for each entry, where it lies,
// which inode it is for, whether it marks that inode deleted and how many
// data bytes follow its inode.  The I-Table maps each inode number to the
// offset of its latest entry and is rebuilt by replaying the log.

module WfsLog {
  import opened Wrappers

  const MAX_FILE_NAME_LEN: nat := 32
  const MAX_DISK_FILE_SIZE: nat := 1048576
  const WFS_MAGIC: bv32 := 0xdeadbeef
  const WFS_INODE_INTACT: nat := 0
  const WFS_INODE_DELETED: nat := 1
  const WFS_IGNORED_FIELD: nat := 0
  const WFS_N_HARD_LINKS: nat := 1
  const ITABLE_CAPACITY_INCREMENT: nat := 10

  /** sizeof(struct wfs_sb): two 32-bit words. */
  const SB_SIZE: nat := 8
  /** sizeof(struct wfs_inode), which is also sizeof(struct wfs_log_entry): eleven 32-bit words. */
  const INODE_SIZE: nat := 44
  /** sizeof(struct wfs_dentry): a 32-byte name and an 8-byte inode number. */
  const DENTRY_SIZE: nat := 40
  const WFS_INIT_ROOT_OFFSET: nat := SB_SIZE
  const WFS_BASE_ENTRY_OFFSET: nat := SB_SIZE + INODE_SIZE

  const ITOPSC: int := 0
  const ITOPFL: int := -1
  const EITWNB: int := -2
  const EITWR: int := -3
  const EITWNR: int := -4
  const FSOPSC: int := 0
  const FSOPFL: int := -1
  const ENOSPC: int := 28

  const S_IFMT: bv32 := 0xF000
  const S_IFDIR: bv32 := 0x4000
  const S_IFREG: bv32 := 0x8000
  const FILE_MODE: bv32 := S_IFREG
  const DIRECTORY_MODE: bv32 := S_IFDIR

  predicate IsDir(mode: bv32) { mode & S_IFMT == S_IFDIR }
  predicate IsReg(mode: bv32) { mode & S_IFMT == S_IFREG }

  /** struct wfs_inode. */
  datatype Inode = Inode(number: nat, deleted: nat, mode: bv32, uid: nat, gid: nat, flags: nat,
                         size: nat, atime: nat, mtime: nat, ctime: nat, links: nat)

  /** struct wfs_sb. */
  datatype Superblock = Superblock(magic: bv32, head: nat)

  /** WFS_LOG_ENTRY_SIZE: the inode followed by its data. */
  function EntrySize(inode: Inode): nat
  {
    INODE_SIZE + inode.size
  }

  /** wfs_sb_init: a fresh superblock whose head lies just past an empty root entry at the root offset. */
  function SbInit(): (sb: Superblock)
    ensures sb.magic == WFS_MAGIC
    ensures forall root: Inode :: root.size == 0 ==> sb.head == WFS_INIT_ROOT_OFFSET + EntrySize(root)
  {
    Superblock(WFS_MAGIC, WFS_BASE_ENTRY_OFFSET)
  }

  /** One entry of the log as build_itable reads it. */
  datatype Record = Record(offset: nat, inum: nat, deleted: bool, size: nat)

  // ---------------------------------------------------------------------
  // The I-Table as a sequence of offsets; its capacity is its length.
  // ---------------------------------------------------------------------

  /** The table after set_itable_capacity: old entries below the new capacity, zeros after. */
  function Resized(t: seq<int>, capacity: nat): (r: seq<int>)
    ensures |r| == capacity
    ensures forall i :: 0 <= i < capacity && i < |t| ==> r[i] == t[i]
    ensures forall i :: |t| <= i < capacity ==> r[i] == 0
  {
    seq(capacity, i requires 0 <= i < capacity => if i < |t| then t[i] else 0)
  }

  /** fill_itable: grow by ITABLE_CAPACITY_INCREMENT past `i` when needed, then record `offset`. */
  function Fill(t: seq<int>, i: nat, offset: int): seq<int>
  {
    var grown := if |t| <= i then Resized(t, i + ITABLE_CAPACITY_INCREMENT) else t;
    grown[i := offset]
  }

  /** After a fill the table holds `i`, maps it to `offset`, keeps every other entry and zero-fills new slots. */
  lemma FillAt(t: seq<int>, i: nat, offset: int)
    ensures |Fill(t, i, offset)| == if |t| <= i then i + ITABLE_CAPACITY_INCREMENT else |t|
    ensures i < |Fill(t, i, offset)| && Fill(t, i, offset)[i] == offset
    ensures forall j :: 0 <= j < |Fill(t, i, offset)| && j != i ==>
      Fill(t, i, offset)[j] == if j < |t| then t[j] else 0
  {
  }

  /** The table build_itable leaves, starting from `t`: one fill per record, in log order. */
  function Replay(t: seq<int>, log: seq<Record>): seq<int>
    decreases |log|
  {
    if |log| == 0 then t
    else
      var r := log[|log| - 1];
      Fill(Replay(t, log[..|log| - 1]), r.inum, if r.deleted then 0 else r.offset)
  }

  /** No record after index `k` is for inode `i`. */
  predicate NoneAfter(log: seq<Record>, i: nat, k: nat)
  {
    forall m :: k < m < |log| ==> log[m].inum != i
  }

  /** The last record for inode `i`. */
  function Latest(log: seq<Record>, i: nat): (r: Option<Record>)
    ensures r.Some? ==> r.value in log && r.value.inum == i
    ensures r.None? ==> forall k :: 0 <= k < |log| ==> log[k].inum != i
    ensures r.Some? ==> exists k :: 0 <= k < |log| && log[k] == r.value && NoneAfter(log, i, k)
    decreases |log|
  {
    if |log| == 0 then None
    else if log[|log| - 1].inum == i then Some(log[|log| - 1])
    else Latest(log[..|log| - 1], i)
  }

  /** What the rebuilt table says about inode `i`. */
  function Expected(t: seq<int>, log: seq<Record>, i: nat): int
  {
    match Latest(log, i)
    case Some(r) => if r.deleted then 0 else r.offset
    case None => if i < |t| then t[i] else 0
  }

  /** Replaying keeps the table at least as long, and makes room for every inode in the log. */
  lemma {:induction false} ReplayCovers(t: seq<int>, log: seq<Record>)
    ensures |Replay(t, log)| >= |t|
    ensures forall k :: 0 <= k < |log| ==> log[k].inum < |Replay(t, log)|
    decreases |log|
  {
    if |log| > 0 {
      var p := log[..|log| - 1];
      var r := log[|log| - 1];
      ReplayCovers(t, p);
      FillAt(Replay(t, p), r.inum, if r.deleted then 0 else r.offset);
      forall k | 0 <= k < |log| ensures log[k].inum < |Replay(t, log)| {
        if k < |log| - 1 {
          assert log[k] == p[k];
        }
      }
    }
  }

  /** Entry `i` of the rebuilt table is the latest offset for `i`, 0 if that entry is a deletion. */
  lemma {:induction false} ReplayAt(t: seq<int>, log: seq<Record>, i: nat)
    requires i < |Replay(t, log)|
    ensures Replay(t, log)[i] == Expected(t, log, i)
    decreases |log|
  {
    if |log| > 0 {
      var p := log[..|log| - 1];
      var r := log[|log| - 1];
      var off := if r.deleted then 0 else r.offset;
      FillAt(Replay(t, p), r.inum, off);
      if r.inum != i {
        if i < |Replay(t, p)| {
          ReplayAt(t, p, i);
        } else {
          ReplayCovers(t, p);
        }
      }
    }
  }

  /** n_inodes after a rebuild: one more than the largest inode number in the log. */
  function Bound(log: seq<Record>): (n: nat)
    decreases |log|
  {
    if |log| == 0 then 0
    else
      var b := Bound(log[..|log| - 1]);
      if log[|log| - 1].inum >= b then log[|log| - 1].inum + 1 else b
  }

  /** Every inode in the log lies below the bound, and some inode reaches it. */
  lemma {:induction false} BoundIsMax(log: seq<Record>)
    ensures forall k :: 0 <= k < |log| ==> log[k].inum < Bound(log)
    ensures |log| > 0 ==> exists k :: 0 <= k < |log| && log[k].inum + 1 == Bound(log)
    decreases |log|
  {
    if |log| > 0 {
      var p := log[..|log| - 1];
      BoundIsMax(p);
      forall k | 0 <= k < |log| ensures log[k].inum < Bound(log) {
        if k < |log| - 1 {
          assert log[k] == p[k];
        }
      }
      if log[|log| - 1].inum < Bound(p) {
        var k :| 0 <= k < |p| && p[k].inum + 1 == Bound(p);
        assert log[k] == p[k];
      }
    }
  }

  /** No record before index `k` sits at `offset`. */
  predicate FirstWithOffset(log: seq<Record>, offset: nat, k: nat)
  {
    forall m :: 0 <= m < k && m < |log| ==> log[m].offset != offset
  }

  /** The disk after an entry is written at `r.offset`: the entry there is replaced, or the new one appended. */
  function Put(log: seq<Record>, r: Record): (l: seq<Record>)
    ensures (exists k :: 0 <= k < |log| && log[k].offset == r.offset) ==> |l| == |log|
    ensures (forall k :: 0 <= k < |log| ==> log[k].offset != r.offset) ==> l == log + [r]
    ensures forall k :: 0 <= k < |log| && log[k].offset == r.offset && FirstWithOffset(log, r.offset, k) ==>
      l == log[k := r]
    decreases |log|
  {
    if |log| == 0 then [r]
    else if log[0].offset == r.offset then log[0 := r]
    else [log[0]] + Put(log[1..], r)
  }

  // ---------------------------------------------------------------------
  // lookup_itable's guard, as written and as intended.
  // ---------------------------------------------------------------------

  /** As written, lookup_itable refuses only numbers above n_inodes, so n_inodes itself gets through. */
  predicate LookupPassesAsWritten(nInodes: nat, i: nat)
  {
    !(i > nInodes)
  }

  /** The intended guard: only the numbers below n_inodes. */
  predicate LookupPasses(nInodes: nat, i: nat)
  {
    i < nInodes
  }

  /** After a rebuild from inodes 0 and 9, inode 10 gets through the guard but lies past the table's end. */
  lemma LookupPastEndAsWritten()
    ensures var log := [Record(8, 0, false, 0), Record(52, 9, false, 0)];
      var t := Replay([], log);
      |t| == 10 && Bound(log) == 10 && LookupPassesAsWritten(Bound(log), 10) && !(10 < |t|)
  {
    var log := [Record(8, 0, false, 0), Record(52, 9, false, 0)];
    assert log[..1] == [Record(8, 0, false, 0)] && log[..1][..0] == [];
    FillAt([], 0, 8);
    FillAt(Replay([], log[..1]), 9, 52);
  }

  /** Every number the intended guard lets through after a rebuild lies inside the table. */
  lemma LookupInTable(log: seq<Record>, i: nat)
    requires LookupPasses(Bound(log), i)
    ensures i < |Replay([], log)|
  {
    BoundIsMax(log);
    ReplayCovers([], log);
    var k :| 0 <= k < |log| && log[k].inum + 1 == Bound(log);
  }

  datatype LookupResult = Offset(offset: int) | Exited

  /** The in-memory pseudo-superblock. */
  class PseudoSuperblock {
    var nInodes: nat
    var nLogEntries: nat
    /** itable.table; itable.capacity is its length. */
    var table: seq<int>
    var sb: Superblock
    /** The entries between the superblock and the head, in disk order. */
    var log: seq<Record>

    constructor (sb: Superblock, log: seq<Record>)
      ensures this.sb == sb && this.log == log && table == [] && nInodes == 0 && nLogEntries == 0
    {
      this.sb := sb;
      this.log := log;
      table := [];
      nInodes := 0;
      nLogEntries := 0;
    }

    /** wfs_inode_init: the new inode takes the next inode number. */
    method InodeInit(mode: bv32, uid: nat, gid: nat, now: nat) returns (inode: Inode)
      modifies this`nInodes
      ensures inode == Inode(old(nInodes), WFS_INODE_INTACT, mode, uid, gid, WFS_IGNORED_FIELD,
                             WFS_IGNORED_FIELD, now, now, now, WFS_N_HARD_LINKS)
      ensures nInodes == old(nInodes) + 1
    {
      inode := Inode(nInodes, WFS_INODE_INTACT, mode, uid, gid, WFS_IGNORED_FIELD,
                     WFS_IGNORED_FIELD, now, now, now, WFS_N_HARD_LINKS);
      nInodes := nInodes + 1;
    }

    /** invalidate_itable. */
    method InvalidateItable()
      modifies this`table
      ensures table == []
    {
      table := [];
    }

    /** set_itable_capacity; `allocOk` says whether calloc or realloc succeeds. */
    method SetItableCapacity(capacity: nat, allocOk: bool) returns (r: int)
      modifies this`table
      ensures allocOk ==> r == ITOPSC && table == Resized(old(table), capacity)
      ensures !allocOk && |old(table)| == 0 ==> r == EITWNB && table == []
      ensures !allocOk && |old(table)| > 0 ==> r == EITWR && table == old(table)
    {
      if |table| == 0 {
        table := [];
        if !allocOk {
          return EITWNB;
        }
        table := Resized([], capacity);
      } else {
        if !allocOk {
          return EITWR;
        }
        table := Resized(table, capacity);
      }
      return ITOPSC;
    }

    /** fill_itable. */
    method FillItable(i: nat, offset: int)
      modifies this`table
      ensures table == Fill(old(table), i, offset)
    {
      if |table| <= i {
        var _ := SetItableCapacity(i + ITABLE_CAPACITY_INCREMENT, true);
      }
      table := table[i := offset];
    }

    /** build_itable: replays the log into the table and counts inodes and entries. */
    method BuildItable() returns (r: int)
      modifies this`table, this`nInodes, this`nLogEntries
      ensures table == Replay(old(table), log) && nInodes == Bound(log) && nLogEntries == |log|
      ensures r == ITOPSC || r == ITOPFL
      ensures r == ITOPSC <==> |table| > 0 && table[0] >= WFS_INIT_ROOT_OFFSET
    {
      nInodes := 0;
      nLogEntries := 0;
      var k := 0;
      while k < |log|
        invariant k <= |log|
        invariant table == Replay(old(table), log[..k]) && nInodes == Bound(log[..k]) && nLogEntries == k
      {
        var e := log[k];
        nLogEntries := nLogEntries + 1;
        nInodes := if e.inum >= nInodes then e.inum + 1 else nInodes;
        if e.inum >= |table| {
          var _ := SetItableCapacity(e.inum + ITABLE_CAPACITY_INCREMENT, true);
        }
        FillItable(e.inum, if e.deleted then 0 else e.offset);
        assert log[..k + 1][..k] == log[..k];
        k := k + 1;
      }
      assert log[..k] == log;
      if |table| == 0 || table[0] < WFS_INIT_ROOT_OFFSET {
        return ITOPFL;
      }
      return ITOPSC;
    }

    /** lookup_itable with the intended guard: rebuilds when `i` is unknown, then reads the table. */
    method LookupItable(i: nat) returns (res: LookupResult)
      modifies this`table, this`nInodes, this`nLogEntries
      ensures res.Offset? && LookupPasses(nInodes, i) ==> i < |table| && res.offset == table[i]
      ensures res.Offset? && !LookupPasses(nInodes, i) ==> res.offset == ITOPFL
      ensures old(LookupPasses(nInodes, i) && i < |table|) ==> res == Offset(old(table)[i]) && table == old(table)
      ensures !old(LookupPasses(nInodes, i) && i < |table|) ==>
        nInodes == Bound(log) && table == Replay([], log)
        && (res == Exited <==> !(|table| > 0 && table[0] >= WFS_INIT_ROOT_OFFSET))
    {
      if !LookupPasses(nInodes, i) || i >= |table| {
        InvalidateItable();
        var b := BuildItable();
        if b != ITOPSC {
          return Exited;
        }
      }
      if !LookupPasses(nInodes, i) {
        return Offset(ITOPFL);
      }
      if i >= |table| {
        LookupInTable(log, i);
      }
      return Offset(table[i]);
    }

    /** write_to_disk: refuses with -ENOSPC past the disk's end; otherwise records the entry, moves the head and fills the table. */
    method WriteToDisk(offset: nat, inode: Inode) returns (r: int)
      modifies this`table, this`log, this`sb
      ensures offset + EntrySize(inode) > MAX_DISK_FILE_SIZE ==>
        r == -ENOSPC && table == old(table) && log == old(log) && sb == old(sb)
      ensures offset + EntrySize(inode) <= MAX_DISK_FILE_SIZE ==>
        r == FSOPSC
        && log == Put(old(log), Record(offset, inode.number, inode.deleted != 0, inode.size))
        && sb == old(sb).(head := if offset + EntrySize(inode) >= old(sb).head then offset + EntrySize(inode) else old(sb).head)
        && table == Fill(old(table), inode.number, offset)
    {
      var size := EntrySize(inode);
      if offset + size > MAX_DISK_FILE_SIZE {
        return -ENOSPC;
      }
      log := Put(log, Record(offset, inode.number, inode.deleted != 0, inode.size));
      if offset + size >= sb.head {
        sb := sb.(head := offset + size);
      }
      FillItable(inode.number, offset);
      return FSOPSC;
    }

    /** append_log_entry: a write at the head. */
    method AppendLogEntry(inode: Inode) returns (r: int)
      modifies this`table, this`log, this`sb
      ensures old(sb.head) + EntrySize(inode) > MAX_DISK_FILE_SIZE ==>
        r == -ENOSPC && table == old(table) && log == old(log) && sb == old(sb)
      ensures old(sb.head) + EntrySize(inode) <= MAX_DISK_FILE_SIZE ==>
        r == FSOPSC && sb.head == old(sb.head) + EntrySize(inode)
        && log == Put(old(log), Record(old(sb.head), inode.number, inode.deleted != 0, inode.size))
        && table == Fill(old(table), inode.number, old(sb.head))
    {
      r := WriteToDisk(sb.head, inode);
    }
  }

  /** Appending a live entry past every recorded offset keeps a table that matched the log matching it. */
  lemma AppendKeepsTable(t: seq<int>, log: seq<Record>, r: Record)
    requires !r.deleted
    requires forall k :: 0 <= k < |log| ==> log[k].offset != r.offset
    ensures Replay(t, Put(log, r)) == Fill(Replay(t, log), r.inum, r.offset)
  {
    assert Put(log, r)[..|log|] == log;
  }
}
