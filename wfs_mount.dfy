// The FUSE handlers of mount.wfs.  The disk is seen through get_log_entry:
// a map from every inode number whose latest entry can be read to that entry
// (deleted entries included, as they are until the I-table is rebuilt),
// together with n_inodes and the superblock's head.

module WfsMount {
  import opened Wrappers
  import opened CStrings
  import opened WfsLog
  import opened WfsPaths
  import WfsPrebuilt

  const ENOENT: int := 2
  const EACCES: int := 13
  const EEXIST: int := 17
  const ENOTDIR: int := 20
  /** The permission bits, 0777. */
  const PERM_BITS: bv32 := 0x1ff

  /** struct stat, as far as wfs_stat_init fills it. */
  datatype Stat = Stat(ino: nat, mode: bv32, nlink: nat, uid: nat, gid: nat, size: nat,
                       atime: nat, mtime: nat, ctime: nat)

  function InodeOfStat(st: Stat, deleted: nat, flags: nat): Inode
  {
    Inode(st.ino, deleted, st.mode, st.uid, st.gid, flags, st.size, st.atime, st.mtime, st.ctime, st.nlink)
  }

  /** wfs_stat_init: the stat carries every field of the inode but `deleted` and `flags`. */
  function StatInit(inode: Inode): (st: Stat)
    ensures InodeOfStat(st, inode.deleted, inode.flags) == inode
  {
    Stat(inode.number, inode.mode, inode.links, inode.uid, inode.gid, inode.size,
         inode.atime, inode.mtime, inode.ctime)
  }

  // ---------------------------------------------------------------------
  // The shape every entry keeps.
  // ---------------------------------------------------------------------

  predicate DistinctNames(ds: seq<Dentry>)
  {
    forall a, b :: 0 <= a < b < |ds| ==> ds[a].name != ds[b].name
  }

  /** A directory's size counts its dentries, whose names differ; a regular file's counts its bytes. */
  predicate Sized(e: Entry)
  {
    (IsDir(e.inode.mode) ==> e.inode.size == DENTRY_SIZE * |e.dentries| && DistinctNames(e.dentries))
    && (!IsDir(e.inode.mode) ==> e.dentries == [])
    && (IsReg(e.inode.mode) ==> |e.bytes| == e.inode.size)
  }

  predicate ValidFs(fs: map<nat, Entry>, nInodes: nat)
  {
    forall i :: i in fs ==> i < nInodes && fs[i].inode.number == i && Sized(fs[i])
  }

  /** The disk as the handlers see it. */
  datatype Disk = Disk(fs: map<nat, Entry>, nInodes: nat, head: nat)

  predicate ValidDisk(d: Disk)
  {
    ValidFs(d.fs, d.nInodes)
  }

  /** write_to_disk sets mtime and ctime. */
  function Stamped(e: Entry, now: nat): Entry
  {
    e.(inode := e.inode.(mtime := now, ctime := now))
  }

  /** append_log_entry: -ENOSPC when the entry does not fit before the disk's end; otherwise the entry becomes its inode's latest. */
  function AppendSpec(d: Disk, e: Entry, now: nat): (res: (int, Disk))
    ensures res.0 == FSOPSC || res.0 == -ENOSPC
    ensures res.0 == -ENOSPC <==> d.head + EntrySize(e.inode) > MAX_DISK_FILE_SIZE
    ensures res.0 == -ENOSPC ==> res.1 == d
    ensures res.0 == FSOPSC ==> res.1 == d.(fs := d.fs[e.inode.number := Stamped(e, now)], head := d.head + EntrySize(e.inode))
  {
    if d.head + EntrySize(e.inode) > MAX_DISK_FILE_SIZE then (-ENOSPC, d)
    else (FSOPSC, d.(fs := d.fs[e.inode.number := Stamped(e, now)], head := d.head + EntrySize(e.inode)))
  }

  lemma AppendKeepsValid(d: Disk, e: Entry, now: nat)
    requires ValidDisk(d) && Sized(e) && e.inode.number < d.nInodes
    ensures ValidDisk(AppendSpec(d, e, now).1)
  {
  }

  // ---------------------------------------------------------------------
  // Parent paths: strrchr on the simplified path.
  // ---------------------------------------------------------------------

  /** strrchr(p, '/'). */
  function LastSlash(p: string): (r: Option<nat>)
    ensures r.Some? ==> r.value < |p| && p[r.value] == '/' && forall k :: r.value < k < |p| ==> p[k] != '/'
    ensures r.None? ==> forall k :: 0 <= k < |p| ==> p[k] != '/'
  {
    if |p| == 0 then None
    else if p[|p| - 1] == '/' then Some(|p| - 1)
    else LastSlash(p[..|p| - 1])
  }

  /** The parent path make_inode and wfs_unlink hand to parse_path: the simplified path up to its last '/'. */
  function ParentPathAsWritten(p: string, j: nat): string
    requires j < |p|
  {
    p[..j]
  }

  /** The parent path as intended: the same, from the root. */
  function ParentPath(p: string, j: nat): string
    requires j < |p|
  {
    "/" + p[..j]
  }

  /** As written, every parent path names nothing: simplify_path has removed the leading '/'. */
  lemma NestedParentAsWritten(fs: map<nat, Entry>, nInodes: nat, path: string, j: nat)
    requires LastSlash(SimplifyPath(path)) == Some(j)
    ensures Resolve(fs, nInodes, ParentPathAsWritten(SimplifyPath(path), j)) == None
  {
    var p := SimplifyPath(path);
    if c :| 0 <= c < |path| && path[c] != '/' {
      SimplifyEnds(path, c);
      assert j > 0 ==> p[..j][0] == p[0];
    } else {
      SimplifyAllSlash(path);
    }
  }

  /** strrchr finds the delimiter before the last token. */
  lemma {:induction false} LastSlashBefore(a: string, b: string)
    requires forall k :: 0 <= k < |b| ==> b[k] != '/'
    ensures LastSlash(a + "/" + b) == Some(|a|)
    decreases |b|
  {
    var s := a + "/" + b;
    if |b| > 0 {
      assert s[..|s| - 1] == a + "/" + b[..|b| - 1];
      LastSlashBefore(a, b[..|b| - 1]);
    }
  }

  /** A join splits before its last token. */
  lemma {:induction false} JoinSnoc(ts: seq<string>)
    requires |ts| > 1
    ensures Join(ts, '/') == Join(ts[..|ts| - 1], '/') + "/" + ts[|ts| - 1]
    decreases |ts|
  {
    if |ts| > 2 {
      JoinSnoc(ts[1..]);
      assert ts[1..][..|ts| - 2] == ts[..|ts| - 1][1..];
    }
  }

  /** strrchr on a join finds the delimiter before the last token. */
  lemma JoinParent(ts: seq<string>)
    requires |ts| > 1 && forall k :: 0 <= k < |ts| ==> IsToken(ts[k], '/')
    ensures var j := Join(ts, '/'); var pre := Join(ts[..|ts| - 1], '/');
      LastSlash(j) == Some(|pre|) && j[..|pre|] == pre && j[|pre| + 1..] == ts[|ts| - 1]
  {
    var last := ts[|ts| - 1];
    var pre := Join(ts[..|ts| - 1], '/');
    JoinSnoc(ts);
    assert IsToken(last, '/');
    LastSlashBefore(pre, last);
    assert (pre + "/" + last)[..|pre|] == pre;
    assert (pre + "/" + last)[|pre| + 1..] == last;
  }

  /** As intended, the parent of a nested path is resolved from the root: for two
      components it is the first one's root entry, for more it is reached by walking
      all components but the last. */
  lemma ParentPathResolves(fs: map<nat, Entry>, nInodes: nat, m: nat, ts: seq<string>, n: nat)
    requires m > 0 && |ts| > 1 && 0 in fs
    requires forall k :: 0 <= k < |ts| ==> IsToken(ts[k], '/')
    ensures var p := SimplifyPath(Slashes(m) + Join(ts, '/') + Slashes(n));
      var init := ts[..|ts| - 1];
      LastSlash(p) == Some(|Join(init, '/')|)
      && p[|Join(init, '/')| + 1..] == ts[|ts| - 1]
      && Resolve(fs, nInodes, ParentPath(p, |Join(init, '/')|))
         == (if |ts| == 2 then Lookup(fs[0], ts[0], nInodes) else Walk(fs, nInodes, init, [0], fs[0]))
  {
    var init := ts[..|ts| - 1];
    var j := Join(ts, '/');
    JoinShape(ts, '/');
    assert j[0] == ts[0][0];
    SimplifyWrapped(m, j, n);
    JoinParent(ts);
    assert ParentPath(j, |Join(init, '/')|) == Slashes(1) + Join(init, '/') + Slashes(0);
    if |ts| == 2 {
      assert Join(init, '/') == ts[0];
      RootChild(fs, nInodes, 1, ts[0], 0);
    } else {
      ResolveJoined(fs, nInodes, 1, init, 0);
    }
  }

  /** With the parent resolved from the root, "/dir0/new" on the prebuilt disk has parent
      "/dir0", inode 3, where the code as written finds nothing. */
  lemma NewInDir0Parent()
    ensures var p := SimplifyPath("/dir0/new");
      LastSlash(p) == Some(4) && p[5..] == "new"
      && Resolve(WfsPrebuilt.Prebuilt(), 9, ParentPath(p, 4)) == Some(3)
  {
    var ts := ["dir0", "new"];
    assert IsToken(ts[0], '/') && IsToken(ts[1], '/');
    assert Slashes(1) + Join(ts, '/') + Slashes(0) == "/dir0/new";
    assert ts[..1] == ["dir0"];
    ParentPathResolves(WfsPrebuilt.Prebuilt(), 9, 1, ts, 0);
    WfsPrebuilt.RootNames();
  }

  // ---------------------------------------------------------------------
  // make_inode.
  // ---------------------------------------------------------------------

  /** wfs_inode_init: a fresh inode with the next number, empty and stamped with the current time. */
  function NewEntry(number: nat, mode: bv32, uid: nat, gid: nat, now: nat): Entry
  {
    Entry(Inode(number, WFS_INODE_INTACT, mode, uid, gid, WFS_IGNORED_FIELD, WFS_IGNORED_FIELD,
                now, now, now, WFS_N_HARD_LINKS), [], [])
  }

  /** Adding the dentry to the parent and appending parent then child; the inode number stays taken even when the disk is full. */
  function Link(d: Disk, parent: nat, base: string, mode: bv32, uid: nat, gid: nat, now: nat): (int, Disk)
    requires parent in d.fs
  {
    var pe := d.fs[parent];
    if HasName(pe.dentries, base) then (FSOPFL, d)
    else
      var d1 := d.(nInodes := d.nInodes + 1);
      var (r1, d2) := AppendSpec(d1, Added(pe, Dentry(base, d.nInodes)), now);
      if r1 == -ENOSPC then (-ENOSPC, d2)
      else AppendSpec(d2, NewEntry(d.nInodes, mode, uid, gid, now), now)
  }

  /** make_inode once the parent is known: name too long, parent unreadable or not a directory, name taken by a live inode. */
  function CreateSpec(d: Disk, parent: Option<nat>, base: string, mode: bv32, uid: nat, gid: nat, now: nat): (int, Disk)
  {
    if parent.None? then (-ENOENT, d)
    else if |base| >= MAX_FILE_NAME_LEN then (-1, d)
    else if parent.value !in d.fs then (-ENOENT, d)
    else if !IsDir(d.fs[parent.value].inode.mode) then (-ENOTDIR, d)
    else match Lookup(d.fs[parent.value], base, d.nInodes)
      case Some(i) =>
        if i !in d.fs || d.fs[i].inode.deleted == WFS_INODE_INTACT then (-EEXIST, d)
        else Link(d, parent.value, base, mode, uid, gid, now)
      case None => Link(d, parent.value, base, mode, uid, gid, now)
  }

  /** make_inode, with the parent path taken from the root. */
  function MakeInodeSpec(d: Disk, path: string, mode: bv32, uid: nat, gid: nat, now: nat): (int, Disk)
  {
    if |path| == 0 || path == "/" then (-1, d)
    else
      var p := SimplifyPath(path);
      match LastSlash(p)
        case None => CreateSpec(d, Some(0), p, mode, uid, gid, now)
        case Some(j) => CreateSpec(d, Resolve(d.fs, d.nInodes, ParentPath(p, j)), p[j + 1..], mode, uid, gid, now)
  }

  lemma AddedSized(e: Entry, dn: Dentry)
    requires Sized(e) && IsDir(e.inode.mode) && !HasName(e.dentries, dn.name)
    ensures Sized(Added(e, dn))
  {
    var ds := Added(e, dn).dentries;
    forall a, b | 0 <= a < b < |ds|
      ensures ds[a].name != ds[b].name
    {
      if b == |e.dentries| {
        assert ds[a] == e.dentries[a];
      }
    }
  }

  /** What a successful create does: the parent, a directory without the name, gains the dentry; the child gets the next inode number; nothing else changes. */
  lemma CreateSucceeds(d: Disk, parent: nat, base: string, mode: bv32, uid: nat, gid: nat, now: nat)
    requires ValidDisk(d) && CreateSpec(d, Some(parent), base, mode, uid, gid, now).0 == FSOPSC
    ensures parent in d.fs && IsDir(d.fs[parent].inode.mode) && !HasName(d.fs[parent].dentries, base)
    ensures |base| < MAX_FILE_NAME_LEN
    ensures var d' := CreateSpec(d, Some(parent), base, mode, uid, gid, now).1;
      d'.nInodes == d.nInodes + 1
      && d'.fs == d.fs[parent := Stamped(Added(d.fs[parent], Dentry(base, d.nInodes)), now)]
                      [d.nInodes := Stamped(NewEntry(d.nInodes, mode, uid, gid, now), now)]
  {
    assert CreateSpec(d, Some(parent), base, mode, uid, gid, now) == Link(d, parent, base, mode, uid, gid, now);
    var pe := d.fs[parent];
    var d1 := d.(nInodes := d.nInodes + 1);
    var d2 := AppendSpec(d1, Added(pe, Dentry(base, d.nInodes)), now).1;
    assert d2.fs == d.fs[parent := Stamped(Added(pe, Dentry(base, d.nInodes)), now)];
  }

  /** A create that fails changes nothing but, when the disk filled up, n_inodes and possibly the parent's entry. */
  lemma CreateKeepsValid(d: Disk, parent: Option<nat>, base: string, mode: bv32, uid: nat, gid: nat, now: nat)
    requires ValidDisk(d)
    ensures ValidDisk(CreateSpec(d, parent, base, mode, uid, gid, now).1)
  {
    if parent.Some? && |base| < MAX_FILE_NAME_LEN && parent.value in d.fs && IsDir(d.fs[parent.value].inode.mode)
       && !HasName(d.fs[parent.value].dentries, base) {
      var pe := d.fs[parent.value];
      var d1 := d.(nInodes := d.nInodes + 1);
      AddedSized(pe, Dentry(base, d.nInodes));
      AppendKeepsValid(d1, Added(pe, Dentry(base, d.nInodes)), now);
      var d2 := AppendSpec(d1, Added(pe, Dentry(base, d.nInodes)), now).1;
      AppendKeepsValid(d2, NewEntry(d.nInodes, mode, uid, gid, now), now);
      assert CreateSpec(d, parent, base, mode, uid, gid, now) == Link(d, parent.value, base, mode, uid, gid, now);
    }
  }

  /** make_inode keeps every entry well shaped and below n_inodes. */
  lemma MakeInodeKeepsValid(d: Disk, path: string, mode: bv32, uid: nat, gid: nat, now: nat)
    requires ValidDisk(d)
    ensures ValidDisk(MakeInodeSpec(d, path, mode, uid, gid, now).1)
  {
    if |path| > 0 && path != "/" {
      var p := SimplifyPath(path);
      match LastSlash(p) {
        case None => CreateKeepsValid(d, Some(0), p, mode, uid, gid, now);
        case Some(j) => CreateKeepsValid(d, Resolve(d.fs, d.nInodes, ParentPath(p, j)), p[j + 1..], mode, uid, gid, now);
      }
    }
  }

  /** A successful make_inode leaves the new inode, with the mode it was asked for, under the old n_inodes. */
  lemma MadeMode(d: Disk, path: string, mode: bv32, uid: nat, gid: nat, now: nat)
    requires ValidDisk(d) && MakeInodeSpec(d, path, mode, uid, gid, now).0 == FSOPSC
    ensures var d' := MakeInodeSpec(d, path, mode, uid, gid, now).1;
      d.nInodes in d'.fs && d'.fs[d.nInodes].inode.mode == mode && d'.fs[d.nInodes].inode.number == d.nInodes
  {
    var p := SimplifyPath(path);
    match LastSlash(p) {
      case None => CreateSucceeds(d, 0, p, mode, uid, gid, now);
      case Some(j) =>
        var parent := Resolve(d.fs, d.nInodes, ParentPath(p, j));
        CreateSucceeds(d, parent.value, p[j + 1..], mode, uid, gid, now);
    }
  }

  /** The type bits mknod and mkdir put in: a regular file or a directory whatever the permission bits. */
  lemma MknodMkdirTypes(mode: bv32)
    requires mode & S_IFMT == 0
    ensures IsReg(FILE_MODE | mode) && IsDir(DIRECTORY_MODE | mode)
  {
  }

  /** A path naming something in the root directory: one name between slashes. */
  lemma RootLevel(m: nat, name: string, n: nat)
    requires m > 0 && |name| > 0 && '/' !in name
    ensures var path := Slashes(m) + name + Slashes(n);
      |path| > 0 && path != "/" && SimplifyPath(path) == name && LastSlash(name) == None
  {
    assert name[0] in name && name[|name| - 1] in name;
    SimplifyWrapped(m, name, n);
    assert forall k :: 0 <= k < |name| ==> name[k] in name;
    assert |Slashes(m) + name + Slashes(n)| >= 2;
  }

  /** A file created in the root directory is found again under its path, with the inode number it was given. */
  lemma CreateThenResolve(d: Disk, m: nat, name: string, n: nat, mode: bv32, uid: nat, gid: nat, now: nat)
    requires ValidDisk(d) && m > 0 && |name| > 0 && '/' !in name
    requires MakeInodeSpec(d, Slashes(m) + name + Slashes(n), mode, uid, gid, now).0 == FSOPSC
    ensures var d' := MakeInodeSpec(d, Slashes(m) + name + Slashes(n), mode, uid, gid, now).1;
      Resolve(d'.fs, d'.nInodes, Slashes(m) + name + Slashes(n)) == Some(d.nInodes)
      && d'.nInodes == d.nInodes + 1
      && d.nInodes in d'.fs && d'.fs[d.nInodes] == Stamped(NewEntry(d.nInodes, mode, uid, gid, now), now)
  {
    var path := Slashes(m) + name + Slashes(n);
    RootLevel(m, name, n);
    assert MakeInodeSpec(d, path, mode, uid, gid, now) == CreateSpec(d, Some(0), name, mode, uid, gid, now);
    CreateSucceeds(d, 0, name, mode, uid, gid, now);
    var d' := CreateSpec(d, Some(0), name, mode, uid, gid, now).1;
    var root := d.fs[0];
    assert 0 != d.nInodes;
    assert d'.fs[0] == Stamped(Added(root, Dentry(name, d.nInodes)), now);
    RemoveAfterAdd(root, Dentry(name, d.nInodes));
    RootChild(d'.fs, d'.nInodes, m, name, n);
  }

  // ---------------------------------------------------------------------
  // wfs_unlink.
  // ---------------------------------------------------------------------

  /** An unlinked inode is marked deleted in place. */
  function Marked(e: Entry): Entry
  {
    e.(inode := e.inode.(deleted := WFS_INODE_DELETED))
  }

  /** remove_dentry on the parent, then append_log_entry. */
  function DropSpec(d: Disk, parent: Option<nat>, name: string, now: nat): (int, Disk)
    requires ValidDisk(d)
  {
    if parent.None? || parent.value !in d.fs then (-ENOENT, d)
    else
      var pe := d.fs[parent.value];
      match FirstNamed(pe.dentries, name, 0)
        case None => (FSOPFL, d)
        case Some(k) => AppendSpec(d, Removed(pe, k), now)
  }

  /** wfs_unlink, with the parent path taken from the root. */
  function UnlinkSpec(d: Disk, path: string, now: nat): (int, Disk)
    requires ValidDisk(d)
  {
    var i := Resolve(d.fs, d.nInodes, path);
    if i.None? then (-ENOENT, d)
    else if i.value == 0 then (-1, d)
    else if i.value !in d.fs then (-ENOENT, d)
    else if !IsReg(d.fs[i.value].inode.mode) then (-1, d)
    else
      var d1 := d.(fs := d.fs[i.value := Stamped(Marked(d.fs[i.value]), now)]);
      UnlinkTail(d1, SimplifyPath(path), now)
  }

  /** The second half of wfs_unlink: the dentry named by the simplified path `p` leaves its parent. */
  function UnlinkTail(d: Disk, p: string, now: nat): (int, Disk)
    requires ValidDisk(d)
  {
    match LastSlash(p)
      case None => DropSpec(d, Some(0), p, now)
      case Some(j) => DropSpec(d, Resolve(d.fs, d.nInodes, ParentPath(p, j)), p[j + 1..], now)
  }

  lemma RemovedSized(e: Entry, k: nat)
    requires Sized(e) && k < |e.dentries|
    ensures e.inode.size >= DENTRY_SIZE && Sized(Removed(e, k))
    ensures forall m :: 0 <= m < |Removed(e, k).dentries| ==> Removed(e, k).dentries[m].name != e.dentries[k].name
  {
    var ds := Removed(e, k).dentries;
    forall a, b | 0 <= a < b < |ds|
      ensures ds[a].name != ds[b].name
    {
      var a' := if a < k then a else a + 1;
      var b' := if b < k then b else b + 1;
      assert ds[a] == e.dentries[a'] && ds[b] == e.dentries[b'];
    }
    forall m | 0 <= m < |ds|
      ensures ds[m].name != e.dentries[k].name
    {
      var m' := if m < k then m else m + 1;
      assert ds[m] == e.dentries[m'];
    }
  }

  /** A successful unlink of a name in the root directory leaves no dentry of that name there. */
  lemma UnlinkAtRoot(d: Disk, path: string, name: string, now: nat)
    requires ValidDisk(d) && SimplifyPath(path) == name && LastSlash(name) == None
    requires UnlinkSpec(d, path, now).0 == FSOPSC
    ensures var d' := UnlinkSpec(d, path, now).1;
      0 in d'.fs && forall m :: 0 <= m < |d'.fs[0].dentries| ==> d'.fs[0].dentries[m].name != name
  {
    var i := Resolve(d.fs, d.nInodes, path).value;
    var d1 := d.(fs := d.fs[i := Stamped(Marked(d.fs[i]), now)]);
    assert UnlinkSpec(d, path, now) == DropSpec(d1, Some(0), name, now);
    var root := d1.fs[0];
    var k := FirstNamed(root.dentries, name, 0).value;
    RemovedSized(root, k);
  }

  /** A file unlinked from the root directory no longer resolves. */
  lemma UnlinkThenResolve(d: Disk, m: nat, name: string, n: nat, now: nat)
    requires ValidDisk(d) && m > 0 && |name| > 0 && '/' !in name
    requires UnlinkSpec(d, Slashes(m) + name + Slashes(n), now).0 == FSOPSC
    ensures var d' := UnlinkSpec(d, Slashes(m) + name + Slashes(n), now).1;
      Resolve(d'.fs, d'.nInodes, Slashes(m) + name + Slashes(n)) == None
  {
    var path := Slashes(m) + name + Slashes(n);
    RootLevel(m, name, n);
    UnlinkAtRoot(d, path, name, now);
    var d' := UnlinkSpec(d, path, now).1;
    RootChild(d'.fs, d'.nInodes, m, name, n);
  }

  // ---------------------------------------------------------------------
  // wfs_write and wfs_read.
  // ---------------------------------------------------------------------

  function Max(a: nat, b: nat): nat { if a >= b then a else b }

  /** memcpy(data + offset, buf, size) into a buffer grown to offset + size; a gap past the old end reads as zeros. */
  function Overwrite(data: seq<bv8>, offset: nat, buf: seq<bv8>): (r: seq<bv8>)
    ensures |r| == Max(|data|, offset + |buf|)
    ensures forall k :: 0 <= k < |buf| ==> r[offset + k] == buf[k]
    ensures forall k :: 0 <= k < |r| && (k < offset || k >= offset + |buf|) ==>
      r[k] == (if k < |data| then data[k] else 0)
  {
    var padded := if offset > |data| then data + seq(offset - |data|, _ => 0) else data;
    padded[..offset] + buf + (if offset + |buf| < |padded| then padded[offset + |buf|..] else [])
  }

  /** The entry wfs_write appends: the data overwritten and the size grown to cover it. */
  function Written(e: Entry, buf: seq<bv8>, offset: nat): Entry
  {
    e.(bytes := Overwrite(e.bytes, offset, buf), inode := e.inode.(size := Max(e.inode.size, offset + |buf|)))
  }

  /** What wfs_read copies out of a file of `data`: nothing from at or past the end, otherwise up to `size` bytes. */
  function ReadBytes(data: seq<bv8>, size: nat, offset: nat): (out: seq<bv8>)
    ensures |out| == (if offset >= |data| then 0 else if offset + size <= |data| then size else |data| - offset)
    ensures forall k :: 0 <= k < |out| ==> out[k] == data[offset + k]
  {
    if offset >= |data| then []
    else if offset + size <= |data| then data[offset..offset + size]
    else data[offset..]
  }

  /** Reading back what was just written gives it back. */
  lemma ReadAfterWrite(e: Entry, buf: seq<bv8>, offset: nat)
    requires Sized(e) && IsReg(e.inode.mode) && |buf| > 0
    ensures ReadBytes(Written(e, buf, offset).bytes, |buf|, offset) == buf
  {
    var out := ReadBytes(Written(e, buf, offset).bytes, |buf|, offset);
    assert |out| == |buf|;
    assert forall k :: 0 <= k < |buf| ==> out[k] == buf[k];
  }

  /** A write leaves every byte outside its range as it was, and zero-fills a gap past the old end. */
  lemma WriteKeepsOthers(e: Entry, buf: seq<bv8>, offset: nat, k: nat)
    requires Sized(e) && IsReg(e.inode.mode)
    requires k < Written(e, buf, offset).inode.size && (k < offset || k >= offset + |buf|)
    ensures |Written(e, buf, offset).bytes| == Written(e, buf, offset).inode.size
    ensures Written(e, buf, offset).bytes[k] == (if k < e.inode.size then e.bytes[k] else 0)
  {
  }

  /** The mode chmod leaves: the permission bits from `mode`, everything else kept. */
  function ChmodMode(prev: bv32, mode: bv32): (r: bv32)
    ensures r & PERM_BITS == mode & PERM_BITS
    ensures r & !PERM_BITS == prev & !PERM_BITS
  {
    (prev & !PERM_BITS) | (mode & PERM_BITS)
  }

  /** chmod never changes a file's type. */
  lemma ChmodKeepsType(prev: bv32, mode: bv32)
    ensures IsDir(ChmodMode(prev, mode)) == IsDir(prev) && IsReg(ChmodMode(prev, mode)) == IsReg(prev)
  {
    var r := ChmodMode(prev, mode);
    assert r & S_IFMT == (r & !PERM_BITS) & S_IFMT;
    assert prev & S_IFMT == (prev & !PERM_BITS) & S_IFMT;
  }

  // ---------------------------------------------------------------------
  // wfs_readdir.
  // ---------------------------------------------------------------------

  predicate Live(fs: map<nat, Entry>, i: nat)
  {
    i in fs && fs[i].inode.deleted == WFS_INODE_INTACT
  }

  /** The names wfs_readdir hands to the filler after "." and "..": those of live inodes, in order. */
  function Listed(fs: map<nat, Entry>, ds: seq<Dentry>): seq<string>
  {
    if |ds| == 0 then []
    else Listed(fs, ds[..|ds| - 1]) + (if Live(fs, ds[|ds| - 1].inum) then [ds[|ds| - 1].name] else [])
  }

  /** A name is listed exactly when some dentry of a live inode carries it. */
  lemma {:induction false} ListedIff(fs: map<nat, Entry>, ds: seq<Dentry>, name: string)
    ensures name in Listed(fs, ds) <==> exists k :: 0 <= k < |ds| && ds[k].name == name && Live(fs, ds[k].inum)
  {
    if |ds| > 0 {
      var init := ds[..|ds| - 1];
      ListedIff(fs, init, name);
      if name in Listed(fs, ds) && name !in Listed(fs, init) {
        assert ds[|ds| - 1].name == name;
      }
      if k :| 0 <= k < |ds| && ds[k].name == name && Live(fs, ds[k].inum) {
        if k < |ds| - 1 {
          assert init[k] == ds[k];
        }
      }
    }
  }

  // ---------------------------------------------------------------------
  // The mounted file system.
  // ---------------------------------------------------------------------

  class Mount {
    /** The latest entry of every inode get_log_entry can read. */
    var fs: map<nat, Entry>
    /** ps_sb.n_inodes. */
    var nInodes: nat
    /** ps_sb.sb.head. */
    var head: nat
    /** WFS_USER_ID and WFS_GROUP_ID: the ids of the mounting process. */
    const uid: nat
    const gid: nat

    ghost predicate Valid()
      reads this
    {
      ValidFs(fs, nInodes)
    }

    function State(): Disk
      reads this
    {
      Disk(fs, nInodes, head)
    }

    constructor (fs: map<nat, Entry>, nInodes: nat, head: nat, uid: nat, gid: nat)
      requires ValidFs(fs, nInodes)
      ensures Valid() && State() == Disk(fs, nInodes, head) && this.uid == uid && this.gid == gid
    {
      this.fs := fs;
      this.nInodes := nInodes;
      this.head := head;
      this.uid := uid;
      this.gid := gid;
    }

    /** append_log_entry. */
    method Append(e: Entry, now: nat) returns (r: int)
      modifies this`fs, this`head
      ensures (r, State()) == AppendSpec(old(State()), e, now)
    {
      if head + EntrySize(e.inode) > MAX_DISK_FILE_SIZE {
        return -ENOSPC;
      }
      fs := fs[e.inode.number := Stamped(e, now)];
      head := head + EntrySize(e.inode);
      return FSOPSC;
    }

    /** wfs_getattr: -ENOENT for a path that names nothing readable or a deleted inode. */
    method Getattr(path: string) returns (r: int, st: Option<Stat>)
      ensures var i := Resolve(fs, nInodes, path);
        (r == 0 <==> i.Some? && Live(fs, i.value))
        && (r == 0 ==> st == Some(StatInit(fs[i.value].inode)))
        && (r != 0 ==> r == -ENOENT && st == None)
    {
      var i := ParsePath(fs, nInodes, path);
      if i.None? || i.value !in fs {
        return -ENOENT, None;
      }
      var e := fs[i.value];
      if e.inode.deleted != WFS_INODE_INTACT {
        return -ENOENT, None;
      }
      return 0, Some(StatInit(e.inode));
    }

    /** make_inode, for wfs_mknod and wfs_mkdir. */
    method MakeInode(path: string, mode: bv32, now: nat) returns (r: int)
      requires Valid()
      modifies this`fs, this`head, this`nInodes
      ensures Valid()
      ensures (r, State()) == MakeInodeSpec(old(State()), path, mode, uid, gid, now)
    {
      MakeInodeKeepsValid(State(), path, mode, uid, gid, now);
      if |path| == 0 || path == "/" {
        return -1;
      }
      var p := SimplifyPath(path);
      var slash := LastSlash(p);
      var parent: Option<nat>, base: string;
      if slash.None? {
        parent, base := Some(0), p;
      } else {
        parent := ParsePath(fs, nInodes, ParentPath(p, slash.value));
        base := p[slash.value + 1..];
      }
      r := Create(parent, base, mode, now);
    }

    /** wfs_mknod: a regular file. */
    method Mknod(path: string, mode: bv32, now: nat) returns (r: int)
      requires Valid()
      modifies this`fs, this`head, this`nInodes
      ensures Valid()
      ensures (r, State()) == MakeInodeSpec(old(State()), path, FILE_MODE | mode, uid, gid, now)
    {
      r := MakeInode(path, FILE_MODE | mode, now);
    }

    /** wfs_mkdir: a directory. */
    method Mkdir(path: string, mode: bv32, now: nat) returns (r: int)
      requires Valid()
      modifies this`fs, this`head, this`nInodes
      ensures Valid()
      ensures (r, State()) == MakeInodeSpec(old(State()), path, DIRECTORY_MODE | mode, uid, gid, now)
    {
      r := MakeInode(path, DIRECTORY_MODE | mode, now);
    }

    /** make_inode from the parent on. */
    method Create(parent: Option<nat>, base: string, mode: bv32, now: nat) returns (r: int)
      modifies this`fs, this`head, this`nInodes
      ensures (r, State()) == CreateSpec(old(State()), parent, base, mode, uid, gid, now)
    {
      if parent.None? {
        return -ENOENT;
      }
      if |base| >= MAX_FILE_NAME_LEN {
        return -1;
      }
      if parent.value !in fs {
        return -ENOENT;
      }
      var pe := fs[parent.value];
      if !IsDir(pe.inode.mode) {
        return -ENOTDIR;
      }
      var found := FindFileInDir(pe, base, nInodes);
      if found.Some? && (found.value !in fs || fs[found.value].inode.deleted == WFS_INODE_INTACT) {
        return -EEXIST;
      }
      r := LinkNew(parent.value, base, mode, now);
    }

    /** add_dentry and the two appends of make_inode. */
    method LinkNew(parent: nat, base: string, mode: bv32, now: nat) returns (r: int)
      requires parent in fs
      modifies this`fs, this`head, this`nInodes
      ensures (r, State()) == Link(old(State()), parent, base, mode, uid, gid, now)
    {
      var child := NewEntry(nInodes, mode, uid, gid, now);
      var add, pe := AddDentry(fs[parent], Dentry(base, nInodes));
      if add != FSOPSC {
        return FSOPFL;
      }
      nInodes := nInodes + 1;
      r := Append(pe, now);
      if r != -ENOSPC {
        r := Append(child, now);
      }
    }

    /** wfs_read: 0 for a zero size before anything else; -EACCES for anything but a regular file. */
    method Read(path: string, size: nat, offset: nat) returns (r: int, out: seq<bv8>)
      requires Valid()
      ensures size == 0 ==> r == 0 && out == []
      ensures size > 0 ==> var i := Resolve(fs, nInodes, path);
        if i.None? || i.value !in fs then r == -ENOENT && out == []
        else if !IsReg(fs[i.value].inode.mode) then r == -EACCES && out == []
        else out == ReadBytes(fs[i.value].bytes, size, offset) && r == |out|
    {
      if size == 0 {
        // The source jumps to its exit here before `entry` and `n_bytes` are
        // initialised; the model gives the evidently intended empty read.
        return 0, [];
      }
      var i := ParsePath(fs, nInodes, path);
      if i.None? || i.value !in fs {
        return -ENOENT, [];
      }
      var e := fs[i.value];
      if !IsReg(e.inode.mode) {
        return -EACCES, [];
      }
      // The source keeps the size and count in `int`s; every file lies on a disk
      // of at most 1 MiB, so that arithmetic cannot overflow and unbounded
      // integers agree with it.
      var fileSize := e.inode.size;
      if offset >= fileSize {
        return 0, [];
      }
      var n := if offset + size <= fileSize then size else fileSize - offset;
      out := e.bytes[offset..offset + n];
      return n, out;
    }

    /** wfs_write: appends the file's entry with the buffer copied in; returns the size written. */
    method Write(path: string, buf: seq<bv8>, offset: nat, now: nat) returns (r: int)
      requires Valid()
      modifies this`fs, this`head
      ensures Valid()
      ensures var i := Resolve(old(fs), nInodes, path);
        if i.None? || i.value !in old(fs) then r == -ENOENT && State() == old(State())
        else if !IsReg(old(fs)[i.value].inode.mode) then r == -1 && State() == old(State())
        else var (a, d) := AppendSpec(old(State()), Written(old(fs)[i.value], buf, offset), now);
          State() == d && r == (if a == -ENOSPC then -ENOSPC else |buf|)
    {
      var i := ParsePath(fs, nInodes, path);
      if i.None? || i.value !in fs {
        return -ENOENT;
      }
      var e := fs[i.value];
      if !IsReg(e.inode.mode) {
        return -1;
      }
      var w := Written(e, buf, offset);
      AppendKeepsValid(State(), w, now);
      var a := Append(w, now);
      r := if a == -ENOSPC then -ENOSPC else |buf|;
    }

    /** wfs_readdir: "." and "..", then the names of the live inodes the directory lists. */
    method Readdir(path: string) returns (r: int, names: seq<string>)
      ensures var i := Resolve(fs, nInodes, path);
        if i.None? || i.value !in fs then r == -ENOENT && names == [".", ".."]
        else r == 0 && names == [".", ".."] + Listed(fs, fs[i.value].dentries)
    {
      names := [".", ".."];
      var i := ParsePath(fs, nInodes, path);
      if i.None? || i.value !in fs {
        return -ENOENT, names;
      }
      var ds := fs[i.value].dentries;
      var k := 0;
      while k < |ds|
        invariant k <= |ds|
        invariant names == [".", ".."] + Listed(fs, ds[..k])
      {
        assert ds[..k + 1][..k] == ds[..k];
        if ds[k].inum in fs && fs[ds[k].inum].inode.deleted == WFS_INODE_INTACT {
          names := names + [ds[k].name];
        }
        k := k + 1;
      }
      assert ds[..k] == ds;
      return 0, names;
    }

    /** wfs_unlink: marks a regular file deleted in place, then removes its dentry from the parent. */
    method Unlink(path: string, now: nat) returns (r: int)
      requires Valid()
      modifies this`fs, this`head
      ensures Valid()
      ensures (r, State()) == UnlinkSpec(old(State()), path, now)
    {
      var i := ParsePath(fs, nInodes, path);
      if i.None? {
        return -ENOENT;
      }
      if i.value == 0 {
        return -1;
      }
      if i.value !in fs {
        return -ENOENT;
      }
      var e := fs[i.value];
      if !IsReg(e.inode.mode) {
        return -1;
      }
      fs := fs[i.value := Stamped(Marked(e), now)];
      r := DropFromParent(SimplifyPath(path), now);
    }

    /** The second half of wfs_unlink: finds the parent of `p` and removes the dentry from it. */
    method DropFromParent(p: string, now: nat) returns (r: int)
      requires Valid()
      modifies this`fs, this`head
      ensures Valid()
      ensures (r, State()) == UnlinkTail(old(State()), p, now)
    {
      var slash := LastSlash(p);
      if slash.None? {
        r := Drop(Some(0), p, now);
      } else {
        var parent := ParsePath(fs, nInodes, ParentPath(p, slash.value));
        r := Drop(parent, p[slash.value + 1..], now);
      }
    }

    /** remove_dentry on the parent's entry, then append_log_entry. */
    method Drop(parent: Option<nat>, name: string, now: nat) returns (r: int)
      requires Valid()
      modifies this`fs, this`head
      ensures Valid()
      ensures (r, State()) == DropSpec(old(State()), parent, name, now)
    {
      if parent.None? || parent.value !in fs {
        return -ENOENT;
      }
      var pe := fs[parent.value];
      var rm, removed := RemoveDentry(pe, name);
      if rm != FSOPSC {
        return FSOPFL;
      }
      RemovedSized(pe, FirstNamed(pe.dentries, name, 0).value);
      AppendKeepsValid(State(), removed, now);
      r := Append(removed, now);
    }

    /** wfs_chmod: replaces the permission bits in place. */
    method Chmod(path: string, mode: bv32, now: nat) returns (r: int)
      requires Valid()
      modifies this`fs
      ensures Valid() && head == old(head) && nInodes == old(nInodes)
      ensures var i := Resolve(old(fs), nInodes, path);
        if i.None? || i.value !in old(fs) then r == -ENOENT && fs == old(fs)
        else r == 0 && fs == old(fs)[i.value := Stamped(old(fs)[i.value].(inode :=
          old(fs)[i.value].inode.(mode := ChmodMode(old(fs)[i.value].inode.mode, mode))), now)]
    {
      var i := ParsePath(fs, nInodes, path);
      if i.None? || i.value !in fs {
        return -ENOENT;
      }
      var e := fs[i.value];
      ChmodKeepsType(e.inode.mode, mode);
      fs := fs[i.value := Stamped(e.(inode := e.inode.(mode := ChmodMode(e.inode.mode, mode))), now)];
      return 0;
    }
  }
}
