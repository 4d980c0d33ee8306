// Directories and path resolution in WFS.  A directory's data is an array
// of dentries; a path is resolved from the root directory (inode 0) one
// component at a time.  The latest entry of every inode is given as a map
// from inode numbers to entries (get_log_entry); a missing key is an inode
// whose entry cannot be read.

module WfsPaths {
  import opened Wrappers
  import opened CStrings
  import opened WfsLog

  /** struct wfs_dentry. */
  datatype Dentry = Dentry(name: string, inum: nat)

  /** struct wfs_log_entry: a file's data as bytes, a directory's as dentries. */
  datatype Entry = Entry(inode: Inode, bytes: seq<bv8>, dentries: seq<Dentry>)

  /** get_log_entry. */
  function GetEntry(fs: map<nat, Entry>, i: nat): (r: Option<Entry>)
    ensures r.Some? <==> i in fs
  {
    if i in fs then Some(fs[i]) else None
  }

  /** The first dentry named `name`, from index `k` on. */
  function FirstNamed(ds: seq<Dentry>, name: string, k: nat): (r: Option<nat>)
    ensures r.Some? ==> k <= r.value < |ds| && ds[r.value].name == name
    ensures r.Some? ==> forall m :: k <= m < r.value ==> ds[m].name != name
    ensures r.None? ==> forall m :: k <= m < |ds| ==> ds[m].name != name
    decreases |ds| - k
  {
    if k >= |ds| then None else if ds[k].name == name then Some(k) else FirstNamed(ds, name, k + 1)
  }

  predicate HasName(ds: seq<Dentry>, name: string)
  {
    exists k :: 0 <= k < |ds| && ds[k].name == name
  }

  /** find_file_in_dir: the inode of the first dentry named `name`, if the entry is a directory and the inode is below n_inodes. */
  function Lookup(e: Entry, name: string, nInodes: nat): (r: Option<nat>)
    ensures r.Some? <==> IsDir(e.inode.mode) && FirstNamed(e.dentries, name, 0).Some?
                         && e.dentries[FirstNamed(e.dentries, name, 0).value].inum < nInodes
    ensures r.Some? ==> r.value < nInodes && exists k :: 0 <= k < |e.dentries| && e.dentries[k] == Dentry(name, r.value)
  {
    if !IsDir(e.inode.mode) then None
    else match FirstNamed(e.dentries, name, 0)
      case None => None
      case Some(k) => if e.dentries[k].inum < nInodes then Some(e.dentries[k].inum) else None
  }

  /** The find_file_in_dir loop. */
  method FindFileInDir(e: Entry, name: string, nInodes: nat) returns (found: Option<nat>)
    ensures found == Lookup(e, name, nInodes)
  {
    if !IsDir(e.inode.mode) {
      return None;
    }
    var k := 0;
    while k < |e.dentries|
      invariant k <= |e.dentries|
      invariant FirstNamed(e.dentries, name, 0) == FirstNamed(e.dentries, name, k)
    {
      if e.dentries[k].name == name {
        if e.dentries[k].inum >= nInodes {
          return None;
        }
        return Some(e.dentries[k].inum);
      }
      k := k + 1;
    }
    return None;
  }

  /** The entry after add_dentry succeeds: one more dentry at the end. */
  function Added(e: Entry, d: Dentry): Entry
  {
    e.(dentries := e.dentries + [d], inode := e.inode.(size := e.inode.size + DENTRY_SIZE))
  }

  /** The entry after remove_dentry succeeds: the dentry at `i` gone, the others in order. */
  function Removed(e: Entry, i: nat): Entry
    requires i < |e.dentries| && e.inode.size >= DENTRY_SIZE
  {
    e.(dentries := e.dentries[..i] + e.dentries[i + 1..], inode := e.inode.(size := e.inode.size - DENTRY_SIZE))
  }

  /** add_dentry: refuses a name already present; otherwise appends the dentry and grows the size by one dentry. */
  method AddDentry(e: Entry, d: Dentry) returns (r: int, out: Entry)
    ensures r == FSOPFL <==> HasName(e.dentries, d.name)
    ensures r == FSOPFL || r == FSOPSC
    ensures r == FSOPFL ==> out == e
    ensures r == FSOPSC ==> out == Added(e, d)
  {
    var k := 0;
    while k < |e.dentries|
      invariant k <= |e.dentries|
      invariant forall m :: 0 <= m < k ==> e.dentries[m].name != d.name
    {
      if e.dentries[k].name == d.name {
        return FSOPFL, e;
      }
      k := k + 1;
    }
    return FSOPSC, Added(e, d);
  }

  /** remove_dentry: refuses a missing name; otherwise shifts the later dentries down over the first match. */
  method RemoveDentry(e: Entry, name: string) returns (r: int, out: Entry)
    requires e.inode.size >= DENTRY_SIZE * |e.dentries|
    ensures r == FSOPFL <==> !HasName(e.dentries, name)
    ensures r == FSOPFL || r == FSOPSC
    ensures r == FSOPFL ==> out == e
    ensures r == FSOPSC ==> (FirstNamed(e.dentries, name, 0).Some?
      && out == Removed(e, FirstNamed(e.dentries, name, 0).value))
  {
    var ds := e.dentries;
    var n := |ds|;
    var i := 0;
    while i < n
      invariant i <= n
      invariant FirstNamed(ds, name, 0) == FirstNamed(ds, name, i)
    {
      if ds[i].name == name {
        break;
      }
      i := i + 1;
    }
    if i >= n {
      return FSOPFL, e;
    }
    var rest := ShiftDown(ds, i);
    return FSOPSC, e.(dentries := rest, inode := e.inode.(size := e.inode.size - DENTRY_SIZE));
  }

  /** The memmove of remove_dentry: dentries after `i` move down one slot over a copy of the array. */
  method ShiftDown(ds: seq<Dentry>, i: nat) returns (rest: seq<Dentry>)
    requires i < |ds|
    ensures rest == ds[..i] + ds[i + 1..]
  {
    var n := |ds|;
    var a := new Dentry[n](k requires 0 <= k < n => ds[k]);
    var j := i;
    while j < n - 1
      invariant i <= j <= n - 1
      invariant forall k :: 0 <= k < i ==> a[k] == ds[k]
      invariant forall k :: i <= k < j ==> a[k] == ds[k + 1]
      invariant forall k :: j <= k < n ==> a[k] == ds[k]
    {
      a[j] := a[j + 1];
      j := j + 1;
    }
    rest := a[..n - 1];
    assert forall k :: 0 <= k < n - 1 ==> rest[k] == (ds[..i] + ds[i + 1..])[k];
  }

  /** Removing a dentry just added, under a name that was not there, gives back the directory. */
  lemma RemoveAfterAdd(e: Entry, d: Dentry)
    requires !HasName(e.dentries, d.name)
    ensures FirstNamed(Added(e, d).dentries, d.name, 0) == Some(|e.dentries|)
    ensures Removed(Added(e, d), |e.dentries|) == e
  {
    var ds := Added(e, d).dentries;
    assert ds[|e.dentries|] == d;
    assert FirstNamed(ds, d.name, |e.dentries|) == Some(|e.dentries|);
    FirstNamedSkips(ds, d.name, 0, |e.dentries|);
    assert ds[..|e.dentries|] + ds[|e.dentries| + 1..] == e.dentries;
  }

  lemma {:induction false} FirstNamedSkips(ds: seq<Dentry>, name: string, k: nat, m: nat)
    requires k <= m <= |ds|
    requires forall j :: k <= j < m ==> ds[j].name != name
    ensures FirstNamed(ds, name, k) == FirstNamed(ds, name, m)
    decreases m - k
  {
    if k < m {
      FirstNamedSkips(ds, name, k + 1, m);
    }
  }

  // ---------------------------------------------------------------------
  // simplify_path.
  // ---------------------------------------------------------------------

  /** The first scan: move `s` forward past slashes, stopping at `e`. */
  function Lead(p: string, s: nat, e: nat): (r: nat)
    requires s <= e < |p|
    ensures s <= r <= e
    decreases e - s
  {
    if s < e && p[s] == '/' then Lead(p, s + 1, e) else s
  }

  /** The second scan: move `e` back past slashes, stopping at `s`. */
  function Trail(p: string, s: nat, e: nat): (r: nat)
    requires s <= e < |p|
    ensures s <= r <= e
    decreases e - s
  {
    if e > s && p[e] == '/' then Trail(p, s, e - 1) else e
  }

  /** simplify_path: the path without its leading and trailing slashes; "/" when it has only slashes. */
  function SimplifyPath(p: string): string
  {
    if |p| == 0 then []
    else
      var s := Lead(p, 0, |p| - 1);
      var e := Trail(p, s, |p| - 1);
      p[s..e + 1]
  }

  function Slashes(n: nat): (r: string)
    ensures |r| == n && forall k :: 0 <= k < n ==> r[k] == '/'
  {
    seq(n, _ => '/')
  }

  lemma {:induction false} LeadPast(p: string, s: nat, e: nat, a: nat)
    requires s <= a <= e < |p|
    requires forall k :: s <= k < a ==> p[k] == '/'
    requires p[a] != '/'
    ensures Lead(p, s, e) == a
    decreases a - s
  {
    if s < a {
      LeadPast(p, s + 1, e, a);
    }
  }

  lemma {:induction false} TrailPast(p: string, s: nat, e: nat, b: nat)
    requires s <= b <= e < |p|
    requires forall k :: b < k <= e ==> p[k] == '/'
    requires p[b] != '/'
    ensures Trail(p, s, e) == b
    decreases e - b
  {
    if b < e {
      TrailPast(p, s, e - 1, b);
    }
  }

  lemma {:induction false} LeadAllSlash(p: string, s: nat, e: nat)
    requires s <= e < |p|
    requires forall k :: s <= k <= e ==> p[k] == '/'
    ensures Lead(p, s, e) == e
    decreases e - s
  {
    if s < e {
      LeadAllSlash(p, s + 1, e);
    }
  }

  /** Simplifying undoes wrapping a name in any number of slashes on either side. */
  lemma SimplifyWrapped(m: nat, q: string, n: nat)
    requires |q| > 0 && q[0] != '/' && q[|q| - 1] != '/'
    ensures SimplifyPath(Slashes(m) + q + Slashes(n)) == q
  {
    var p := Slashes(m) + q + Slashes(n);
    WrappedAt(m, q, n);
    LeadOfWrapped(m, q, n);
    TrailOfWrapped(m, q, n);
  }

  lemma LeadOfWrapped(m: nat, q: string, n: nat)
    requires |q| > 0 && q[0] != '/'
    ensures var p := Slashes(m) + q + Slashes(n); Lead(p, 0, |p| - 1) == m
  {
    var p := Slashes(m) + q + Slashes(n);
    WrappedAt(m, q, n);
    LeadPast(p, 0, |p| - 1, m);
  }

  lemma TrailOfWrapped(m: nat, q: string, n: nat)
    requires |q| > 0 && q[|q| - 1] != '/'
    ensures var p := Slashes(m) + q + Slashes(n); Trail(p, m, |p| - 1) == m + |q| - 1
  {
    var p := Slashes(m) + q + Slashes(n);
    var b := m + |q| - 1;
    assert p[b] == q[|q| - 1];
    forall k | b < k < |p|
      ensures p[k] == '/'
    {
      assert p[k] == Slashes(n)[k - m - |q|];
    }
    TrailFrom(p, m, b);
  }

  /** Trail from the end of `p` stops at `b` when only slashes follow it. */
  lemma TrailFrom(p: string, s: nat, b: nat)
    requires s <= b < |p| && p[b] != '/'
    requires forall k :: b < k < |p| ==> p[k] == '/'
    ensures Trail(p, s, |p| - 1) == b
  {
    TrailPast(p, s, |p| - 1, b);
  }

  lemma WrappedAt(m: nat, q: string, n: nat)
    ensures var p := Slashes(m) + q + Slashes(n);
      |p| == m + |q| + n && p[m..m + |q|] == q
      && (forall k :: 0 <= k < m ==> p[k] == '/')
      && (forall k :: m + |q| <= k < |p| ==> p[k] == '/')
      && (forall k :: 0 <= k < |q| ==> p[m + k] == q[k])
  {
    var p := Slashes(m) + q + Slashes(n);
    assert forall k :: m + |q| <= k < |p| ==> p[k] == Slashes(n)[k - m - |q|];
  }

  /** A path of slashes alone simplifies to "/". */
  lemma SimplifyAllSlash(p: string)
    requires |p| > 0 && forall k :: 0 <= k < |p| ==> p[k] == '/'
    ensures SimplifyPath(p) == "/"
  {
    LeadAllSlash(p, 0, |p| - 1);
  }

  /** A simplified path with a non-slash character in it starts and ends with one. */
  lemma SimplifyEnds(p: string, c: nat)
    requires c < |p| && p[c] != '/'
    ensures var r := SimplifyPath(p); |r| > 0 && r[0] != '/' && r[|r| - 1] != '/'
  {
    var s := Lead(p, 0, |p| - 1);
    LeadStops(p, 0, |p| - 1, c);
    TrailStops(p, s, |p| - 1, c);
  }

  lemma {:induction false} LeadStops(p: string, s: nat, e: nat, c: nat)
    requires s <= c <= e < |p| && p[c] != '/'
    ensures p[Lead(p, s, e)] != '/' && Lead(p, s, e) <= c
    decreases e - s
  {
    if s < e && p[s] == '/' {
      LeadStops(p, s + 1, e, c);
    }
  }

  lemma {:induction false} TrailStops(p: string, s: nat, e: nat, c: nat)
    requires s <= c <= e < |p| && p[c] != '/' && p[s] != '/'
    ensures p[Trail(p, s, e)] != '/' && Trail(p, s, e) >= c
    decreases e - s
  {
    if e > s && p[e] == '/' {
      TrailStops(p, s, e - 1, c);
    }
  }

  // ---------------------------------------------------------------------
  // parse_path.
  // ---------------------------------------------------------------------

  /** Where ".", ".." or a name takes the stack of inodes walked so far; ".." stays put at the root. */
  function Step(cur: Entry, nInodes: nat, t: string, stack: seq<nat>): (r: Option<seq<nat>>)
    requires |stack| > 0
    ensures r.Some? ==> |r.value| > 0
  {
    if t == "." then Some(stack)
    else if t == ".." then Some(if |stack| > 1 then stack[..|stack| - 1] else stack)
    else match Lookup(cur, t, nInodes)
      case None => None
      case Some(i) => Some(stack + [i])
  }

  /** The token loop of parse_path, from the directory entry `cur` on top of `stack`. */
  function Walk(fs: map<nat, Entry>, nInodes: nat, toks: seq<string>, stack: seq<nat>, cur: Entry): Option<nat>
    requires |stack| > 0
    decreases |toks|
  {
    if |toks| == 0 then Some(stack[|stack| - 1])
    else match Step(cur, nInodes, toks[0], stack)
      case None => None
      case Some(next) =>
        var top := next[|next| - 1];
        if top !in fs then None else Walk(fs, nInodes, toks[1..], next, fs[top])
  }

  /** parse_path: the inode a path names, the root being inode 0. */
  function Resolve(fs: map<nat, Entry>, nInodes: nat, path: string): Option<nat>
  {
    if |path| == 0 || path[0] != '/' then None
    else if path == "/" then Some(0)
    else
      var p := SimplifyPath(path);
      // simplify_path keeps at least one character, so this mirrors a check that never fires.
      if |p| == 0 then Some(0)
      else if 0 !in fs then None
      else if '/' !in p then Lookup(fs[0], p, nInodes)
      else Walk(fs, nInodes, Tokens(p, '/'), [0], fs[0])
  }

  /** parse_path, with the path history as the stack of inodes walked. */
  method ParsePath(fs: map<nat, Entry>, nInodes: nat, path: string) returns (out: Option<nat>)
    ensures out == Resolve(fs, nInodes, path)
  {
    if |path| == 0 || path[0] != '/' {
      return None;
    }
    if path == "/" {
      return Some(0);
    }
    var p := SimplifyPath(path);
    if |p| == 0 {
      return Some(0);
    }
    if 0 !in fs {
      return None;
    }
    if '/' !in p {
      out := FindFileInDir(fs[0], p, nInodes);
      return;
    }
    var toks := SplitTokens(p, '/');
    out := WalkTokens(fs, nInodes, toks);
  }

  /** One pass of the parse_path token loop: ".", ".." or a name looked up in the current directory. */
  method TakeStep(cur: Entry, nInodes: nat, t: string, stack: seq<nat>) returns (next: Option<seq<nat>>)
    requires |stack| > 0
    ensures next == Step(cur, nInodes, t, stack)
  {
    if t == "." {
      return Some(stack);
    } else if t == ".." {
      return Some(if |stack| > 1 then stack[..|stack| - 1] else stack);
    }
    var found := FindFileInDir(cur, t, nInodes);
    if found.None? {
      return None;
    }
    return Some(stack + [found.value]);
  }

  /** The parse_path token loop, from the root, with the path history as the stack of inodes walked. */
  method WalkTokens(fs: map<nat, Entry>, nInodes: nat, toks: seq<string>) returns (out: Option<nat>)
    requires 0 in fs
    ensures out == Walk(fs, nInodes, toks, [0], fs[0])
  {
    var history: seq<nat> := [0];
    var entry := fs[0];
    var k := 0;
    while k < |toks|
      invariant k <= |toks| && |history| > 0
      invariant Walk(fs, nInodes, toks, [0], fs[0]) == Walk(fs, nInodes, toks[k..], history, entry)
    {
      assert toks[k..][0] == toks[k] && toks[k..][1..] == toks[k + 1..];
      var next := TakeStep(entry, nInodes, toks[k], history);
      if next.None? {
        return None;
      }
      history := next.value;
      var top := history[|history| - 1];
      if top !in fs {
        return None;
      }
      entry := fs[top];
      k := k + 1;
    }
    return Some(history[|history| - 1]);
  }

  /** Any path that does not start with '/' names nothing. */
  lemma RelativeRefused(fs: map<nat, Entry>, nInodes: nat, path: string)
    requires |path| == 0 || path[0] != '/'
    ensures Resolve(fs, nInodes, path) == None
  {
  }

  /** A name in the root directory, wrapped in slashes, resolves through the root's dentries. */
  lemma RootChild(fs: map<nat, Entry>, nInodes: nat, m: nat, name: string, n: nat)
    requires 0 in fs && m > 0 && |name| > 0 && '/' !in name
    ensures Resolve(fs, nInodes, Slashes(m) + name + Slashes(n)) == Lookup(fs[0], name, nInodes)
  {
    var path := Slashes(m) + name + Slashes(n);
    assert path[0] == '/';
    assert name[0] in name && name[|name| - 1] in name;
    SimplifyWrapped(m, name, n);
    assert |path| >= 2;
  }

  /** The shape of a join: it starts with the first token's first character, ends with the last token's last, and has a delimiter right after the first token when there are two or more. */
  lemma {:induction false} JoinShape(ts: seq<string>, d: char)
    requires |ts| > 0 && forall k :: 0 <= k < |ts| ==> IsToken(ts[k], d)
    ensures var j := Join(ts, d); var last := ts[|ts| - 1];
      (|j| >= |ts[0]| > 0 && j[..|ts[0]|] == ts[0] && |last| > 0 && j[|j| - 1] == last[|last| - 1]
       && (|ts| > 1 ==> |j| > |ts[0]| && j[|ts[0]|] == d))
  {
    if |ts| > 1 {
      JoinShape(ts[1..], d);
    }
  }

  /** A path of two or more components after some slashes resolves by walking its components from the root. */
  lemma ResolveJoined(fs: map<nat, Entry>, nInodes: nat, m: nat, ts: seq<string>, n: nat)
    requires m > 0 && |ts| > 1 && 0 in fs
    requires forall k :: 0 <= k < |ts| ==> IsToken(ts[k], '/')
    ensures Resolve(fs, nInodes, Slashes(m) + Join(ts, '/') + Slashes(n)) == Walk(fs, nInodes, ts, [0], fs[0])
  {
    var j := Join(ts, '/');
    var path := Slashes(m) + j + Slashes(n);
    JoinShape(ts, '/');
    assert ts[0][0] == j[0];
    SimplifyWrapped(m, j, n);
    assert path[0] == '/' && |path| >= 2;
    assert j[|ts[0]|] == '/';
    TokensOfJoin(ts, '/');
  }

  /** The walk's state is consistent: `cur` is the entry of the inode on top of the stack. */
  predicate AtTop(fs: map<nat, Entry>, stack: seq<nat>, cur: Entry)
  {
    |stack| > 0 && stack[|stack| - 1] in fs && fs[stack[|stack| - 1]] == cur
  }

  /** A "." component changes nothing. */
  lemma WalkDot(fs: map<nat, Entry>, nInodes: nat, ts: seq<string>, stack: seq<nat>, cur: Entry)
    requires AtTop(fs, stack, cur)
    ensures Walk(fs, nInodes, ["."] + ts, stack, cur) == Walk(fs, nInodes, ts, stack, cur)
  {
    assert (["."] + ts)[1..] == ts;
  }

  /** A name followed by ".." comes back to where it started, when the name resolves to a readable inode. */
  lemma WalkNameThenUp(fs: map<nat, Entry>, nInodes: nat, name: string, ts: seq<string>, stack: seq<nat>, cur: Entry)
    requires AtTop(fs, stack, cur) && name != "." && name != ".."
    requires Lookup(cur, name, nInodes).Some? && Lookup(cur, name, nInodes).value in fs
    ensures Walk(fs, nInodes, [name, ".."] + ts, stack, cur) == Walk(fs, nInodes, ts, stack, cur)
  {
    var i := Lookup(cur, name, nInodes).value;
    assert ([name, ".."] + ts)[1..] == [".."] + ts;
    assert ([".."] + ts)[1..] == ts;
    assert (stack + [i])[..|stack|] == stack;
  }

  /** ".." at the root stays at the root. */
  lemma WalkUpAtRoot(fs: map<nat, Entry>, nInodes: nat, ts: seq<string>)
    requires 0 in fs
    ensures Walk(fs, nInodes, [".."] + ts, [0], fs[0]) == Walk(fs, nInodes, ts, [0], fs[0])
  {
    assert ([".."] + ts)[1..] == ts;
  }

  /** A name that does not resolve in the current directory stops the walk. */
  lemma WalkMissing(fs: map<nat, Entry>, nInodes: nat, name: string, ts: seq<string>, stack: seq<nat>, cur: Entry)
    requires |stack| > 0 && name != "." && name != ".."
    requires Lookup(cur, name, nInodes).None?
    ensures Walk(fs, nInodes, [name] + ts, stack, cur) == None
  {
  }
}

module WfsPrebuilt {
  import opened Wrappers
  import opened CStrings
  import opened WfsLog
  import opened WfsPaths

  function DirEntry(num: nat, ds: seq<Dentry>): Entry
  {
    Entry(Inode(num, WFS_INODE_INTACT, DIRECTORY_MODE | 0x1ed, 0, 0, 0, DENTRY_SIZE * |ds|, 0, 0, 0, WFS_N_HARD_LINKS), [], ds)
  }

  function FileEntry(num: nat): Entry
  {
    Entry(Inode(num, WFS_INODE_INTACT, FILE_MODE | 0x1a4, 0, 0, 0, 0, 0, 0, 0, WFS_N_HARD_LINKS), [], [])
  }

  /** The disk the parse_path tests run on: file0, file1, dir0, dir1 at the root, two files in each directory. */
  function Prebuilt(): map<nat, Entry>
  {
    map[0 := DirEntry(0, [Dentry("file0", 1), Dentry("file1", 2), Dentry("dir0", 3), Dentry("dir1", 4)]),
        1 := FileEntry(1), 2 := FileEntry(2),
        3 := DirEntry(3, [Dentry("file00", 5), Dentry("file01", 6)]),
        4 := DirEntry(4, [Dentry("file10", 8), Dentry("file11", 7)]),
        5 := FileEntry(5), 6 := FileEntry(6), 7 := FileEntry(7), 8 := FileEntry(8)]
  }

  lemma WalkNested()
    ensures Walk(Prebuilt(), 9, ["dir0", "file00"], [0], Prebuilt()[0]) == Some(5)
  {
  }

  lemma RootNames()
    ensures Lookup(Prebuilt()[0], "dir0", 9) == Some(3) && Lookup(Prebuilt()[0], "dir1", 9) == Some(4)
  {
  }

  lemma WalkFile0()
    ensures Walk(Prebuilt(), 9, ["file0"], [0], Prebuilt()[0]) == Some(1)
  {
  }

  /** "/dir0/../file0" names inode 1 on the prebuilt disk. */
  lemma WalkUpAndBack()
    ensures Walk(Prebuilt(), 9, ["dir0", "..", "file0"], [0], Prebuilt()[0]) == Some(1)
  {
    RootNames();
    WalkNameThenUp(Prebuilt(), 9, "dir0", ["file0"], [0], Prebuilt()[0]);
    assert ["dir0", ".."] + ["file0"] == ["dir0", "..", "file0"];
    WalkFile0();
  }

  /** "/dir0/file00" names inode 5 on the prebuilt disk. */
  lemma ResolveNested()
    ensures Resolve(Prebuilt(), 9, Slashes(1) + Join(["dir0", "file00"], '/') + Slashes(0)) == Some(5)
  {
    ResolveJoined(Prebuilt(), 9, 1, ["dir0", "file00"], 0);
    WalkNested();
  }
}
