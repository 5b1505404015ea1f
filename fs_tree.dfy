/** The file system as the CRLF checker and the formatters see it, and the
    two ways they walk it: the recursive `scan_directory` generator of the
    package (check_crlf.py and formatter/formatter.py hold identical
    copies), and `os.walk` with the caller pruning `dirs[:]` in place, as
    the root-level scripts do. */
module FsTree {
  import opened Text

  newtype byte = x: int | 0 <= x < 256

  /** A path as its list of parts. */
  type Path = seq<string>

  /** What reading a file gives: its bytes, or an `OSError`. */
  datatype ReadResult = Bytes(data: seq<byte>) | ReadError

  /** One directory entry. `isLink` marks a symbolic link; a link is a
      `File` or a `Dir` after what `is_dir()` (which follows links) says of
      it. `denied` marks a directory whose listing raises `PermissionError`. */
  datatype Node =
    | File(name: string, isLink: bool, content: ReadResult)
    | Dir(name: string, isLink: bool, denied: bool, children: seq<Node>)

  /** `read_bytes()` on an entry: a directory cannot be read
      (`IsADirectoryError`). */
  function Read(n: Node): ReadResult
  {
    if n.File? then n.content else ReadError
  }

  /** A file found by a walk: its full path and the entry itself (so that
      reading it is `node.content`). */
  datatype Entry = Entry(path: Path, node: Node)

  predicate UniqueNames(entries: seq<Node>)
  {
    forall i, j :: 0 <= i < j < |entries| ==> entries[i].name != entries[j].name
  }

  /** A real directory tree: no two entries of one directory share a name. */
  predicate WellFormed(n: Node)
  {
    n.Dir? ==> UniqueNames(n.children) && forall c :: c in n.children ==> WellFormed(c)
  }

  /** The entry called `name`, if any. */
  function Find(entries: seq<Node>, name: string): (r: Option<Node>)
    ensures r.Some? ==> r.value in entries && r.value.name == name
    ensures r.None? ==> forall c :: c in entries ==> c.name != name
  {
    if entries == [] then None
    else if entries[0].name == name then Some(entries[0])
    else Find(entries[1..], name)
  }

  lemma {:induction false} FindUnique(entries: seq<Node>, i: int)
    requires UniqueNames(entries) && 0 <= i < |entries|
    ensures Find(entries, entries[i].name) == Some(entries[i])
  {
    if i > 0 {
      assert entries[0].name != entries[i].name;
      assert UniqueNames(entries[1..]) by {
        forall a, b | 0 <= a < b < |entries[1..]| ensures entries[1..][a].name != entries[1..][b].name {
          assert entries[1..][a] == entries[a + 1] && entries[1..][b] == entries[b + 1];
        }
      }
      FindUnique(entries[1..], i - 1);
    }
  }

  /* ---------------- scan_directory ---------------- */

  /** One item of a directory listing at `dir`: a link is skipped, a
      directory is descended into unless its path is excluded (a directory
      whose listing is denied yields nothing), anything else is yielded. */
  function ScanItem(dir: Path, e: Node, excluded: set<Path>): seq<Entry>
    decreases e
  {
    if e.isLink then []
    else if e.File? then [Entry(dir + [e.name], e)]
    else if dir + [e.name] in excluded || e.denied then []
    else ScanEntries(dir + [e.name], e.children, excluded)
  }

  /** The items of one listing, in listing order. */
  function ScanEntries(dir: Path, entries: seq<Node>, excluded: set<Path>): seq<Entry>
    decreases entries
  {
    if entries == [] then []
    else ScanItem(dir, entries[0], excluded) + ScanEntries(dir, entries[1..], excluded)
  }

  /** `scan_directory(root, excluded)` on the directory `top`. The root
      itself is not tested against `excluded`. */
  function ScanDirectory(root: Path, top: Node, excluded: set<Path>): seq<Entry>
    requires top.Dir?
  {
    if top.denied then [] else ScanEntries(root, top.children, excluded)
  }

  lemma {:induction false} ScanEntriesMember(dir: Path, entries: seq<Node>, excluded: set<Path>, x: Entry)
    ensures x in ScanEntries(dir, entries, excluded) <==>
      exists i :: 0 <= i < |entries| && x in ScanItem(dir, entries[i], excluded)
    decreases entries
  {
    if entries != [] {
      ScanEntriesMember(dir, entries[1..], excluded, x);
      if x in ScanEntries(dir, entries[1..], excluded) {
        var i :| 0 <= i < |entries[1..]| && x in ScanItem(dir, entries[1..][i], excluded);
        assert entries[1..][i] == entries[i + 1];
      }
      if i :| 0 <= i < |entries| && x in ScanItem(dir, entries[i], excluded) {
        if i > 0 { assert entries[1..][i - 1] == entries[i]; }
      }
    }
  }

  /** The scan follows listing order: the scan of a listing is the scan
      of its first part followed by the scan of the rest. */
  lemma {:induction false} ScanEntriesAppend(dir: Path, a: seq<Node>, b: seq<Node>, excluded: set<Path>)
    ensures ScanEntries(dir, a + b, excluded) == ScanEntries(dir, a, excluded) + ScanEntries(dir, b, excluded)
    decreases a
  {
    if a == [] {
      assert a + b == b;
    } else {
      assert (a + b)[0] == a[0];
      assert (a + b)[1..] == a[1..] + b;
      ScanEntriesAppend(dir, a[1..], b, excluded);
    }
  }

  /** Every item yielded lies under `dir`, one level down in the item
      it came from, and is a file that is not a link, named by the last
      part of its path. */
  lemma {:induction false} ScanItemShape(dir: Path, e: Node, excluded: set<Path>, x: Entry)
    requires x in ScanItem(dir, e, excluded)
    ensures |x.path| > |dir| && x.path[..|dir| + 1] == dir + [e.name]
    ensures x.node.File? && !x.node.isLink && x.path[|x.path| - 1] == x.node.name
    decreases e, 0
  {
    if e.Dir? {
      var sub := dir + [e.name];
      ScanEntriesMember(sub, e.children, excluded, x);
      var i :| 0 <= i < |e.children| && x in ScanItem(sub, e.children[i], excluded);
      ScanItemShape(sub, e.children[i], excluded, x);
      assert x.path[..|dir| + 1] == x.path[..|sub|][..|dir| + 1];
    }
  }

  lemma ScanEntriesShape(dir: Path, entries: seq<Node>, excluded: set<Path>, x: Entry)
    requires x in ScanEntries(dir, entries, excluded)
    ensures |x.path| > |dir| && x.path[..|dir|] == dir
    ensures exists i :: 0 <= i < |entries| && x.path[|dir|] == entries[i].name
    ensures x.node.File? && !x.node.isLink && x.path[|x.path| - 1] == x.node.name
  {
    ScanEntriesMember(dir, entries, excluded, x);
    var i :| 0 <= i < |entries| && x in ScanItem(dir, entries[i], excluded);
    ScanItemShape(dir, entries[i], excluded, x);
    assert x.path[..|dir|] == x.path[..|dir| + 1][..|dir|];
    assert x.path[|dir|] == x.path[..|dir| + 1][|dir|];
  }

  /** `scan_directory` yields only paths under the root, and only files
      that are not links; so `relative_to(root)` never fails on them. */
  lemma ScanDirectoryShape(root: Path, top: Node, excluded: set<Path>, x: Entry)
    requires top.Dir? && x in ScanDirectory(root, top, excluded)
    ensures |x.path| > |root| && x.path[..|root|] == root
    ensures x.node.File? && !x.node.isLink && x.path[|x.path| - 1] == x.node.name
  {
    ScanEntriesShape(root, top.children, excluded, x);
  }

  /** The scan never descends into an excluded directory: no proper
      prefix of a yielded path, below `dir`, is excluded. */
  lemma {:induction false} ScanItemPruned(dir: Path, e: Node, excluded: set<Path>, x: Entry, k: int)
    requires x in ScanItem(dir, e, excluded)
    requires |dir| < k < |x.path|
    ensures x.path[..k] !in excluded
    decreases e
  {
    if e.Dir? {
      var sub := dir + [e.name];
      ScanItemShape(dir, e, excluded, x);
      assert x.path[..|dir| + 1] == sub;
      if k > |sub| {
        ScanEntriesMember(sub, e.children, excluded, x);
        var i :| 0 <= i < |e.children| && x in ScanItem(sub, e.children[i], excluded);
        ScanItemPruned(sub, e.children[i], excluded, x, k);
      }
    }
  }

  lemma ScanDirectoryPruned(root: Path, top: Node, excluded: set<Path>, x: Entry, k: int)
    requires top.Dir? && x in ScanDirectory(root, top, excluded)
    requires |root| < k < |x.path|
    ensures x.path[..k] !in excluded
  {
    ScanEntriesMember(root, top.children, excluded, x);
    var i :| 0 <= i < |top.children| && x in ScanItem(root, top.children[i], excluded);
    ScanItemPruned(root, top.children[i], excluded, x, k);
  }

  /* ---- what the scan should find, stated independently ---- */

  /** The file that a scan of the listing `entries` at `dir` reaches at
      the relative path `rel`: every directory on the way is found by name,
      is not a link, not excluded and readable, and the last part names a
      file that is not a link. */
  ghost function Reach(dir: Path, entries: seq<Node>, rel: Path, excluded: set<Path>): Option<Node>
    decreases |rel|, 0
  {
    if rel == [] then None
    else match Find(entries, rel[0])
      case None => None
      case Some(e) => ReachItem(dir, e, rel[1..], excluded)
  }

  ghost function ReachItem(dir: Path, e: Node, rest: Path, excluded: set<Path>): Option<Node>
    decreases |rest|, 1
  {
    if e.isLink then None
    else if rest == [] then (if e.File? then Some(e) else None)
    else if e.File? || dir + [e.name] in excluded || e.denied then None
    else Reach(dir + [e.name], e.children, rest, excluded)
  }

  lemma {:induction false} ScanItemReach(dir: Path, e: Node, rest: Path, f: Node, excluded: set<Path>)
    requires WellFormed(e)
    ensures Entry(dir + [e.name] + rest, f) in ScanItem(dir, e, excluded) <==> ReachItem(dir, e, rest, excluded) == Some(f)
    decreases e
  {
    var x := Entry(dir + [e.name] + rest, f);
    if e.isLink {
    } else if e.File? {
      assert ScanItem(dir, e, excluded) == [Entry(dir + [e.name], e)];
      if rest != [] {
        assert |x.path| == |dir| + 1 + |rest|;
        assert x != Entry(dir + [e.name], e);
      } else {
        assert x.path == dir + [e.name];
      }
    } else if dir + [e.name] in excluded || e.denied {
    } else {
      var sub := dir + [e.name];
      if rest == [] {
        if x in ScanItem(dir, e, excluded) {
          ScanEntriesShape(sub, e.children, excluded, x);
          assert false;
        }
      } else {
        ScanEntriesReach(sub, e.children, rest, f, excluded);
      }
    }
  }

  /** Soundness and completeness of the scan: on a real tree, the scan of
      a listing yields (path, file) exactly when the file is reached at
      that path. */
  lemma {:induction false} ScanEntriesReach(dir: Path, entries: seq<Node>, rel: Path, f: Node, excluded: set<Path>)
    requires UniqueNames(entries) && forall c :: c in entries ==> WellFormed(c)
    ensures Entry(dir + rel, f) in ScanEntries(dir, entries, excluded) <==> Reach(dir, entries, rel, excluded) == Some(f)
    decreases entries
  {
    var x := Entry(dir + rel, f);
    ScanEntriesMember(dir, entries, excluded, x);
    if x in ScanEntries(dir, entries, excluded) {
      var i :| 0 <= i < |entries| && x in ScanItem(dir, entries[i], excluded);
      var e := entries[i];
      ScanItemShape(dir, e, excluded, x);
      assert rel != [] && rel[0] == e.name by {
        assert x.path[..|dir| + 1][|dir|] == e.name;
      }
      FindUnique(entries, i);
      assert dir + rel == dir + [e.name] + rel[1..];
      ScanItemReach(dir, e, rel[1..], f, excluded);
    }
    if Reach(dir, entries, rel, excluded) == Some(f) {
      var e := Find(entries, rel[0]).value;
      var i :| 0 <= i < |entries| && entries[i] == e;
      assert dir + rel == dir + [e.name] + rel[1..];
      ScanItemReach(dir, e, rel[1..], f, excluded);
    }
  }

  /** `scan_directory` on a real tree yields (root + rel, f) exactly when
      `f` is reached at `rel`; a denied root yields nothing. */
  lemma ScanDirectoryReach(root: Path, top: Node, rel: Path, f: Node, excluded: set<Path>)
    requires top.Dir? && WellFormed(top)
    ensures Entry(root + rel, f) in ScanDirectory(root, top, excluded) <==>
      !top.denied && Reach(root, top.children, rel, excluded) == Some(f)
  {
    if !top.denied {
      ScanEntriesReach(root, top.children, rel, f, excluded);
    }
  }

  /* ---- each file once ---- */

  predicate DistinctPaths(s: seq<Entry>)
  {
    forall i, j :: 0 <= i < j < |s| ==> s[i].path != s[j].path
  }

  lemma DistinctConcat(a: seq<Entry>, b: seq<Entry>)
    requires DistinctPaths(a) && DistinctPaths(b)
    requires forall x, y :: x in a && y in b ==> x.path != y.path
    ensures DistinctPaths(a + b)
  {
    forall i, j | 0 <= i < j < |a + b| ensures (a + b)[i].path != (a + b)[j].path {
      if i < |a| && j >= |a| {
        assert (a + b)[i] in a && (a + b)[j] in b;
      } else if i >= |a| {
        assert (a + b)[i] == b[i - |a|] && (a + b)[j] == b[j - |a|];
      }
    }
  }

  lemma {:induction false} ScanItemDistinct(dir: Path, e: Node, excluded: set<Path>)
    requires WellFormed(e)
    ensures DistinctPaths(ScanItem(dir, e, excluded))
    decreases e
  {
    if e.Dir? && !e.isLink && dir + [e.name] !in excluded && !e.denied {
      ScanEntriesDistinct(dir + [e.name], e.children, excluded);
    }
  }

  lemma {:induction false} ScanEntriesDistinct(dir: Path, entries: seq<Node>, excluded: set<Path>)
    requires UniqueNames(entries) && forall c :: c in entries ==> WellFormed(c)
    ensures DistinctPaths(ScanEntries(dir, entries, excluded))
    decreases entries
  {
    if entries != [] {
      var rest := entries[1..];
      assert UniqueNames(rest) by {
        forall a, b | 0 <= a < b < |rest| ensures rest[a].name != rest[b].name {
          assert rest[a] == entries[a + 1] && rest[b] == entries[b + 1];
        }
      }
      ScanItemDistinct(dir, entries[0], excluded);
      ScanEntriesDistinct(dir, rest, excluded);
      forall x, y | x in ScanItem(dir, entries[0], excluded) && y in ScanEntries(dir, rest, excluded)
        ensures x.path != y.path
      {
        ScanItemShape(dir, entries[0], excluded, x);
        ScanEntriesShape(dir, rest, excluded, y);
        var i :| 0 <= i < |rest| && y.path[|dir|] == rest[i].name;
        assert rest[i] == entries[i + 1];
        assert x.path[|dir|] == x.path[..|dir| + 1][|dir|] == entries[0].name;
      }
      DistinctConcat(ScanItem(dir, entries[0], excluded), ScanEntries(dir, rest, excluded));
    }
  }

  /** On a real tree `scan_directory` yields every file at most once. */
  lemma ScanDirectoryDistinct(root: Path, top: Node, excluded: set<Path>)
    requires top.Dir? && WellFormed(top)
    ensures DistinctPaths(ScanDirectory(root, top, excluded))
  {
    if !top.denied {
      ScanEntriesDistinct(root, top.children, excluded);
    }
  }

  /* ---------------- os.walk with dirs[:] pruning ---------------- */

  /** The non-directories of one listing (links to files included), as
      `os.walk` puts them in `files`. */
  function FilesHere(dir: Path, entries: seq<Node>): seq<Entry>
  {
    if entries == [] then []
    else
      var here := if entries[0].File? then [Entry(dir + [entries[0].name], entries[0])] else [];
      here + FilesHere(dir, entries[1..])
  }

  /** One entry of `dirs` after the caller's pruning: kept when its path is
      not excluded; `os.walk` then descends into it unless it is a link. */
  function WalkInto(dir: Path, e: Node, excluded: set<Path>): seq<Entry>
    decreases e
  {
    if e.Dir? && dir + [e.name] !in excluded && !e.isLink && !e.denied
    then WalkDir(dir + [e.name], e.children, excluded)
    else []
  }

  function WalkSubdirs(dir: Path, entries: seq<Node>, excluded: set<Path>): seq<Entry>
    decreases entries, 0
  {
    if entries == [] then []
    else WalkInto(dir, entries[0], excluded) + WalkSubdirs(dir, entries[1..], excluded)
  }

  /** The files `os.walk` hands to the loop body for the directory `dir`
      and everything below it, top-down: this directory's files first, then
      each kept subdirectory in listing order. */
  function WalkDir(dir: Path, entries: seq<Node>, excluded: set<Path>): seq<Entry>
    decreases entries, 1
  {
    FilesHere(dir, entries) + WalkSubdirs(dir, entries, excluded)
  }

  /** `for root, dirs, files in os.walk(top)` with pruning, flattened to
      the files it presents. A denied top yields nothing. */
  function Walk(root: Path, top: Node, excluded: set<Path>): seq<Entry>
    requires top.Dir?
  {
    if top.denied then [] else WalkDir(root, top.children, excluded)
  }

  /** What one entry of a listing contributes to the walk. */
  function WalkItem(dir: Path, e: Node, excluded: set<Path>): seq<Entry>
  {
    if e.File? then [Entry(dir + [e.name], e)] else WalkInto(dir, e, excluded)
  }

  lemma {:induction false} FilesHereMember(dir: Path, entries: seq<Node>, x: Entry)
    ensures x in FilesHere(dir, entries) <==>
      exists i :: 0 <= i < |entries| && entries[i].File? && x == Entry(dir + [entries[i].name], entries[i])
  {
    if entries != [] {
      FilesHereMember(dir, entries[1..], x);
      if i :| 0 <= i < |entries| && entries[i].File? && x == Entry(dir + [entries[i].name], entries[i]) {
        if i > 0 { assert entries[1..][i - 1] == entries[i]; }
      }
    }
  }

  lemma {:induction false} WalkSubdirsMember(dir: Path, entries: seq<Node>, excluded: set<Path>, x: Entry)
    ensures x in WalkSubdirs(dir, entries, excluded) <==>
      exists i :: 0 <= i < |entries| && x in WalkInto(dir, entries[i], excluded)
  {
    if entries != [] {
      WalkSubdirsMember(dir, entries[1..], excluded, x);
      if x in WalkSubdirs(dir, entries[1..], excluded) {
        var i :| 0 <= i < |entries[1..]| && x in WalkInto(dir, entries[1..][i], excluded);
        assert entries[1..][i] == entries[i + 1];
      }
      if i :| 0 <= i < |entries| && x in WalkInto(dir, entries[i], excluded) {
        if i > 0 { assert entries[1..][i - 1] == entries[i]; }
      }
    }
  }

  lemma WalkDirMember(dir: Path, entries: seq<Node>, excluded: set<Path>, x: Entry)
    ensures x in WalkDir(dir, entries, excluded) <==>
      exists i :: 0 <= i < |entries| && x in WalkItem(dir, entries[i], excluded)
  {
    FilesHereMember(dir, entries, x);
    WalkSubdirsMember(dir, entries, excluded, x);
    if i :| 0 <= i < |entries| && x in WalkItem(dir, entries[i], excluded) {
      if entries[i].Dir? {
        assert x in WalkInto(dir, entries[i], excluded);
      }
    }
  }

  lemma {:induction false} ScanItemIsWalkItem(dir: Path, e: Node, excluded: set<Path>, x: Entry)
    ensures x in ScanItem(dir, e, excluded) <==> x in WalkItem(dir, e, excluded) && !x.node.isLink
    decreases e
  {
    if e.Dir? && dir + [e.name] !in excluded && !e.isLink && !e.denied {
      ScanEntriesIsWalkDir(dir + [e.name], e.children, excluded, x);
    }
  }

  lemma {:induction false} ScanEntriesIsWalkDir(dir: Path, entries: seq<Node>, excluded: set<Path>, x: Entry)
    ensures x in ScanEntries(dir, entries, excluded) <==> x in WalkDir(dir, entries, excluded) && !x.node.isLink
    decreases entries
  {
    ScanEntriesMember(dir, entries, excluded, x);
    WalkDirMember(dir, entries, excluded, x);
    forall i | 0 <= i < |entries|
      ensures x in ScanItem(dir, entries[i], excluded) <==> x in WalkItem(dir, entries[i], excluded) && !x.node.isLink
    {
      ScanItemIsWalkItem(dir, entries[i], excluded, x);
    }
  }

  /** The two walks find the same files: what `scan_directory` yields is
      exactly what `os.walk` with the same pruning presents, less the links
      to files. Only the order differs. */
  lemma ScanIsWalkWithoutLinks(root: Path, top: Node, excluded: set<Path>, x: Entry)
    requires top.Dir?
    ensures x in ScanDirectory(root, top, excluded) <==> x in Walk(root, top, excluded) && !x.node.isLink
  {
    if !top.denied {
      ScanEntriesIsWalkDir(root, top.children, excluded, x);
    }
  }

  /** The walk presents only paths under the root. */
  lemma WalkUnderRoot(root: Path, top: Node, excluded: set<Path>, x: Entry)
    requires top.Dir? && x in Walk(root, top, excluded)
    ensures |x.path| > |root| && x.path[..|root|] == root
    ensures x.node.File? && x.path[|x.path| - 1] == x.node.name
  {
    WalkDirShape(root, top.children, excluded, x);
  }

  lemma {:induction false} WalkDirShape(dir: Path, entries: seq<Node>, excluded: set<Path>, x: Entry)
    requires x in WalkDir(dir, entries, excluded)
    ensures |x.path| > |dir| && x.path[..|dir|] == dir
    ensures x.node.File? && x.path[|x.path| - 1] == x.node.name
    decreases entries
  {
    WalkDirMember(dir, entries, excluded, x);
    var i :| 0 <= i < |entries| && x in WalkItem(dir, entries[i], excluded);
    var e := entries[i];
    if e.Dir? {
      var sub := dir + [e.name];
      WalkDirShape(sub, e.children, excluded, x);
      assert x.path[..|dir|] == x.path[..|sub|][..|dir|];
    }
  }

  /** The caller's pruning holds: the walk never enters an excluded
      directory, so no proper prefix of a walked path, below `dir`, is
      excluded. Links to files are covered too. */
  lemma {:induction false} WalkDirPruned(dir: Path, entries: seq<Node>, excluded: set<Path>, x: Entry, k: int)
    requires x in WalkDir(dir, entries, excluded)
    requires |dir| < k < |x.path|
    ensures x.path[..k] !in excluded
    decreases entries
  {
    WalkDirMember(dir, entries, excluded, x);
    var i :| 0 <= i < |entries| && x in WalkItem(dir, entries[i], excluded);
    var e := entries[i];
    if e.Dir? {
      var sub := dir + [e.name];
      assert sub !in excluded && x in WalkDir(sub, e.children, excluded);
      WalkDirShape(sub, e.children, excluded, x);
      assert x.path[..|sub|] == sub;
      if k > |sub| {
        WalkDirPruned(sub, e.children, excluded, x, k);
      } else {
        assert x.path[..k] == sub;
      }
    }
  }

  lemma WalkPruned(root: Path, top: Node, excluded: set<Path>, x: Entry, k: int)
    requires top.Dir? && x in Walk(root, top, excluded)
    requires |root| < k < |x.path|
    ensures x.path[..k] !in excluded
  {
    WalkDirPruned(root, top.children, excluded, x, k);
  }

  /** `os.walk` is top-down: once the walk has presented a file below a
      subdirectory of `dir`, it presents no more files of `dir` itself. */
  lemma WalkDirTopDown(dir: Path, entries: seq<Node>, excluded: set<Path>)
    ensures var w := WalkDir(dir, entries, excluded);
      forall i, j :: 0 <= i < j < |w| && |w[i].path| > |dir| + 1 ==> |w[j].path| > |dir| + 1
  {
    var here := FilesHere(dir, entries);
    var below := WalkSubdirs(dir, entries, excluded);
    var w := WalkDir(dir, entries, excluded);
    forall k | 0 <= k < |here| ensures |here[k].path| == |dir| + 1 {
      FilesHereMember(dir, entries, here[k]);
    }
    forall k | 0 <= k < |below| ensures |below[k].path| > |dir| + 1 {
      WalkSubdirsMember(dir, entries, excluded, below[k]);
      var n :| 0 <= n < |entries| && below[k] in WalkInto(dir, entries[n], excluded);
      WalkDirShape(dir + [entries[n].name], entries[n].children, excluded, below[k]);
    }
    forall i, j | 0 <= i < j < |w| ensures |w[i].path| > |dir| + 1 ==> |w[j].path| > |dir| + 1 {
      if j < |here| {
        assert w[i] == here[i];
      } else {
        assert w[j] == below[j - |here|];
      }
    }
  }

  /* ---------------- paths and ignore lists ---------------- */

  /** `path.relative_to(root)`: the remaining parts, or `ValueError` (None)
      when `path` is not under `root`. */
  function RelativeTo(path: Path, root: Path): (r: Option<Path>)
    ensures r.Some? <==> |root| <= |path| && path[..|root|] == root
    ensures r.Some? ==> root + r.value == path
  {
    if |root| <= |path| && path[..|root|] == root then Some(path[|root|..]) else None
  }

  /** Every entry lies strictly under `root`. */
  predicate AllUnder(root: Path, entries: seq<Entry>)
  {
    forall e :: e in entries ==> |e.path| > |root| && e.path[..|root|] == root
  }

  lemma ScanAllUnder(root: Path, top: Node, excluded: set<Path>)
    requires top.Dir?
    ensures AllUnder(root, ScanDirectory(root, top, excluded))
  {
    forall e | e in ScanDirectory(root, top, excluded) ensures |e.path| > |root| && e.path[..|root|] == root {
      ScanDirectoryShape(root, top, excluded, e);
    }
  }

  lemma WalkAllUnder(root: Path, top: Node, excluded: set<Path>)
    requires top.Dir?
    ensures AllUnder(root, Walk(root, top, excluded))
  {
    forall e | e in Walk(root, top, excluded) ensures |e.path| > |root| && e.path[..|root|] == root {
      WalkUnderRoot(root, top, excluded, e);
    }
  }

  /** `str(path)` / `os.path.relpath`: the parts joined by `/`. A relative
      path gives its text directly. An absolute path is written with an
      empty first part (the root `/` is `[""]`), so that its text starts
      with `/`. */
  function PathString(path: Path): string
  {
    Join("/", path)
  }

  /** The convention for absolute paths at work: `/r/a.cpp` and `a.cpp`. */
  lemma PathStringExamples()
    ensures PathString(["", "r", "a.cpp"]) == "/r/a.cpp"
    ensures PathString(["a.cpp"]) == "a.cpp"
  {
    assert ["", "r", "a.cpp"][1..] == ["r", "a.cpp"];
    assert ["r", "a.cpp"][1..] == ["a.cpp"];
  }

  /** `[root / d for d in ignore_dirs]`: each given name joined to the
      root, nothing matched by pattern. */
  function JoinIgnores(root: Path, names: seq<Path>): (r: seq<Path>)
    ensures forall p :: p in r <==> exists n :: n in names && p == root + n
  {
    if names == [] then [] else [root + names[0]] + JoinIgnores(root, names[1..])
  }

  /** One result of `root.glob(pattern)` and whether `is_dir()` holds of it. */
  datatype GlobHit = GlobHit(path: Path, isDir: bool)

  predicate DirHitAt(matches: seq<seq<GlobHit>>, i: int, j: int, p: Path)
  {
    0 <= i < |matches| && 0 <= j < |matches[i]| && matches[i][j].isDir && matches[i][j].path == p
  }

  /** Every glob match, over all patterns, that is a directory.
      `matches[i]` is what the glob of the i-th pattern returned. */
  function DirHits(matches: seq<seq<GlobHit>>): (r: set<Path>)
    ensures forall p :: p in r <==> exists i, j :: DirHitAt(matches, i, j, p)
  {
    var r := set i, j | 0 <= i < |matches| && 0 <= j < |matches[i]| && matches[i][j].isDir :: matches[i][j].path;
    assert forall p :: p in r <==> exists i, j :: DirHitAt(matches, i, j, p) by {
      forall p ensures p in r <==> exists i, j :: DirHitAt(matches, i, j, p) {
        if exists i, j :: DirHitAt(matches, i, j, p) {
          var i, j :| DirHitAt(matches, i, j, p);
          assert matches[i][j].path in r;
        }
        if p in r {
          var i, j :| 0 <= i < |matches| && 0 <= j < |matches[i]| && matches[i][j].isDir && matches[i][j].path == p;
          assert DirHitAt(matches, i, j, p);
        }
      }
    }
    r
  }

  /** `resolve_ignore_dirs`: collects the directory matches of every
      pattern; files matched by a pattern are dropped. */
  method ResolveIgnoreDirs(matches: seq<seq<GlobHit>>) returns (resolved: set<Path>)
    ensures forall p :: p in resolved <==> exists i, j :: DirHitAt(matches, i, j, p)
    ensures resolved == DirHits(matches)
  {
    resolved := {};
    var i := 0;
    while i < |matches|
      invariant 0 <= i <= |matches|
      invariant forall p :: p in resolved <==> exists i', j :: i' < i && DirHitAt(matches, i', j, p)
    {
      var j := 0;
      while j < |matches[i]|
        invariant 0 <= j <= |matches[i]|
        invariant forall p :: p in resolved <==>
          (exists i', j' :: i' < i && DirHitAt(matches, i', j', p)) || (exists j' :: j' < j && DirHitAt(matches, i, j', p))
      {
        var hit := matches[i][j];
        if hit.isDir {
          assert DirHitAt(matches, i, j, hit.path);
          resolved := resolved + {hit.path};
        }
        j := j + 1;
      }
      i := i + 1;
    }
  }
}
