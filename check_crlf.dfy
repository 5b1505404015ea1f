/** The package's CRLF checker: every file under the repository that is
    not a link, not inside an ignored directory, contains a CR LF pair and
    no NUL byte is reported by its path relative to the repository; the
    exit status is 1 when any is reported or the repository is not a
    directory, else 0. */
module CheckCrlf {
  import opened Text
  import opened FsTree
  import opened Sorting

  const CR: byte := 13
  const LF: byte := 10
  const NUL: byte := 0

  /** `has_crlf_endings`: a read error, no `b"\r\n"`, or a NUL byte (taken
      as a binary file) all give false. */
  function HasCrlfEndings(content: ReadResult): bool
  {
    match content
    case ReadError => false
    case Bytes(data) =>
      if !Contains(data, [CR, LF]) then false
      else if Contains(data, [NUL]) then false
      else true
  }

  /** What `has_crlf_endings` decides, byte by byte: the file was read,
      some CR is directly followed by LF, and no byte is NUL. */
  lemma HasCrlfEndingsMeans(content: ReadResult)
    ensures HasCrlfEndings(content) <==>
      && content.Bytes?
      && (exists i :: 0 <= i < |content.data| - 1 && content.data[i] == CR && content.data[i + 1] == LF)
      && NUL !in content.data
  {
    if content.Bytes? {
      ContainsPair(content.data, CR, LF);
      ContainsSingle(content.data, NUL);
    }
  }

  /** The paths, relative to `root`, of the files among `entries` that
      have CRLF endings, in the order the scan yields them. */
  function CrlfFound(root: Path, entries: seq<Entry>): seq<Path>
    requires AllUnder(root, entries)
  {
    if entries == [] then []
    else
      var last := entries[|entries| - 1];
      CrlfFound(root, entries[..|entries| - 1])
        + (if HasCrlfEndings(Read(last.node)) then [last.path[|root|..]] else [])
  }

  lemma {:induction false} CrlfFoundMember(root: Path, entries: seq<Entry>, rel: Path)
    requires AllUnder(root, entries)
    ensures rel in CrlfFound(root, entries) <==>
      exists e :: e in entries && HasCrlfEndings(Read(e.node)) && e.path == root + rel
  {
    if entries != [] {
      var init := entries[..|entries| - 1];
      var last := entries[|entries| - 1];
      assert entries == init + [last];
      CrlfFoundMember(root, init, rel);
      assert last.path == root + last.path[|root|..] by {
        assert last.path == last.path[..|root|] + last.path[|root|..];
      }
      if e :| e in entries && HasCrlfEndings(Read(e.node)) && e.path == root + rel {
        if e != last {
          assert e in init;
        } else {
          assert rel == last.path[|root|..];
        }
      }
    }
  }

  lemma {:induction false} CrlfFoundUnique(root: Path, entries: seq<Entry>)
    requires AllUnder(root, entries) && DistinctPaths(entries)
    ensures forall i, j :: 0 <= i < j < |CrlfFound(root, entries)| ==>
      CrlfFound(root, entries)[i] != CrlfFound(root, entries)[j]
  {
    if entries != [] {
      var init := entries[..|entries| - 1];
      var last := entries[|entries| - 1];
      assert DistinctPaths(init);
      CrlfFoundUnique(root, init);
      if HasCrlfEndings(Read(last.node)) {
        var rel := last.path[|root|..];
        if rel in CrlfFound(root, init) {
          CrlfFoundMember(root, init, rel);
          assert false;
        }
      }
    }
  }

  /** `check_crlf_in_root`. `top` is what the repository path names (None
      when nothing is there); `matches` are the glob results of the ignore
      patterns. Returns the exit status and the paths printed, in order. */
  method CheckCrlfInRoot(root: Path, top: Option<Node>, matches: seq<seq<GlobHit>>)
    returns (exitCode: int, listed: seq<Path>)
    ensures !(top.Some? && top.value.Dir?) ==> exitCode == 1 && listed == []
    ensures top.Some? && top.value.Dir? ==>
      && AllUnder(root, ScanDirectory(root, top.value, DirHits(matches)))
      && listed == Sort(CrlfFound(root, ScanDirectory(root, top.value, DirHits(matches))), PartsLe)
      && exitCode == (if listed == [] then 0 else 1)
  {
    if !(top.Some? && top.value.Dir?) {
      return 1, [];
    }
    var ignored := ResolveIgnoreDirs(matches);
    var files := ScanDirectory(root, top.value, ignored);
    ScanAllUnder(root, top.value, ignored);
    var found: seq<Path> := [];
    var i := 0;
    while i < |files|
      invariant 0 <= i <= |files|
      invariant AllUnder(root, files[..i])
      invariant found == CrlfFound(root, files[..i])
    {
      var file := files[i];
      assert files[..i + 1][..i] == files[..i];
      if HasCrlfEndings(Read(file.node)) {
        var rel := RelativeTo(file.path, root);
        found := found + [rel.value];
      }
      i := i + 1;
    }
    assert files[..i] == files;
    listed := Sort(found, PartsLe);
    exitCode := if listed == [] then 0 else 1;
    SortPermutes(found, PartsLe);
  }

  /** What the report lists, on a real directory tree: a path exactly
      when the scan reaches a file there that has CRLF endings. */
  lemma CheckCrlfListed(root: Path, top: Node, excluded: set<Path>, rel: Path)
    requires top.Dir? && WellFormed(top)
    ensures AllUnder(root, ScanDirectory(root, top, excluded))
    ensures rel in Sort(CrlfFound(root, ScanDirectory(root, top, excluded)), PartsLe) <==>
      exists f :: !top.denied && Reach(root, top.children, rel, excluded) == Some(f) && HasCrlfEndings(Read(f))
  {
    var files := ScanDirectory(root, top, excluded);
    ScanAllUnder(root, top, excluded);
    var found := CrlfFound(root, files);
    var listed := Sort(found, PartsLe);
    SortPermutes(found, PartsLe);
    assert rel in listed <==> rel in found by {
      assert rel in listed <==> rel in multiset(listed);
      assert rel in found <==> rel in multiset(found);
    }
    CrlfFoundMember(root, files, rel);
    if rel in found {
      var e :| e in files && HasCrlfEndings(Read(e.node)) && e.path == root + rel;
      ScanDirectoryReach(root, top, rel, e.node, excluded);
    }
    if f :| !top.denied && Reach(root, top.children, rel, excluded) == Some(f) && HasCrlfEndings(Read(f)) {
      ScanDirectoryReach(root, top, rel, f, excluded);
      assert Entry(root + rel, f) in files;
    }
  }

  /** The report is in path order and names each file once. */
  lemma CheckCrlfOrdered(root: Path, top: Node, excluded: set<Path>)
    requires top.Dir? && WellFormed(top)
    ensures AllUnder(root, ScanDirectory(root, top, excluded))
    ensures var listed := Sort(CrlfFound(root, ScanDirectory(root, top, excluded)), PartsLe);
      && Sorted(listed, PartsLe)
      && forall i, j :: 0 <= i < j < |listed| ==> listed[i] != listed[j]
  {
    var files := ScanDirectory(root, top, excluded);
    ScanAllUnder(root, top, excluded);
    var found := CrlfFound(root, files);
    SortPermutes(found, PartsLe);
    assert TotalPreorder(PartsLe) by {
      forall a, b, c { PartsLeOrder(a, b, c); }
    }
    SortSorted(found, PartsLe);
    ScanDirectoryDistinct(root, top, excluded);
    CrlfFoundUnique(root, files);
    UniquePermutation(found, Sort(found, PartsLe));
  }

  /** A permutation of a list without repeats has no repeats. */
  lemma UniquePermutation<T>(a: seq<T>, b: seq<T>)
    requires multiset(a) == multiset(b)
    requires forall i, j :: 0 <= i < j < |a| ==> a[i] != a[j]
    ensures forall i, j :: 0 <= i < j < |b| ==> b[i] != b[j]
  {
    forall x ensures multiset(a)[x] <= 1 {
      CountAtMostOne(a, x);
    }
    forall i, j | 0 <= i < j < |b| ensures b[i] != b[j] {
      if b[i] == b[j] {
        TwoPositions(b, i, j);
        assert false;
      }
    }
  }

  lemma {:induction false} CountAtMostOne<T>(a: seq<T>, x: T)
    requires forall i, j :: 0 <= i < j < |a| ==> a[i] != a[j]
    ensures multiset(a)[x] <= 1
  {
    if a != [] {
      var t := a[1..];
      assert a == [a[0]] + t;
      CountAtMostOne(t, x);
      if a[0] == x {
        assert x !in t by {
          forall k | 0 <= k < |t| ensures t[k] != x { assert t[k] == a[k + 1]; }
        }
      }
    }
  }

  lemma {:induction false} TwoPositions<T>(b: seq<T>, i: int, j: int)
    requires 0 <= i < j < |b| && b[i] == b[j]
    ensures multiset(b)[b[i]] >= 2
  {
    assert b == b[..j] + [b[j]] + b[j + 1..];
    assert b[i] in b[..j] by { assert b[..j][i] == b[i]; }
    assert multiset(b)[b[i]] == multiset(b[..j])[b[i]] + 1 + multiset(b[j + 1..])[b[i]];
  }

  /** The status in words: nothing is listed (status 0) exactly when no
      file the scan reaches has CRLF endings. */
  lemma ExitStatusMeaning(root: Path, top: Node, excluded: set<Path>)
    requires top.Dir? && WellFormed(top)
    ensures AllUnder(root, ScanDirectory(root, top, excluded))
    ensures Sort(CrlfFound(root, ScanDirectory(root, top, excluded)), PartsLe) == [] <==>
      top.denied || forall rel, f :: Reach(root, top.children, rel, excluded) == Some(f) ==> !HasCrlfEndings(Read(f))
  {
    ScanAllUnder(root, top, excluded);
    var listed := Sort(CrlfFound(root, ScanDirectory(root, top, excluded)), PartsLe);
    if listed != [] {
      CheckCrlfListed(root, top, excluded, listed[0]);
    } else {
      forall rel, f | Reach(root, top.children, rel, excluded) == Some(f) && !top.denied
        ensures !HasCrlfEndings(Read(f))
      {
        CheckCrlfListed(root, top, excluded, rel);
      }
    }
  }
}
