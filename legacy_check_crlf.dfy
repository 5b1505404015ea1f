/** The repository-root CRLF checker, the older form of the package's:
    `os.walk` with the ignored directories pruned from `dirs`, links to
    files skipped in the loop, results as `relpath` strings sorted as
    strings, and ignore names joined to the repository path (no globs). */
module LegacyCheckCrlf {
  import opened Text
  import opened FsTree
  import opened Sorting
  import CheckCrlf

  /** `has_crlf_endings`, written with nested tests: true only when the
      file was read, holds `b"\r\n"` and holds no NUL byte. */
  function HasCrlfEndings(content: ReadResult): bool
  {
    if content.Bytes? && Contains(content.data, [CheckCrlf.CR, CheckCrlf.LF]) then
      if Contains(content.data, [CheckCrlf.NUL]) then false else true
    else false
  }

  /** Both scripts decide "has CRLF endings" alike on every content. */
  lemma HasCrlfEndingsAgree(content: ReadResult)
    ensures HasCrlfEndings(content) == CheckCrlf.HasCrlfEndings(content)
    ensures HasCrlfEndings(content) <==>
      && content.Bytes?
      && (exists i :: 0 <= i < |content.data| - 1 && content.data[i] == CheckCrlf.CR && content.data[i + 1] == CheckCrlf.LF)
      && CheckCrlf.NUL !in content.data
  {
    CheckCrlf.HasCrlfEndingsMeans(content);
  }

  /** The `relpath` strings of the files among the walked `entries` that
      are not links and have CRLF endings, in walk order. */
  function CrlfFiles(root: Path, entries: seq<Entry>): seq<string>
    requires AllUnder(root, entries)
  {
    if entries == [] then []
    else
      var last := entries[|entries| - 1];
      CrlfFiles(root, entries[..|entries| - 1])
        + (if !last.node.isLink && HasCrlfEndings(Read(last.node)) then [PathString(last.path[|root|..])] else [])
  }

  lemma {:induction false} CrlfFilesMember(root: Path, entries: seq<Entry>, s: string)
    requires AllUnder(root, entries)
    ensures s in CrlfFiles(root, entries) <==>
      exists e :: e in entries && !e.node.isLink && HasCrlfEndings(Read(e.node)) && s == PathString(e.path[|root|..])
  {
    if entries != [] {
      var init := entries[..|entries| - 1];
      var last := entries[|entries| - 1];
      assert entries == init + [last];
      CrlfFilesMember(root, init, s);
      if e :| e in entries && !e.node.isLink && HasCrlfEndings(Read(e.node)) && s == PathString(e.path[|root|..]) {
        if e != last {
          assert e in init;
        }
      }
    }
  }

  /** `find_crlf_files`: walk the tree from `top`, pruning `excluded`
      directories, and collect the relative path of every file that is not
      a link and has CRLF endings. */
  method FindCrlfFiles(root: Path, top: Node, excluded: set<Path>) returns (crlfFiles: seq<string>)
    requires top.Dir?
    ensures AllUnder(root, Walk(root, top, excluded))
    ensures crlfFiles == CrlfFiles(root, Walk(root, top, excluded))
  {
    var files := Walk(root, top, excluded);
    WalkAllUnder(root, top, excluded);
    crlfFiles := [];
    var i := 0;
    while i < |files|
      invariant 0 <= i <= |files|
      invariant AllUnder(root, files[..i])
      invariant crlfFiles == CrlfFiles(root, files[..i])
    {
      var file := files[i];
      assert files[..i + 1][..i] == files[..i];
      if file.node.isLink {
        i := i + 1;
        continue;
      }
      if HasCrlfEndings(Read(file.node)) {
        crlfFiles := crlfFiles + [PathString(file.path[|root|..])];
      }
      i := i + 1;
    }
    assert files[..i] == files;
  }

  /** `check_crlf_in_root`: the ignore names are joined to the repository
      path; returns the exit status and the printed list, sorted as
      strings. */
  method CheckCrlfInRoot(root: Path, top: Option<Node>, ignoreDirs: seq<Path>)
    returns (exitCode: int, listed: seq<string>)
    ensures !(top.Some? && top.value.Dir?) ==> exitCode == 1 && listed == []
    ensures top.Some? && top.value.Dir? ==>
      var excluded := set p | p in JoinIgnores(root, ignoreDirs);
      && AllUnder(root, Walk(root, top.value, excluded))
      && listed == Sort(CrlfFiles(root, Walk(root, top.value, excluded)), StrLe)
      && exitCode == (if listed == [] then 0 else 1)
  {
    if !(top.Some? && top.value.Dir?) {
      return 1, [];
    }
    var absIgnoreDirs := JoinIgnores(root, ignoreDirs);
    var found := FindCrlfFiles(root, top.value, set p | p in absIgnoreDirs);
    listed := Sort(found, StrLe);
    exitCode := if found != [] then 1 else 0;
    SortPermutes(found, StrLe);
    assert found == [] <==> listed == [];
  }

  /** The two checkers report the same files for the same excluded
      directories: a string is in the root script's list exactly when it
      is the text of a path in the package's list. Only the printed order
      can differ. */
  lemma SameFilesAsPackage(root: Path, top: Node, excluded: set<Path>, s: string)
    requires top.Dir?
    ensures AllUnder(root, Walk(root, top, excluded)) && AllUnder(root, ScanDirectory(root, top, excluded))
    ensures s in CrlfFiles(root, Walk(root, top, excluded)) <==>
      exists rel :: rel in CheckCrlf.CrlfFound(root, ScanDirectory(root, top, excluded)) && s == PathString(rel)
  {
    var walked := Walk(root, top, excluded);
    var scanned := ScanDirectory(root, top, excluded);
    WalkAllUnder(root, top, excluded);
    ScanAllUnder(root, top, excluded);
    CrlfFilesMember(root, walked, s);
    if s in CrlfFiles(root, walked) {
      var e :| e in walked && !e.node.isLink && HasCrlfEndings(Read(e.node)) && s == PathString(e.path[|root|..]);
      ScanIsWalkWithoutLinks(root, top, excluded, e);
      HasCrlfEndingsAgree(Read(e.node));
      var rel := e.path[|root|..];
      assert e.path == root + rel by { assert e.path == e.path[..|root|] + e.path[|root|..]; }
      CheckCrlf.CrlfFoundMember(root, scanned, rel);
    }
    if rel :| rel in CheckCrlf.CrlfFound(root, scanned) && s == PathString(rel) {
      CheckCrlf.CrlfFoundMember(root, scanned, rel);
      var e :| e in scanned && CheckCrlf.HasCrlfEndings(Read(e.node)) && e.path == root + rel;
      ScanIsWalkWithoutLinks(root, top, excluded, e);
      HasCrlfEndingsAgree(Read(e.node));
      assert e.path[|root|..] == rel;
    }
  }

  /** The printed orders differ: the package sorts paths part by part,
      this script sorts the relative path strings, and `-` sorts before
      `/`. So the package prints `a/x` before `a-b/x` ... */
  lemma PackageOrderExample()
    ensures Sort([["a-b", "x"], ["a", "x"]], PartsLe) == [["a", "x"], ["a-b", "x"]]
  {
    SortTwo(["a-b", "x"], ["a", "x"], PartsLe);
    assert !StrLe("a-b", "a") by {
      assert "a-b"[1..] == "-b" && "a"[1..] == "";
    }
    assert !PartsLe(["a-b", "x"], ["a", "x"]);
  }

  /** ... and this script prints the same two files the other way round. */
  lemma ScriptOrderExample()
    ensures PathString(["a-b", "x"]) == "a-b/x" && PathString(["a", "x"]) == "a/x"
    ensures Sort(["a-b/x", "a/x"], StrLe) == ["a-b/x", "a/x"]
  {
    SortTwo("a-b/x", "a/x", StrLe);
    assert "a-b/x"[1..] == "-b/x" && "a/x"[1..] == "/x";
    assert StrLe("a-b/x", "a/x");
  }
}
