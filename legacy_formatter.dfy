/** The repository-root formatter and the parts of `omni_formatter.py`
    that are the same: file selection over `os.walk` with the ignored
    directories pruned from `dirnames` (links to files are kept), the
    extension taken by `os.path.splitext`, and a tool check that exits
    when a tool is missing. */
module LegacyFormatter {
  import opened Text
  import opened FsTree
  import F = Formatter

  /** Every character of `s` is a dot. */
  predicate AllDots(s: string)
  {
    forall k :: 0 <= k < |s| ==> s[k] == '.'
  }

  /** `os.path.splitext(name)[1]` for a bare file name: from the last dot
      on, unless only dots come before it (a leading dot starts a hidden
      name, not an extension). */
  function SplitExt(name: string): string
  {
    var dot := F.RFind(name, '.');
    if dot > 0 && !AllDots(name[..dot]) then name[dot..] else ""
  }

  /** The classification of `find_all_files` here: the name lookup, else
      the extension lookup on `splitext`. */
  function Classify(name: string): Option<F.Config>
  {
    var names := F.Lookup(F.FormatterConfig, F.ByName);
    var exts := F.Lookup(F.FormatterConfig, F.ByExtension);
    if name in names then Some(names[name])
    else if SplitExt(name) in exts then Some(exts[SplitExt(name)])
    else None
  }

  /** The two classifications agree on every name except those whose part
      before the last dot is all dots (such as `..cpp`). */
  lemma ClassifyAgrees(name: string)
    ensures Classify(name) == F.Classify(name) ||
      (0 < F.RFind(name, '.') && AllDots(name[..F.RFind(name, '.')]))
  {
    var dot := F.RFind(name, '.');
    F.FormatterConfigDisjoint();
    F.LookupOwner(F.FormatterConfig, F.ByExtension, ".");
    F.LookupOwner(F.FormatterConfig, F.ByExtension, "");
    assert F.FormatterConfig[0] == F.ClangFormat && F.FormatterConfig[1] == F.CmakeFormat;
    if dot == |name| - 1 && dot > 0 && !AllDots(name[..dot]) {
      assert SplitExt(name) == "." by { assert name[dot..] == [name[dot]]; }
    }
  }

  /** ... and they do differ there: the package formats `..cpp` with
      clang-format, the root scripts skip it. */
  lemma ClassifyDiffersOnLeadingDots()
    ensures F.Classify("..cpp") == Some(F.ClangFormat)
    ensures Classify("..cpp") == None
  {
    F.RFindAt("..cpp", '.', 1);
    F.ClassifyMeans("..cpp", F.ClangFormat);
    assert F.Suffix("..cpp") == ".cpp";
    assert SplitExt("..cpp") == "" by { assert AllDots("..cpp"[..1]); }
    F.FormatterConfigDisjoint();
    F.LookupOwner(F.FormatterConfig, F.ByExtension, "");
    F.LookupOwner(F.FormatterConfig, F.ByName, "..cpp");
    assert F.FormatterConfig[0] == F.ClangFormat && F.FormatterConfig[1] == F.CmakeFormat;
  }

  lemma WalkNamesMatch(root: Path, top: Node, excluded: set<Path>)
    requires top.Dir?
    ensures F.NamesMatch(Walk(root, top, excluded))
  {
    forall e | e in Walk(root, top, excluded)
      ensures |e.path| > 0 && e.path[|e.path| - 1] == e.node.name
    {
      WalkUnderRoot(root, top, excluded, e);
    }
  }

  /** `find_all_files`: `ignoreDirs` are the already joined ignore paths;
      walk the tree, pruning them, and record the config of every file
      that has one. */
  method FindAllFiles(root: Path, top: Option<Node>, ignoreDirs: seq<Path>) returns (r: F.Selection)
    ensures r.RootNotDir? <==> !(top.Some? && top.value.Dir?)
    ensures r.Files? ==> r.files == F.Select(Walk(root, top.value, set d | d in ignoreDirs), Classify)
  {
    var absoluteIgnoreDirs := set d | d in ignoreDirs;
    if !(top.Some? && top.value.Dir?) {
      return F.RootNotDir;
    }
    var walked := Walk(root, top.value, absoluteIgnoreDirs);
    var files: map<Path, F.Config> := map[];
    var i := 0;
    while i < |walked|
      invariant 0 <= i <= |walked|
      invariant files == F.Select(walked[..i], Classify)
    {
      var file := walked[i];
      assert walked[..i + 1][..i] == walked[..i];
      var config := Classify(file.node.name);
      if config.Some? {
        files := files[file.path := config.value];
      }
      i := i + 1;
    }
    assert walked[..i] == walked;
    r := F.Files(files);
  }

  /** What the file map holds: a key is the path of a walked file with a
      formatter (links to files included), mapped to that formatter, and
      never inside a pruned directory. */
  lemma FindAllFilesSelected(root: Path, top: Node, excluded: set<Path>, p: Path)
    requires top.Dir?
    ensures var files := F.Select(Walk(root, top, excluded), Classify);
      && (p in files <==> exists e :: e in Walk(root, top, excluded) && e.path == p && Classify(e.node.name).Some?)
      && (p in files ==> |p| > |root| && p[..|root|] == root && Classify(p[|p| - 1]) == Some(files[p]))
      && (p in files ==> forall k :: |root| < k < |p| ==> p[..k] !in excluded)
  {
    var walked := Walk(root, top, excluded);
    WalkNamesMatch(root, top, excluded);
    F.SelectMember(walked, Classify, p);
    if p in F.Select(walked, Classify) {
      var e :| e in walked && e.path == p && Classify(e.node.name).Some?;
      WalkUnderRoot(root, top, excluded, e);
      forall k | |root| < k < |p| ensures p[..k] !in excluded {
        WalkPruned(root, top, excluded, e, k);
      }
    }
  }

  /** For a file that is not a link and whose name both versions classify
      alike, the root formatter selects it exactly when the package one
      does, given the same ignored directories. */
  lemma SameSelectionAsPackage(root: Path, top: Node, excluded: set<Path>, e: Entry)
    requires top.Dir? && e in Walk(root, top, excluded) && !e.node.isLink
    requires Classify(e.node.name) == F.Classify(e.node.name)
    ensures e.path in F.Select(Walk(root, top, excluded), Classify) <==>
      e.path in F.Select(ScanDirectory(root, top, excluded), F.Classify)
  {
    WalkNamesMatch(root, top, excluded);
    F.ScanNamesMatch(root, top, excluded);
    ScanIsWalkWithoutLinks(root, top, excluded, e);
    F.SelectEntry(Walk(root, top, excluded), Classify, e);
    F.SelectEntry(ScanDirectory(root, top, excluded), F.Classify, e);
  }

  /** The formatter command line: the file path alone when checking, with
      `-i` after it when formatting in place. */
  function CommandArgs(command: string, path: Path, check: bool): seq<string>
  {
    if check then [command, PathString(path)] else [command, PathString(path), "-i"]
  }

  /** It is the package's command line, built in two steps there. */
  lemma CommandArgsAgree(command: string, path: Path, check: bool)
    ensures CommandArgs(command, path, check) == F.CommandArgs(command, path, check)
    ensures |CommandArgs(command, path, check)| == if check then 2 else 3
  {
  }

  /** `process_one_file` of the root formatter: the command line is built
      in each branch, and the new content is the tool's output when
      checking, else the file read again. */
  function ProcessOneFile(path: Path, command: string, check: bool, original: ReadResult,
                          tool: seq<string> -> F.ToolRun, reread: ReadResult, diff: seq<string>): (r: F.Outcome)
    ensures r.path == path
    ensures r.changed <==>
      && original.Bytes?
      && tool(CommandArgs(command, path, check)).Completed?
      && (if check then tool(CommandArgs(command, path, check)).stdout != original.data
          else reread.Bytes? && reread.data != original.data)
    ensures r.diff.Some? <==> r.changed && check
  {
    if original.ReadError? then F.Outcome(path, false, None)
    else if check then
      var result := tool([command, PathString(path)]);
      if result.Raised? then F.Outcome(path, false, None)
      else if original.data == result.stdout then F.Outcome(path, false, None)
      else F.Outcome(path, true, Some(Join("\n", F.ChangeLines(diff))))
    else
      var result := tool([command, PathString(path), "-i"]);
      if result.Raised? then F.Outcome(path, false, None)
      else if reread.ReadError? then F.Outcome(path, false, None)
      else if original.data == reread.data then F.Outcome(path, false, None)
      else F.Outcome(path, true, None)
  }

  /** The root formatter's per-file outcome is the package's, on every
      input. */
  lemma ProcessOneFileAgrees(path: Path, command: string, check: bool, original: ReadResult,
                             tool: seq<string> -> F.ToolRun, reread: ReadResult, diff: seq<string>)
    ensures ProcessOneFile(path, command, check, original, tool, reread, diff) ==
      F.ProcessOneFile(path, command, check, original, tool, reread, diff)
  {
    CommandArgsAgree(command, path, check);
  }

  /** `check_for_tools` of the root scripts: try `command --version` for
      every configured command (`available` holds those for which it
      succeeds), report each one missing, and exit 1 if any is; otherwise
      carry on (status 0). */
  method CheckForTools(available: set<string>) returns (exitCode: int, missing: seq<string>)
    ensures exitCode == 1 <==> exists c :: c in F.FormatterConfig && c.command !in available
    ensures exitCode == 0 || exitCode == 1
    ensures forall m :: m in missing <==> exists c :: c in F.FormatterConfig && c.command == m && m !in available
  {
    var allToolsFound := true;
    missing := [];
    var i := 0;
    while i < |F.FormatterConfig|
      invariant 0 <= i <= |F.FormatterConfig|
      invariant allToolsFound <==> forall k :: 0 <= k < i ==> F.FormatterConfig[k].command in available
      invariant forall m :: m in missing <==> exists k :: 0 <= k < i && F.FormatterConfig[k].command == m && m !in available
    {
      var command := F.FormatterConfig[i].command;
      if command !in available {
        missing := missing + [command];
        allToolsFound := false;
      }
      i := i + 1;
    }
    exitCode := if !allToolsFound then 1 else 0;
  }
}
