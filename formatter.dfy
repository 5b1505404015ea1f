/** The package formatter: choose a formatter per file (by exact file name
    first, then by suffix), run it on every chosen file, keep the files it
    changed, and report them sorted; in check mode any such file makes the
    exit status 1. */
module Formatter {
  import opened Text
  import opened FsTree
  import opened Sorting

  /** One entry of `FORMATTER_CONFIG`. */
  datatype Config = Config(command: string, extensions: set<string>, names: set<string>)

  const ClangFormat: Config :=
    Config("clang-format", {".h", ".hpp", ".hxx", ".hh", ".c", ".cpp", ".cxx", ".cc"}, {})
  const CmakeFormat: Config :=
    Config("cmake-format", {".cmake"}, {"CMakeLists.txt"})

  /** `FORMATTER_CONFIG.values()`, in insertion order. */
  const FormatterConfig: seq<Config> := [ClangFormat, CmakeFormat]

  datatype LookupKind = ByName | ByExtension

  function KeysOf(c: Config, kind: LookupKind): set<string>
  {
    match kind
    case ByName => c.names
    case ByExtension => c.extensions
  }

  /** `{key: config for config in configs for key in config[...]}`: a
      later config overwrites an earlier one on a shared key. */
  function Lookup(configs: seq<Config>, kind: LookupKind): map<string, Config>
  {
    if configs == [] then map[]
    else
      var last := configs[|configs| - 1];
      Lookup(configs[..|configs| - 1], kind) + map k | k in KeysOf(last, kind) :: last
  }

  /** No file name and no extension is claimed by two configs. */
  predicate Disjoint(configs: seq<Config>)
  {
    forall i, j :: 0 <= i < j < |configs| ==>
      configs[i].names !! configs[j].names && configs[i].extensions !! configs[j].extensions
  }

  lemma FormatterConfigDisjoint()
    ensures Disjoint(FormatterConfig)
    ensures ClangFormat.command != CmakeFormat.command
  {
  }

  /** With disjoint configs each lookup is well defined: a key is present
      exactly when some config claims it, and it maps to that config. */
  lemma {:induction false} LookupOwner(configs: seq<Config>, kind: LookupKind, key: string)
    requires Disjoint(configs)
    ensures key in Lookup(configs, kind) <==> exists i :: 0 <= i < |configs| && key in KeysOf(configs[i], kind)
    ensures forall i :: 0 <= i < |configs| && key in KeysOf(configs[i], kind) ==> Lookup(configs, kind)[key] == configs[i]
  {
    if configs != [] {
      var n := |configs| - 1;
      var init := configs[..n];
      assert Disjoint(init) by {
        forall i, j | 0 <= i < j < |init|
          ensures init[i].names !! init[j].names && init[i].extensions !! init[j].extensions
        {
          assert init[i] == configs[i] && init[j] == configs[j];
        }
      }
      LookupOwner(init, kind, key);
      if i :| 0 <= i < |configs| && key in KeysOf(configs[i], kind) {
        if i < n { assert init[i] == configs[i]; }
      }
      forall i | 0 <= i < |configs| && key in KeysOf(configs[i], kind)
        ensures Lookup(configs, kind)[key] == configs[i]
      {
        if i < n {
          assert init[i] == configs[i];
          assert key !in KeysOf(configs[n], kind);
        }
      }
    }
  }

  /** The last position of `c` in `s`, or -1 (`str.rfind`). */
  function RFind(s: string, c: char): (r: int)
    ensures -1 <= r < |s|
    ensures r >= 0 ==> s[r] == c
    ensures forall k :: r < k < |s| ==> s[k] != c
  {
    if s == [] then -1
    else if s[|s| - 1] == c then |s| - 1
    else RFind(s[..|s| - 1], c)
  }

  /** `rfind` finds the last occurrence. */
  lemma RFindAt(s: string, c: char, i: int)
    requires 0 <= i < |s| && s[i] == c
    requires forall k :: i < k < |s| ==> s[k] != c
    ensures RFind(s, c) == i
  {
  }

  /** pathlib's `suffix`: from the last dot on, unless that dot starts or
      ends the name. */
  function Suffix(name: string): string
  {
    var i := RFind(name, '.');
    if 0 < i < |name| - 1 then name[i..] else ""
  }

  /** The classification of `find_all_files`: the config whose file names
      hold `name`, else the one whose extensions hold its suffix. */
  function Classify(name: string): Option<Config>
  {
    if name in Lookup(FormatterConfig, ByName) then Some(Lookup(FormatterConfig, ByName)[name])
    else if Suffix(name) in Lookup(FormatterConfig, ByExtension) then Some(Lookup(FormatterConfig, ByExtension)[Suffix(name)])
    else None
  }

  /** Classification in terms of the configs themselves: an exact name
      match wins; otherwise the suffix decides; otherwise the file is not
      selected. */
  lemma ClassifyMeans(name: string, c: Config)
    requires c in FormatterConfig
    ensures name in c.names ==> Classify(name) == Some(c)
    ensures (forall d :: d in FormatterConfig ==> name !in d.names) && Suffix(name) in c.extensions ==> Classify(name) == Some(c)
    ensures Classify(name) == None <==>
      forall d :: d in FormatterConfig ==> name !in d.names && Suffix(name) !in d.extensions
  {
    FormatterConfigDisjoint();
    LookupOwner(FormatterConfig, ByName, name);
    LookupOwner(FormatterConfig, ByExtension, Suffix(name));
    assert FormatterConfig[0] == ClangFormat && FormatterConfig[1] == CmakeFormat;
  }

  /** The test suite's cases: C++ sources and headers are formatted with
      clang-format. */
  lemma ClassifyCppExamples()
    ensures Classify("test.cpp") == Some(ClangFormat)
    ensures Classify("test.h") == Some(ClangFormat)
  {
    RFindAt("test.cpp", '.', 4);
    RFindAt("test.h", '.', 4);
    ClassifyMeans("test.cpp", ClangFormat);
    ClassifyMeans("test.h", ClangFormat);
  }

  /** CMake scripts are selected by exact name or by suffix. */
  lemma ClassifyCmakeExamples()
    ensures Classify("CMakeLists.txt") == Some(CmakeFormat)
    ensures Classify("tools.cmake") == Some(CmakeFormat)
  {
    RFindAt("tools.cmake", '.', 5);
    ClassifyMeans("CMakeLists.txt", CmakeFormat);
    ClassifyMeans("tools.cmake", CmakeFormat);
  }

  /** Other files are not selected. */
  lemma ClassifyOtherExamples()
    ensures Classify("random.txt") == None
    ensures Classify("test.py") == None
  {
    RFindAt("random.txt", '.', 6);
    RFindAt("test.py", '.', 4);
    ClassifyMeans("random.txt", CmakeFormat);
    ClassifyMeans("test.py", CmakeFormat);
  }

  /* ---------------- find_all_files ---------------- */

  /** Every entry is named by the last part of its path. */
  predicate NamesMatch(entries: seq<Entry>)
  {
    forall e :: e in entries ==> |e.path| > 0 && e.path[|e.path| - 1] == e.node.name
  }

  /** The file map built from `entries` by a classification, in order;
      a later entry with the same path replaces an earlier one. */
  function Select(entries: seq<Entry>, classify: string -> Option<Config>): map<Path, Config>
  {
    if entries == [] then map[]
    else
      var last := entries[|entries| - 1];
      var files := Select(entries[..|entries| - 1], classify);
      match classify(last.node.name)
      case Some(c) => files[last.path := c]
      case None => files
  }

  lemma {:induction false} SelectMember(entries: seq<Entry>, classify: string -> Option<Config>, p: Path)
    requires NamesMatch(entries)
    ensures p in Select(entries, classify) <==>
      exists e :: e in entries && e.path == p && classify(e.node.name).Some?
    ensures p in Select(entries, classify) ==> |p| > 0 && classify(p[|p| - 1]) == Some(Select(entries, classify)[p])
  {
    if entries != [] {
      var init := entries[..|entries| - 1];
      var last := entries[|entries| - 1];
      assert entries == init + [last];
      SelectMember(init, classify, p);
      if e :| e in entries && e.path == p && classify(e.node.name).Some? {
        if e != last { assert e in init; }
      }
    }
  }

  /** For an entry in the list, its path is selected exactly when its own
      name classifies: any entry at the same path has the same name. */
  lemma SelectEntry(entries: seq<Entry>, classify: string -> Option<Config>, e: Entry)
    requires NamesMatch(entries) && e in entries
    ensures e.path in Select(entries, classify) <==> classify(e.node.name).Some?
  {
    SelectMember(entries, classify, e.path);
  }

  /** Outcome of `find_all_files`: exit status 1 when the root is not a
      directory, or the map from each selected file to its config. */
  datatype Selection = RootNotDir | Files(files: map<Path, Config>)

  /** `find_all_files`: resolve the ignore patterns, scan, and record the
      config of every file that has one. */
  method FindAllFiles(root: Path, top: Option<Node>, matches: seq<seq<GlobHit>>) returns (r: Selection)
    ensures r.RootNotDir? <==> !(top.Some? && top.value.Dir?)
    ensures r.Files? ==> r.files == Select(ScanDirectory(root, top.value, DirHits(matches)), Classify)
  {
    if !(top.Some? && top.value.Dir?) {
      return RootNotDir;
    }
    var absoluteIgnoreDirs := ResolveIgnoreDirs(matches);
    var scanned := ScanDirectory(root, top.value, absoluteIgnoreDirs);
    var files: map<Path, Config> := map[];
    var i := 0;
    while i < |scanned|
      invariant 0 <= i <= |scanned|
      invariant files == Select(scanned[..i], Classify)
    {
      var file := scanned[i];
      assert scanned[..i + 1][..i] == scanned[..i];
      var config := Classify(file.node.name);
      if config.Some? {
        files := files[file.path := config.value];
      }
      i := i + 1;
    }
    assert scanned[..i] == scanned;
    r := Files(files);
  }

  lemma ScanNamesMatch(root: Path, top: Node, excluded: set<Path>)
    requires top.Dir?
    ensures NamesMatch(ScanDirectory(root, top, excluded))
  {
    forall e | e in ScanDirectory(root, top, excluded)
      ensures |e.path| > 0 && e.path[|e.path| - 1] == e.node.name
    {
      ScanDirectoryShape(root, top, excluded, e);
    }
  }

  /** What the file map holds, on a real tree: `root + rel` is a key
      exactly when the scan reaches a file at `rel` that has a formatter,
      its value is that formatter, and no key lies inside an excluded
      directory. */
  lemma FindAllFilesSelected(root: Path, top: Node, excluded: set<Path>, rel: Path)
    requires top.Dir? && WellFormed(top)
    ensures var files := Select(ScanDirectory(root, top, excluded), Classify);
      && (root + rel in files <==>
            exists f :: !top.denied && Reach(root, top.children, rel, excluded) == Some(f) && Classify(f.name).Some?)
      && (root + rel in files ==> |rel| > 0 && Classify(rel[|rel| - 1]) == Some(files[root + rel]))
      && (root + rel in files ==> forall k :: |root| < k < |root + rel| ==> (root + rel)[..k] !in excluded)
  {
    var scanned := ScanDirectory(root, top, excluded);
    ScanNamesMatch(root, top, excluded);
    SelectMember(scanned, Classify, root + rel);
    if e :| e in scanned && e.path == root + rel && Classify(e.node.name).Some? {
      ScanDirectoryReach(root, top, rel, e.node, excluded);
      forall k | |root| < k < |root + rel| ensures (root + rel)[..k] !in excluded {
        ScanDirectoryPruned(root, top, excluded, e, k);
      }
      ScanDirectoryShape(root, top, excluded, e);
    }
    if f :| !top.denied && Reach(root, top.children, rel, excluded) == Some(f) && Classify(f.name).Some? {
      ScanDirectoryReach(root, top, rel, f, excluded);
      assert Entry(root + rel, f) in scanned;
    }
  }

  /* ---------------- process_one_file ---------------- */

  /** The arguments passed to the formatter: the file path, and `-i`
      (format in place) unless checking. */
  function CommandArgs(command: string, path: Path, check: bool): (r: seq<string>)
    ensures |r| >= 2 && r[..2] == [command, PathString(path)]
    ensures check ==> |r| == 2
    ensures !check ==> |r| == 3 && r[2] == "-i"
  {
    [command, PathString(path)] + (if check then [] else ["-i"])
  }

  /** A line of a unified diff that the report keeps: an added or removed
      line, not a `+++`/`---` file header. */
  predicate IsChangeLine(line: string)
  {
    || (StartsWith(line, "+") && !StartsWith(line, "+++"))
    || (StartsWith(line, "-") && !StartsWith(line, "---"))
  }

  /** The filter over the diff's lines, order kept. */
  function ChangeLines(diff: seq<string>): (r: seq<string>)
    ensures forall line :: line in r <==> line in diff && IsChangeLine(line)
    ensures |r| <= |diff|
  {
    if diff == [] then []
    else (if IsChangeLine(diff[0]) then [diff[0]] else []) + ChangeLines(diff[1..])
  }

  /** The filter keeps relative order: it distributes over concatenation,
      and filtering twice is filtering once. */
  lemma {:induction false} ChangeLinesAppend(a: seq<string>, b: seq<string>)
    ensures ChangeLines(a + b) == ChangeLines(a) + ChangeLines(b)
  {
    if a == [] {
      assert a + b == b;
    } else {
      assert (a + b)[0] == a[0];
      assert (a + b)[1..] == a[1..] + b;
      ChangeLinesAppend(a[1..], b);
    }
  }

  lemma {:induction false} ChangeLinesIdempotent(diff: seq<string>)
    ensures ChangeLines(ChangeLines(diff)) == ChangeLines(diff)
  {
    if diff != [] {
      ChangeLinesIdempotent(diff[1..]);
      var head := if IsChangeLine(diff[0]) then [diff[0]] else [];
      ChangeLinesAppend(head, ChangeLines(diff[1..]));
      if IsChangeLine(diff[0]) {
        assert ChangeLines(head) == head by { assert head[1..] == []; }
      }
    }
  }

  /** One line in front of the rest: kept or dropped on its own. */
  lemma ChangeLinesCons(line: string, rest: seq<string>)
    ensures ChangeLines([line] + rest) == (if IsChangeLine(line) then [line] else []) + ChangeLines(rest)
  {
    assert ([line] + rest)[1..] == rest;
  }

  /** The headers and hunk markers of a unified diff are dropped; added
      and removed lines are kept. */
  lemma ChangeLinesExample()
    ensures ChangeLines(["--- a", "+++ b", "@@ -1 +1 @@", "-int x;", "+int x = 0;", " }"]) == ["-int x;", "+int x = 0;"]
  {
    assert !IsChangeLine("--- a") by { assert "--- a"[..1] == "-" && "--- a"[..3] == "---"; }
    assert !IsChangeLine("+++ b") by { assert "+++ b"[..1] == "+" && "+++ b"[..3] == "+++"; }
    assert !IsChangeLine("@@ -1 +1 @@") by { assert "@@ -1 +1 @@"[..1] == "@"; }
    assert IsChangeLine("-int x;") by { assert "-int x;"[..1] == "-" && "-int x;"[..3] == "-in"; }
    assert IsChangeLine("+int x = 0;") by { assert "+int x = 0;"[..1] == "+" && "+int x = 0;"[..3] == "+in"; }
    assert !IsChangeLine(" }") by { assert " }"[..1] == " "; }
    var d5: seq<string> := [" }"];
    var d4 := ["+int x = 0;"] + d5;
    var d3 := ["-int x;"] + d4;
    var d2 := ["@@ -1 +1 @@"] + d3;
    var d1 := ["+++ b"] + d2;
    var d0 := ["--- a"] + d1;
    ChangeLinesCons(" }", []);
    assert d5 == [" }"] + [];
    ChangeLinesCons("+int x = 0;", d5);
    ChangeLinesCons("-int x;", d4);
    ChangeLinesCons("@@ -1 +1 @@", d3);
    ChangeLinesCons("+++ b", d2);
    ChangeLinesCons("--- a", d1);
    assert d0 == ["--- a", "+++ b", "@@ -1 +1 @@", "-int x;", "+int x = 0;", " }"];
  }

  /** What `subprocess.run(..., check=True, capture_output=True)` gives:
      the captured standard output, or an exception (a missing command or
      a non-zero status). */
  datatype ToolRun = Completed(stdout: seq<byte>) | Raised

  /** `(str(path), was_changed, diff_or_None)`; the path is kept as parts. */
  datatype Outcome = Outcome(path: Path, changed: bool, diff: Option<string>)

  /** `process_one_file`. `original` is the first read of the file, `tool`
      runs a command line, `reread` is the read after formatting in
      place, and `diff` is what `difflib.unified_diff` gives for the two
      versions. */
  function ProcessOneFile(path: Path, command: string, check: bool, original: ReadResult,
                          tool: seq<string> -> ToolRun, reread: ReadResult, diff: seq<string>): (r: Outcome)
    ensures r.path == path
    ensures r.diff.Some? ==> r.changed && check
    ensures r.changed <==>
      && original.Bytes?
      && tool(CommandArgs(command, path, check)).Completed?
      && (if check then tool(CommandArgs(command, path, check)).stdout != original.data
          else reread.Bytes? && reread.data != original.data)
    ensures r.changed && check ==> r.diff == Some(Join("\n", ChangeLines(diff)))
  {
    if original.ReadError? then Outcome(path, false, None)
    else
      var result := tool(CommandArgs(command, path, check));
      if result.Raised? then Outcome(path, false, None)
      else if !check && reread.ReadError? then Outcome(path, false, None)
      else
        var newContent := if check then result.stdout else reread.data;
        if original.data == newContent then Outcome(path, false, None)
        else if !check then Outcome(path, true, None)
        else Outcome(path, true, Some(Join("\n", ChangeLines(diff))))
  }

  /** The four outcomes the tests pin down: an unchanged file, a file
      formatted in place, a file that fails the check with its diff, and
      any failure, which reports the file as unchanged. */
  lemma ProcessOneFileCases(path: Path, command: string, check: bool, original: ReadResult,
                            tool: seq<string> -> ToolRun, reread: ReadResult, diff: seq<string>)
    ensures var r := ProcessOneFile(path, command, check, original, tool, reread, diff);
      && (!r.changed ==> r == Outcome(path, false, None))
      && (r.changed && !check ==> r == Outcome(path, true, None))
      && (r.changed && check ==> r == Outcome(path, true, Some(Join("\n", ChangeLines(diff)))))
      && (original.ReadError? || tool(CommandArgs(command, path, check)).Raised? ==> r == Outcome(path, false, None))
  {
  }

  /* ---------------- process_files_parallel ---------------- */

  /** What a finished task gives back: its outcome, or an exception. */
  datatype TaskResult = Returned(outcome: Outcome) | TaskRaised

  /** One line of the report: the file relative to the project root, and
      its diff text (check mode). */
  datatype Changed = Changed(relPath: string, diff: Option<string>)

  /** `sorted(results)` on `(path, diff)` pairs: by path. The paths are
      different files, so the diffs never take part in a comparison. */
  predicate ChangedLe(a: Changed, b: Changed)
  {
    StrLe(a.relPath, b.relPath)
  }

  lemma ChangedLeTotalPreorder()
    ensures TotalPreorder(ChangedLe)
  {
    forall a: Changed, b: Changed, c: Changed
      ensures (ChangedLe(a, b) || ChangedLe(b, a)) && (ChangedLe(a, b) && ChangedLe(b, c) ==> ChangedLe(a, c))
    {
      StrLeOrder(a.relPath, b.relPath, c.relPath);
    }
  }

  /** The report entry a finished task contributes, if any: a task that
      returned a changed file under the project root. A task that raised,
      or whose path is not under the root (`relative_to` raises inside
      the same `try`), contributes nothing. */
  function Contribution(projectRoot: Path, t: TaskResult): Option<Changed>
  {
    if t.Returned? && t.outcome.changed then
      match RelativeTo(t.outcome.path, projectRoot)
      case Some(rel) => Some(Changed(PathString(rel), t.outcome.diff))
      case None => None
    else None
  }

  function Contributed(projectRoot: Path, t: TaskResult): seq<Changed>
  {
    match Contribution(projectRoot, t)
    case Some(c) => [c]
    case None => []
  }

  /** The `results` list, built in completion order. */
  function ChangedResults(projectRoot: Path, completed: seq<TaskResult>): seq<Changed>
  {
    if completed == [] then []
    else ChangedResults(projectRoot, completed[..|completed| - 1]) + Contributed(projectRoot, completed[|completed| - 1])
  }

  /** Taking one more completed task appends its contribution. */
  lemma ChangedResultsStep(projectRoot: Path, completed: seq<TaskResult>, i: int)
    requires 0 <= i < |completed|
    ensures ChangedResults(projectRoot, completed[..i + 1]) ==
      ChangedResults(projectRoot, completed[..i]) + Contributed(projectRoot, completed[i])
  {
    assert completed[..i + 1][..i] == completed[..i];
  }

  lemma {:induction false} ChangedResultsMember(projectRoot: Path, completed: seq<TaskResult>, c: Changed)
    ensures c in ChangedResults(projectRoot, completed) <==>
      exists i :: 0 <= i < |completed| && Contribution(projectRoot, completed[i]) == Some(c)
  {
    if completed != [] {
      var n := |completed| - 1;
      ChangedResultsMember(projectRoot, completed[..n], c);
      if i :| 0 <= i < |completed| && Contribution(projectRoot, completed[i]) == Some(c) {
        if i < n { assert completed[..n][i] == completed[i]; }
      }
      if c in ChangedResults(projectRoot, completed[..n]) {
        var i :| 0 <= i < n && Contribution(projectRoot, completed[..n][i]) == Some(c);
      }
    }
  }

  /** A changed file is reported exactly when its task returned a changed
      outcome for a file under the project root. */
  lemma ChangedResultsMeaning(projectRoot: Path, completed: seq<TaskResult>, rel: Path, diff: Option<string>)
    ensures (exists i :: 0 <= i < |completed| && completed[i] == Returned(Outcome(projectRoot + rel, true, diff))) ==>
      Changed(PathString(rel), diff) in ChangedResults(projectRoot, completed)
    ensures forall c :: c in ChangedResults(projectRoot, completed) ==>
      exists i :: 0 <= i < |completed| && completed[i].Returned? && completed[i].outcome.changed
  {
    forall c | c in ChangedResults(projectRoot, completed)
      ensures exists i :: 0 <= i < |completed| && completed[i].Returned? && completed[i].outcome.changed
    {
      ChangedResultsMember(projectRoot, completed, c);
    }
    if i :| 0 <= i < |completed| && completed[i] == Returned(Outcome(projectRoot + rel, true, diff)) {
      assert RelativeTo(projectRoot + rel, projectRoot) == Some(rel) by {
        assert (projectRoot + rel)[..|projectRoot|] == projectRoot;
        assert (projectRoot + rel)[|projectRoot|..] == rel;
      }
      ChangedResultsMember(projectRoot, completed, Changed(PathString(rel), diff));
    }
  }

  /** The outside world a formatting run sees, file by file: what the
      first read of a file gives, what running a command line gives, what
      the read after formatting in place gives, and the lines `difflib`
      produces for the two versions of a file. */
  datatype Io = Io(original: Path -> ReadResult, tool: seq<string> -> ToolRun,
                   reread: Path -> ReadResult, diff: Path -> seq<string>)

  /** The work submitted for a selected file:
      `process_one_file(path, config["command"], check)`. */
  function RunTask(files: map<Path, Config>, check: bool, io: Io, p: Path): Outcome
    requires p in files
  {
    ProcessOneFile(p, files[p].command, check, io.original(p), io.tool, io.reread(p), io.diff(p))
  }

  /** What fetching the result of a file's task gives: the tasks in
      `raised` raise (the pool failed them), the others return. */
  function TaskOf(files: map<Path, Config>, check: bool, io: Io, raised: set<Path>, p: Path): TaskResult
    requires p in files
  {
    if p in raised then TaskRaised else Returned(RunTask(files, check, io, p))
  }

  /** `as_completed` yields every submitted task exactly once: a
      completion order lists every key once. */
  predicate IsCompletionOrder<K>(keys: set<K>, order: seq<K>)
  {
    && (forall p :: p in order ==> p in keys)
    && (forall p :: p in keys ==> p in order)
    && (forall i, j :: 0 <= i < j < |order| ==> order[i] != order[j])
  }

  /** The results of all tasks, in completion order. */
  function Tasks(files: map<Path, Config>, check: bool, io: Io, order: seq<Path>, raised: set<Path>): seq<TaskResult>
    requires forall p :: p in order ==> p in files
  {
    seq(|order|, i requires 0 <= i < |order| => TaskOf(files, check, io, raised, order[i]))
  }

  /** The report line `c` comes from the selected file `p`: its task
      returned, changed the file, `p` lies under the project root, and `c`
      holds the relative path and that task's diff. */
  predicate Reports(files: map<Path, Config>, projectRoot: Path, check: bool, io: Io, raised: set<Path>,
                    p: Path, c: Changed)
  {
    && p in files && p !in raised
    && RunTask(files, check, io, p).changed
    && RelativeTo(p, projectRoot).Some?
    && c == Changed(PathString(RelativeTo(p, projectRoot).value), RunTask(files, check, io, p).diff)
  }

  /** The collected results are exactly the report lines of the selected
      files, whatever the completion order. */
  lemma TasksReport(files: map<Path, Config>, projectRoot: Path, check: bool, io: Io,
                    order: seq<Path>, raised: set<Path>, c: Changed)
    requires IsCompletionOrder(files.Keys, order)
    ensures c in ChangedResults(projectRoot, Tasks(files, check, io, order, raised)) <==>
      exists p :: Reports(files, projectRoot, check, io, raised, p, c)
  {
    var tasks := Tasks(files, check, io, order, raised);
    ChangedResultsMember(projectRoot, tasks, c);
    if i :| 0 <= i < |tasks| && Contribution(projectRoot, tasks[i]) == Some(c) {
      assert Reports(files, projectRoot, check, io, raised, order[i], c);
    }
    if p :| Reports(files, projectRoot, check, io, raised, p, c) {
      var i :| 0 <= i < |order| && order[i] == p;
      assert Contribution(projectRoot, tasks[i]) == Some(c);
    }
  }

  /** The sorted report holds exactly the report lines of the selected
      files, and it is empty exactly when no selected file reports. */
  lemma ReportMeaning(files: map<Path, Config>, projectRoot: Path, check: bool, io: Io,
                      order: seq<Path>, raised: set<Path>)
    requires IsCompletionOrder(files.Keys, order)
    ensures var listed := Sort(ChangedResults(projectRoot, Tasks(files, check, io, order, raised)), ChangedLe);
      && (forall c :: c in listed <==> exists p :: Reports(files, projectRoot, check, io, raised, p, c))
      && (listed != [] <==>
            exists p :: p in files && p !in raised && RunTask(files, check, io, p).changed && RelativeTo(p, projectRoot).Some?)
  {
    var results := ChangedResults(projectRoot, Tasks(files, check, io, order, raised));
    var listed := Sort(results, ChangedLe);
    forall c ensures c in listed <==> exists p :: Reports(files, projectRoot, check, io, raised, p, c) {
      SortMember(results, ChangedLe, c);
      TasksReport(files, projectRoot, check, io, order, raised, c);
    }
    ReportNonEmpty(files, projectRoot, check, io, raised, listed);
  }

  /** A report that holds exactly the selected files' report lines is
      non-empty exactly when some selected file reports. */
  lemma ReportNonEmpty(files: map<Path, Config>, projectRoot: Path, check: bool, io: Io,
                       raised: set<Path>, listed: seq<Changed>)
    requires forall c :: c in listed <==> exists p :: Reports(files, projectRoot, check, io, raised, p, c)
    ensures listed != [] <==>
      exists p :: p in files && p !in raised && RunTask(files, check, io, p).changed && RelativeTo(p, projectRoot).Some?
  {
    if p :| p in files && p !in raised && RunTask(files, check, io, p).changed && RelativeTo(p, projectRoot).Some? {
      var c := Changed(PathString(RelativeTo(p, projectRoot).value), RunTask(files, check, io, p).diff);
      assert Reports(files, projectRoot, check, io, raised, p, c);
      assert c in listed;
    }
    if listed != [] {
      assert listed[0] in listed;
      var p :| Reports(files, projectRoot, check, io, raised, p, listed[0]);
      assert p in files && p !in raised && RunTask(files, check, io, p).changed && RelativeTo(p, projectRoot).Some?;
    }
  }

  /** The `as_completed` loop: takes each task's result in completion
      order and appends the report line of a changed file under the
      project root. */
  method CollectResults(files: map<Path, Config>, projectRoot: Path, check: bool, io: Io,
                        order: seq<Path>, raised: set<Path>)
    returns (results: seq<Changed>)
    requires forall p :: p in order ==> p in files
    ensures results == ChangedResults(projectRoot, Tasks(files, check, io, order, raised))
  {
    var tasks := Tasks(files, check, io, order, raised);
    results := [];
    var i := 0;
    while i < |order|
      invariant 0 <= i <= |order|
      invariant results == ChangedResults(projectRoot, tasks[..i])
    {
      var path := order[i];
      ChangedResultsStep(projectRoot, tasks, i);
      if path !in raised {
        var outcome := ProcessOneFile(path, files[path].command, check, io.original(path), io.tool, io.reread(path), io.diff(path));
        assert tasks[i] == Returned(outcome);
        if outcome.changed {
          var rel := RelativeTo(outcome.path, projectRoot);
          if rel.Some? {
            results := results + [Changed(PathString(rel.value), outcome.diff)];
          }
        }
      }
      i := i + 1;
    }
    assert tasks[..i] == tasks;
  }

  /** The aggregation of `process_files_parallel`: one task per selected
      file, run with its formatter's command, its results taken in the
      order the tasks complete. Returns the exit status and the report in
      the order printed. */
  method ProcessFilesParallel(files: map<Path, Config>, projectRoot: Path, check: bool, io: Io,
                              order: seq<Path>, raised: set<Path>)
    returns (exitCode: int, listed: seq<Changed>)
    requires IsCompletionOrder(files.Keys, order)
    ensures files == map[] ==> exitCode == 0 && listed == []
    ensures files != map[] ==> listed == Sort(ChangedResults(projectRoot, Tasks(files, check, io, order, raised)), ChangedLe)
    ensures forall c :: c in listed <==> exists p :: Reports(files, projectRoot, check, io, raised, p, c)
    ensures exitCode == 1 <==>
      check && exists p :: p in files && p !in raised && RunTask(files, check, io, p).changed && RelativeTo(p, projectRoot).Some?
    ensures exitCode == 0 || exitCode == 1
  {
    if files == map[] {
      return 0, [];
    }
    var results := CollectResults(files, projectRoot, check, io, order, raised);
    listed := Sort(results, ChangedLe);
    ReportMeaning(files, projectRoot, check, io, order, raised);
    exitCode := if check && listed != [] then 1 else 0;
  }

  /** The report is sorted and holds exactly the changed results; the
      order in which tasks completed does not show in it when the
      reported paths are distinct. */
  lemma ReportSortedAndOrderFree(projectRoot: Path, a: seq<TaskResult>, b: seq<TaskResult>)
    requires multiset(a) == multiset(b)
    requires var r := ChangedResults(projectRoot, a);
      forall i, j :: 0 <= i < j < |r| ==> r[i].relPath != r[j].relPath
    ensures Sorted(Sort(ChangedResults(projectRoot, a), ChangedLe), ChangedLe)
    ensures multiset(Sort(ChangedResults(projectRoot, a), ChangedLe)) == multiset(ChangedResults(projectRoot, a))
    ensures Sort(ChangedResults(projectRoot, a), ChangedLe) == Sort(ChangedResults(projectRoot, b), ChangedLe)
  {
    var ra := ChangedResults(projectRoot, a);
    var rb := ChangedResults(projectRoot, b);
    ChangedLeTotalPreorder();
    SortSorted(ra, ChangedLe);
    SortPermutes(ra, ChangedLe);
    ChangedResultsPermute(projectRoot, a, b);
    forall x, y | x in ra && y in ra && ChangedLe(x, y) && ChangedLe(y, x) ensures x == y {
      StrLeOrder(x.relPath, y.relPath, y.relPath);
      var i :| 0 <= i < |ra| && ra[i] == x;
      var j :| 0 <= j < |ra| && ra[j] == y;
      SamePathSameIndex(ra, i, j);
    }
    SortOrderIndependent(ra, rb, ChangedLe);
  }

  /** In a list whose paths are distinct, two positions with the same path
      are the same position. */
  lemma SamePathSameIndex(r: seq<Changed>, i: int, j: int)
    requires forall i, j :: 0 <= i < j < |r| ==> r[i].relPath != r[j].relPath
    requires 0 <= i < |r| && 0 <= j < |r| && r[i].relPath == r[j].relPath
    ensures i == j
  {
  }

  /** Completing the same tasks in another order collects the same
      results, up to order. */
  lemma {:induction false} ChangedResultsPermute(projectRoot: Path, a: seq<TaskResult>, b: seq<TaskResult>)
    requires multiset(a) == multiset(b)
    ensures multiset(ChangedResults(projectRoot, a)) == multiset(ChangedResults(projectRoot, b))
    decreases |a|
  {
    if a == [] {
      assert |b| == |multiset(b)| == 0;
    } else {
      var n := |a| - 1;
      var t := a[n];
      assert t in multiset(b);
      var k :| 0 <= k < |b| && b[k] == t;
      RemoveBoth(a, b, k);
      ChangedResultsPermute(projectRoot, a[..n], b[..k] + b[k + 1..]);
      ChangedResultsRemoveAt(projectRoot, b, k);
    }
  }

  /** The results of `b` are those of `b` without its k-th task, plus
      what that task contributes. */
  lemma ChangedResultsRemoveAt(projectRoot: Path, b: seq<TaskResult>, k: int)
    requires 0 <= k < |b|
    ensures multiset(ChangedResults(projectRoot, b)) ==
      multiset(ChangedResults(projectRoot, b[..k] + b[k + 1..])) + multiset(Contributed(projectRoot, b[k]))
  {
    var x := b[..k];
    var z := b[k + 1..];
    assert b == (x + [b[k]]) + z;
    ChangedResultsAppend(projectRoot, x + [b[k]], z);
    assert (x + [b[k]])[..|x|] == x;
    ChangedResultsAppend(projectRoot, x, z);
  }

  /** Taking the last element off `a` and the same element off `b` keeps
      the two lists permutations of each other. */
  lemma RemoveBoth<T>(a: seq<T>, b: seq<T>, k: int)
    requires a != [] && multiset(a) == multiset(b)
    requires 0 <= k < |b| && b[k] == a[|a| - 1]
    ensures multiset(a[..|a| - 1]) == multiset(b[..k] + b[k + 1..])
  {
    var n := |a| - 1;
    var t := a[n];
    assert a == a[..n] + [t];
    assert b == b[..k] + [t] + b[k + 1..];
    forall x ensures multiset(a[..n])[x] == multiset(b[..k] + b[k + 1..])[x] {
      assert multiset(a)[x] == multiset(a[..n])[x] + multiset{t}[x];
      assert multiset(b)[x] == multiset(b[..k])[x] + multiset{t}[x] + multiset(b[k + 1..])[x];
    }
  }

  lemma {:induction false} ChangedResultsAppend(projectRoot: Path, x: seq<TaskResult>, y: seq<TaskResult>)
    ensures ChangedResults(projectRoot, x + y) == ChangedResults(projectRoot, x) + ChangedResults(projectRoot, y)
    decreases |y|
  {
    if y != [] {
      var n := |y| - 1;
      assert (x + y)[..|x + y| - 1] == x + y[..n];
      ChangedResultsAppend(projectRoot, x, y[..n]);
    } else {
      assert x + y == x;
    }
  }

  /* ---------------- check_for_tools ---------------- */

  /** `check_for_tools`: looks every configured command up on the search
      path (`onPath` holds the commands `shutil.which` finds), reports
      every missing one, and returns whether all were found. */
  method CheckForTools(onPath: set<string>) returns (allToolsFound: bool, missing: seq<string>)
    ensures allToolsFound <==> forall c :: c in FormatterConfig ==> c.command in onPath
    ensures forall m :: m in missing <==> exists c :: c in FormatterConfig && c.command == m && m !in onPath
  {
    allToolsFound := true;
    missing := [];
    var i := 0;
    while i < |FormatterConfig|
      invariant 0 <= i <= |FormatterConfig|
      invariant allToolsFound <==> forall k :: 0 <= k < i ==> FormatterConfig[k].command in onPath
      invariant forall m :: m in missing <==> exists k :: 0 <= k < i && FormatterConfig[k].command == m && m !in onPath
    {
      var command := FormatterConfig[i].command;
      if command !in onPath {
        missing := missing + [command];
        allToolsFound := false;
      }
      i := i + 1;
    }
  }
}
