/** `omni_formatter.py`: format every selected file in place and list the
    files whose bytes changed. File selection and the tool check are those
    of the root formatter (`LegacyFormatter`). */
module OmniFormatter {
  import opened Text
  import opened FsTree
  import opened Sorting
  import F = Formatter

  /** The command line: `-i` comes before the path here. */
  function CommandArgs(command: string, path: Path): (r: seq<string>)
    ensures |r| == 3 && r[0] == command && r[1] == "-i" && r[2] == PathString(path)
  {
    [command, "-i", PathString(path)]
  }

  /** `(str(path), was_changed)`; the path is kept as parts. */
  datatype FormatResult = FormatResult(path: Path, changed: bool)

  /** `format_one_file`: read the file, run the formatter in place, read it
      again; changed when the two reads differ. Any exception (a failed
      read or a failed run) reports the file as unchanged. */
  function FormatOneFile(path: Path, command: string, original: ReadResult,
                         tool: seq<string> -> F.ToolRun, reread: ReadResult): (r: FormatResult)
    ensures r.path == path
    ensures r.changed <==>
      original.Bytes? && tool(CommandArgs(command, path)).Completed? && reread.Bytes? && reread.data != original.data
  {
    if original.ReadError? then FormatResult(path, false)
    else if tool(CommandArgs(command, path)).Raised? then FormatResult(path, false)
    else if reread.ReadError? then FormatResult(path, false)
    else FormatResult(path, original.data != reread.data)
  }

  /** It decides "changed" as the package formatter does in place, for a
      tool that treats the two argument orders alike. */
  lemma FormatOneFileAgrees(path: Path, command: string, original: ReadResult,
                            tool: seq<string> -> F.ToolRun, reread: ReadResult, diff: seq<string>)
    requires tool(CommandArgs(command, path)) == tool(F.CommandArgs(command, path, false))
    ensures FormatOneFile(path, command, original, tool, reread).changed ==
      F.ProcessOneFile(path, command, false, original, tool, reread, diff).changed
  {
  }

  /** What a finished task gives back. */
  datatype TaskResult = Finished(result: FormatResult) | TaskRaised

  /** The relative path a finished task adds to `reformatted_files`: a
      changed file under the project root. */
  function Reformatted(projectRoot: Path, t: TaskResult): seq<string>
  {
    if t.Finished? && t.result.changed then
      match RelativeTo(t.result.path, projectRoot)
      case Some(rel) => [PathString(rel)]
      case None => []
    else []
  }

  /** `reformatted_files`, in completion order. */
  function ReformattedFiles(projectRoot: Path, completed: seq<TaskResult>): seq<string>
  {
    if completed == [] then []
    else ReformattedFiles(projectRoot, completed[..|completed| - 1]) + Reformatted(projectRoot, completed[|completed| - 1])
  }

  /** Taking one more completed task appends what it adds. */
  lemma ReformattedFilesStep(projectRoot: Path, completed: seq<TaskResult>, i: int)
    requires 0 <= i < |completed|
    ensures ReformattedFiles(projectRoot, completed[..i + 1]) ==
      ReformattedFiles(projectRoot, completed[..i]) + Reformatted(projectRoot, completed[i])
  {
    assert completed[..i + 1][..i] == completed[..i];
  }

  lemma {:induction false} ReformattedFilesMember(projectRoot: Path, completed: seq<TaskResult>, s: string)
    ensures s in ReformattedFiles(projectRoot, completed) <==>
      exists i :: 0 <= i < |completed| && s in Reformatted(projectRoot, completed[i])
  {
    if completed != [] {
      var n := |completed| - 1;
      ReformattedFilesMember(projectRoot, completed[..n], s);
      if i :| 0 <= i < |completed| && s in Reformatted(projectRoot, completed[i]) {
        if i < n { assert completed[..n][i] == completed[i]; }
      }
      if s in ReformattedFiles(projectRoot, completed[..n]) {
        var i :| 0 <= i < n && s in Reformatted(projectRoot, completed[..n][i]);
      }
    }
  }

  /** A file is listed exactly when its task finished, changed it, and it
      lies under the project root; failed tasks list nothing. */
  lemma ReformattedFilesMeaning(projectRoot: Path, completed: seq<TaskResult>, rel: Path)
    ensures (exists i :: 0 <= i < |completed| && completed[i] == Finished(FormatResult(projectRoot + rel, true))) ==>
      PathString(rel) in ReformattedFiles(projectRoot, completed)
    ensures forall s :: s in ReformattedFiles(projectRoot, completed) ==>
      exists i :: 0 <= i < |completed| && completed[i].Finished? && completed[i].result.changed
  {
    forall s | s in ReformattedFiles(projectRoot, completed)
      ensures exists i :: 0 <= i < |completed| && completed[i].Finished? && completed[i].result.changed
    {
      ReformattedFilesMember(projectRoot, completed, s);
    }
    if i :| 0 <= i < |completed| && completed[i] == Finished(FormatResult(projectRoot + rel, true)) {
      assert RelativeTo(projectRoot + rel, projectRoot) == Some(rel) by {
        assert (projectRoot + rel)[..|projectRoot|] == projectRoot;
        assert (projectRoot + rel)[|projectRoot|..] == rel;
      }
      ReformattedFilesMember(projectRoot, completed, PathString(rel));
    }
  }

  /** The outside world a formatting run sees, file by file: what the read
      before formatting gives, what running a command line gives, and what
      the read after it gives. */
  datatype Io = Io(original: Path -> ReadResult, tool: seq<string> -> F.ToolRun, reread: Path -> ReadResult)

  /** The work submitted for a selected file:
      `format_one_file(path, config["command"])`. */
  function RunTask(files: map<Path, F.Config>, io: Io, p: Path): FormatResult
    requires p in files
  {
    FormatOneFile(p, files[p].command, io.original(p), io.tool, io.reread(p))
  }

  /** What fetching the result of a file's task gives: the tasks in
      `raised` raise (the pool failed them), the others finish. */
  function TaskOf(files: map<Path, F.Config>, io: Io, raised: set<Path>, p: Path): TaskResult
    requires p in files
  {
    if p in raised then TaskRaised else Finished(RunTask(files, io, p))
  }

  /** The results of all tasks, in completion order. */
  function Tasks(files: map<Path, F.Config>, io: Io, order: seq<Path>, raised: set<Path>): seq<TaskResult>
    requires forall p :: p in order ==> p in files
  {
    seq(|order|, i requires 0 <= i < |order| => TaskOf(files, io, raised, order[i]))
  }

  /** The listed string `s` comes from the selected file `p`: its task
      finished, changed the file, `p` lies under the project root, and `s`
      is the relative path. */
  predicate Lists(files: map<Path, F.Config>, projectRoot: Path, io: Io, raised: set<Path>, p: Path, s: string)
  {
    && p in files && p !in raised
    && RunTask(files, io, p).changed
    && RelativeTo(p, projectRoot).Some?
    && s == PathString(RelativeTo(p, projectRoot).value)
  }

  /** The reformatted files collected are exactly the relative paths of
      the selected files whose task changed them, whatever the completion
      order. */
  lemma TasksList(files: map<Path, F.Config>, projectRoot: Path, io: Io, order: seq<Path>, raised: set<Path>, s: string)
    requires F.IsCompletionOrder(files.Keys, order)
    ensures s in Sort(ReformattedFiles(projectRoot, Tasks(files, io, order, raised)), StrLe) <==>
      exists p :: Lists(files, projectRoot, io, raised, p, s)
  {
    var tasks := Tasks(files, io, order, raised);
    SortMember(ReformattedFiles(projectRoot, tasks), StrLe, s);
    ReformattedFilesMember(projectRoot, tasks, s);
    if i :| 0 <= i < |tasks| && s in Reformatted(projectRoot, tasks[i]) {
      TaskLists(files, projectRoot, io, raised, order[i], s);
    }
    if p :| Lists(files, projectRoot, io, raised, p, s) {
      var i :| 0 <= i < |order| && order[i] == p;
      assert tasks[i] == TaskOf(files, io, raised, p);
      TaskLists(files, projectRoot, io, raised, p, s);
    }
  }

  /** One task adds `s` exactly when its file lists `s`. */
  lemma TaskLists(files: map<Path, F.Config>, projectRoot: Path, io: Io, raised: set<Path>, p: Path, s: string)
    requires p in files
    ensures s in Reformatted(projectRoot, TaskOf(files, io, raised, p)) <==> Lists(files, projectRoot, io, raised, p, s)
  {
  }

  /** The `as_completed` loop: takes each task's result in completion
      order and appends the relative path of a changed file under the
      project root. */
  method CollectReformatted(files: map<Path, F.Config>, projectRoot: Path, io: Io,
                            order: seq<Path>, raised: set<Path>)
    returns (reformattedFiles: seq<string>)
    requires forall p :: p in order ==> p in files
    ensures reformattedFiles == ReformattedFiles(projectRoot, Tasks(files, io, order, raised))
  {
    var tasks := Tasks(files, io, order, raised);
    reformattedFiles := [];
    var i := 0;
    while i < |order|
      invariant 0 <= i <= |order|
      invariant reformattedFiles == ReformattedFiles(projectRoot, tasks[..i])
    {
      var path := order[i];
      ReformattedFilesStep(projectRoot, tasks, i);
      if path !in raised {
        var result := FormatOneFile(path, files[path].command, io.original(path), io.tool, io.reread(path));
        assert tasks[i] == Finished(result);
        if result.changed {
          var rel := RelativeTo(result.path, projectRoot);
          if rel.Some? {
            reformattedFiles := reformattedFiles + [PathString(rel.value)];
          }
        }
      }
      i := i + 1;
    }
    assert tasks[..i] == tasks;
  }

  /** Outcome of `run_formatter_parallel`: nothing to do, or the files
      printed (sorted) and the count printed with them. */
  datatype Report = NoFiles | Done(listed: seq<string>, count: int)

  /** `run_formatter_parallel`: one task per selected file, run with its
      formatter's command, its results taken in the order the tasks
      complete. */
  method RunFormatterParallel(files: map<Path, F.Config>, projectRoot: Path, io: Io,
                              order: seq<Path>, raised: set<Path>)
    returns (r: Report)
    requires F.IsCompletionOrder(files.Keys, order)
    ensures r.NoFiles? <==> files == map[]
    ensures r.Done? ==>
      && r.listed == Sort(ReformattedFiles(projectRoot, Tasks(files, io, order, raised)), StrLe)
      && r.count == |ReformattedFiles(projectRoot, Tasks(files, io, order, raised))|
      && r.count == |r.listed|
    ensures r.Done? ==> forall s :: s in r.listed <==> exists p :: Lists(files, projectRoot, io, raised, p, s)
  {
    if files == map[] {
      return NoFiles;
    }
    var reformattedFiles := CollectReformatted(files, projectRoot, io, order, raised);
    SortPermutes(reformattedFiles, StrLe);
    r := Done(Sort(reformattedFiles, StrLe), |reformattedFiles|);
    forall s ensures s in r.listed <==> exists p :: Lists(files, projectRoot, io, raised, p, s) {
      TasksList(files, projectRoot, io, order, raised, s);
    }
  }

  /** The printed list is sorted and holds exactly the reformatted files. */
  lemma ReportSorted(projectRoot: Path, completed: seq<TaskResult>)
    ensures Sorted(Sort(ReformattedFiles(projectRoot, completed), StrLe), StrLe)
    ensures multiset(Sort(ReformattedFiles(projectRoot, completed), StrLe)) == multiset(ReformattedFiles(projectRoot, completed))
  {
    assert TotalPreorder(StrLe) by {
      forall a, b, c { StrLeOrder(a, b, c); }
    }
    SortSorted(ReformattedFiles(projectRoot, completed), StrLe);
    SortPermutes(ReformattedFiles(projectRoot, completed), StrLe);
  }
}
