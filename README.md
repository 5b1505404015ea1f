# embedded-cereal-bowl tools, modelled in Dafny

This project models the sequential decision logic of three small tools
from the embedded-cereal-bowl repository:

- **`colour_str`**, the chained terminal-colour builder
  (`src/embedded_cereal_bowl/utils/color_utils.py`). An object holds a text
  and the list of ANSI style codes applied to it. Each style method appends
  one code and returns the object itself. Converting the object to a string
  wraps the text in the codes and a final reset. `simple_utils.py` holds the
  same class: it differs only in import order and one type annotation. It is
  modelled once, as `ColourUtils.ColourStr`, so every chain of calls renders
  alike in both files.
- **The CRLF checkers.** The package version (`src/embedded_cereal_bowl/check_crlf.py`)
  scans the tree by hand with `iterdir`. It skips links and globbed ignore
  directories, and reports paths relative to the repository, sorted part by
  part. The repository-root script (`check_crlf.py`) walks with `os.walk`,
  pruning the ignore directories named relative to the repository. It skips
  links to files and reports path strings sorted as strings. Both exit 1
  when a file is reported or the repository is not a directory.
- **The formatters.** The package formatter (`src/embedded_cereal_bowl/formatter/formatter.py`),
  the root `formatter.py` and `omni_formatter.py` each do four things:
  - select files by exact name, else by extension, against `FORMATTER_CONFIG`
    (clang-format for C/C++ sources and headers, cmake-format for
    `CMakeLists.txt` and `.cmake`);
  - run the formatter on each file, in check mode or in place;
  - decide from the file's bytes before and after whether it changed;
  - collect the changed files into a sorted report and an exit status.

The file system is a tree value (`FsTree.Node`): files carry a link flag and
their read result; directories carry a link flag, a "listing denied" flag
and their children. Paths are sequences of parts. Anything the tools ask of
the outside world enters as a value:
- the bytes a read returns, or a read error;
- what a formatter run gives back;
- the diff lines `difflib` produces;
- the glob matches of the ignore patterns;
- which commands are on the search path;
- the order in which parallel tasks complete.

The modules:
- `Text`: substring search, joining, and Python's string and path orderings.
- `Sorting`: `sorted` as an insertion sort over a total preorder.
- `ColourUtils`: the colour builder.
- `FsTree`: the package scan, the `os.walk` walk with pruning, ignore paths.
- `CheckCrlf`: the package CRLF checker.
- `LegacyCheckCrlf`: the root CRLF script.
- `Formatter`: the package formatter, whose per-file logic and aggregation
  the root `formatter.py` shares.
- `LegacyFormatter`: the `os.walk`-based selection, command line and tool
  check of the root `formatter.py`. `omni_formatter.py` shares the
  selection and the tool check. Its command line differs: it puts `-i`
  before the path (`OmniFormatter.CommandArgs`).
- `OmniFormatter`: the in-place-only formatter.

## Model

| member | source | states |
|---|---|---|
| ColourUtils.CodesDistinct | src/embedded_cereal_bowl/utils/color_utils.py:24-55 | each style method appends its own colorama constant, distinct from the others and from the reset code |
| ColourUtils.ColourStr.constructor | src/embedded_cereal_bowl/utils/color_utils.py:7-9 | a fresh object holds the text and no codes, and renders as exactly its text |
| ColourUtils.Render | src/embedded_cereal_bowl/utils/color_utils.py:11-17 | `__str__` on the object state: the bare text when no code was applied, else the codes joined in order, the text and the reset; its properties are stated by the Render lemmas below |
| ColourUtils.ColourStr.ToString | src/embedded_cereal_bowl/utils/color_utils.py:11-17 | converting the object reads its text and codes and changes nothing; it renders as `Render` of that state |
| ColourUtils.RenderPlain | src/embedded_cereal_bowl/utils/color_utils.py:13-14 | with no codes the rendering is the bare text |
| ColourUtils.RenderAppend | src/embedded_cereal_bowl/utils/color_utils.py:16-17 | adding a code puts it after every earlier code and before the text; the reset comes last |
| ColourUtils.RenderShape | src/embedded_cereal_bowl/utils/color_utils.py:16-17 | with codes, the rendering is as long as the codes, the text and the reset together, and ends with the text followed by the reset |
| ColourUtils.RenderChain | src/embedded_cereal_bowl/utils/color_utils.py:11-17 | a chain of style calls renders its codes in application order, then the text, then the reset |
| ColourUtils.RenderEmptyText | src/embedded_cereal_bowl/utils/color_utils.py:16-17 | an empty text with codes renders as the codes followed by the reset |
| ColourUtils.CodesOf | src/embedded_cereal_bowl/utils/color_utils.py:24-55 | the codes a sequence of style calls appends, one per call, in order |
| ColourUtils.ColourStr.AddStyle | src/embedded_cereal_bowl/utils/color_utils.py:19-22 | appends exactly one code at the end, keeps the text and the earlier codes, returns the same object, and the new rendering has that code last before the text |
| ColourUtils.ColourStr.Red | src/embedded_cereal_bowl/utils/color_utils.py:24-25 | appends the red foreground code and returns the object itself |
| ColourUtils.ColourStr.Green | src/embedded_cereal_bowl/utils/color_utils.py:27-28 | appends the green foreground code and returns the object itself |
| ColourUtils.ColourStr.Yellow | src/embedded_cereal_bowl/utils/color_utils.py:30-31 | appends the yellow foreground code and returns the object itself |
| ColourUtils.ColourStr.Blue | src/embedded_cereal_bowl/utils/color_utils.py:33-34 | appends the blue foreground code and returns the object itself |
| ColourUtils.ColourStr.Black | src/embedded_cereal_bowl/utils/color_utils.py:36-37 | appends the black foreground code and returns the object itself |
| ColourUtils.ColourStr.Dim | src/embedded_cereal_bowl/utils/color_utils.py:39-40 | appends the dim style code and returns the object itself |
| ColourUtils.ColourStr.Bright | src/embedded_cereal_bowl/utils/color_utils.py:42-43 | appends the bright style code and returns the object itself |
| ColourUtils.ColourStr.BackRed | src/embedded_cereal_bowl/utils/color_utils.py:45-46 | appends the red background code and returns the object itself |
| ColourUtils.ColourStr.BackGreen | src/embedded_cereal_bowl/utils/color_utils.py:48-49 | appends the green background code and returns the object itself |
| ColourUtils.ColourStr.BackBlue | src/embedded_cereal_bowl/utils/color_utils.py:51-52 | appends the blue background code and returns the object itself |
| ColourUtils.ColourStr.BackYellow | src/embedded_cereal_bowl/utils/color_utils.py:54-55 | appends the yellow background code and returns the object itself |
| ColourUtils.ColourStr.Apply | src/embedded_cereal_bowl/utils/color_utils.py:24-55 | the style method a `Style` names appends that style's code and nothing else |
| ColourUtils.Chain | simple_utils.py:4-55 | building an object, calling any sequence of style methods on the returned object and converting it gives the bare text when there were no calls, else the codes in call order, the text and the reset |
| Text.Contains | src/embedded_cereal_bowl/check_crlf.py:17 | Python's `in` on byte strings: true exactly when the needle occurs at some position |
| Text.ContainsPair | check_crlf.py:18 | a two-byte needle occurs exactly when some byte is directly followed by the other |
| Text.ContainsSingle | check_crlf.py:21 | a one-byte needle occurs exactly when that byte is an element |
| Text.Join | src/embedded_cereal_bowl/formatter/formatter.py:154 | `str.join`: the empty list gives the empty string, a single element gives itself |
| Text.StrLeOrder | check_crlf.py:78 | Python's string order (code point by code point, a prefix first) is a total order |
| Text.PartsLeOrder | src/embedded_cereal_bowl/check_crlf.py:93 | the order of paths (part by part) is a total order |
| Sorting.Sort | src/embedded_cereal_bowl/check_crlf.py:93 | `sorted` with a key order, as insertion sort; `SortPermutes`, `SortSorted` and `SortOrderIndependent` state what it returns |
| Sorting.SortMember | src/embedded_cereal_bowl/check_crlf.py:93 | an element is in the sorted list exactly when it is in the input |
| Sorting.SortPermutes | src/embedded_cereal_bowl/check_crlf.py:93 | `sorted` returns a permutation of its input |
| Sorting.SortSorted | src/embedded_cereal_bowl/check_crlf.py:93 | `sorted` returns its input in ascending order under a total preorder |
| Sorting.SortOrderIndependent | src/embedded_cereal_bowl/formatter/formatter.py:207 | two permutations of the same list with no two equivalent elements sort to the same list |
| Sorting.SortTwo | check_crlf.py:78 | two elements come out in order |
| CheckCrlf.HasCrlfEndings | src/embedded_cereal_bowl/check_crlf.py:13-27 | the package test on a read result: false on a read error, else CR LF present and no NUL byte; `HasCrlfEndingsMeans` states it |
| CheckCrlf.HasCrlfEndingsMeans | src/embedded_cereal_bowl/check_crlf.py:13-27 | true exactly when the file was read, some CR is directly followed by LF, and no byte is NUL; a read error gives false |
| FsTree.ScanItem | src/embedded_cereal_bowl/check_crlf.py:37-47 | one listed entry: a link yields nothing, a directory not excluded yields its own scan, any other entry yields itself; `ScanDirectoryShape` and `ScanDirectoryReach` state what comes out |
| FsTree.ScanEntries | src/embedded_cereal_bowl/check_crlf.py:36-47 | the scan of a listing: the items' scans, one after the other |
| FsTree.ScanDirectory | src/embedded_cereal_bowl/check_crlf.py:30-50 | `scan_directory`: a denied listing yields nothing, else the scan of the root's children |
| FsTree.ScanEntriesMember | src/embedded_cereal_bowl/check_crlf.py:36-47 | a scanned entry comes from the scan of one of the listed children, and every such entry is scanned |
| FsTree.ScanEntriesAppend | src/embedded_cereal_bowl/check_crlf.py:36-47 | scanning two listings one after the other yields the first's entries, then the second's: the scan keeps listing order |
| FsTree.ScanDirectoryShape | src/embedded_cereal_bowl/check_crlf.py:37-47 | every yielded entry lies under the root, is named by its last path part, is not a link and is not a directory |
| FsTree.ScanDirectoryPruned | src/embedded_cereal_bowl/check_crlf.py:40-43 | no yielded entry lies inside an excluded directory |
| FsTree.ScanDirectoryReach | src/embedded_cereal_bowl/check_crlf.py:34-50 | on a tree with unique names, the scan yields a file at a path exactly when the root's listing is not denied and the path leads through readable, non-link, non-excluded directories to a non-link, non-directory node |
| FsTree.ScanDirectoryDistinct | src/embedded_cereal_bowl/check_crlf.py:36-47 | on a tree with unique names, no path is yielded twice |
| FsTree.WalkDir | check_crlf.py:38-47 | one `os.walk` step with pruning: the files of the directory, then the walks of its subdirectories that are not links and not excluded |
| FsTree.Walk | check_crlf.py:38-50 | `os.walk` from the root: a denied listing yields nothing, else the walk of the root's children |
| FsTree.WalkDirMember | check_crlf.py:38-47 | a walked file is one of the directory's own files or lies in the walk of one of its non-link, non-excluded subdirectories, and every such file is walked |
| FsTree.WalkDirTopDown | check_crlf.py:38-47 | top-down order: once a file below a subdirectory is yielded, no file of the directory itself follows |
| FsTree.WalkDirPruned | check_crlf.py:40-44 | pruning `dirs[:]` keeps the walk out of excluded directories: no proper prefix of a walked path below the directory is excluded, for links to files too |
| FsTree.WalkPruned | formatter.py:60-64 | from the root: no walked file, link or not, lies inside an excluded directory; `omni_formatter.py` (lines 64-70) prunes the same way |
| FsTree.ScanIsWalkWithoutLinks | check_crlf.py:38-50 | for the same excluded set, the package scan yields exactly the walked files that are not links |
| FsTree.WalkUnderRoot | check_crlf.py:38-47 | every walked file lies strictly under the root and is named by its last path part |
| FsTree.RelativeTo | src/embedded_cereal_bowl/check_crlf.py:89 | `relative_to` succeeds exactly when the root is a prefix, and the root plus the result is the path |
| FsTree.PathStringExamples | src/embedded_cereal_bowl/formatter/formatter.py:195 | `str` of a path joins its parts with `/`; an absolute path, whose first part is empty, gets a leading `/` |
| FsTree.JoinIgnores | check_crlf.py:67 | the ignore paths are the repository path joined with each given name, with no globbing; the root formatters build their ignore paths the same way (`formatter.py` line 194, `omni_formatter.py` line 151) |
| FsTree.DirHits | src/embedded_cereal_bowl/check_crlf.py:58-61 | a path is ignored exactly when some pattern's glob matched it and it is a directory |
| FsTree.ResolveIgnoreDirs | src/embedded_cereal_bowl/check_crlf.py:53-63 | the loop over patterns and matches collects exactly the matched directories; matched files are dropped |
| CheckCrlf.CrlfFound | src/embedded_cereal_bowl/check_crlf.py:86-89 | the loop over the scan: each file with CRLF endings contributes its path relative to the root, in scan order; `CrlfFoundMember` states membership |
| CheckCrlf.CrlfFoundMember | src/embedded_cereal_bowl/check_crlf.py:86-89 | a relative path is collected exactly when some scanned file at the root plus that path has CRLF endings |
| CheckCrlf.CheckCrlfInRoot | src/embedded_cereal_bowl/check_crlf.py:66-98 | a root that is not a directory gives status 1 and no list; otherwise the list is the sorted CRLF files of the scan, and the status is 1 exactly when it is non-empty |
| CheckCrlf.CheckCrlfListed | src/embedded_cereal_bowl/check_crlf.py:86-94 | a path is listed exactly when the scan reaches a file there that has CRLF endings |
| CheckCrlf.CheckCrlfOrdered | src/embedded_cereal_bowl/check_crlf.py:93-94 | the printed list is in path order and names every file once |
| CheckCrlf.ExitStatusMeaning | src/embedded_cereal_bowl/check_crlf.py:91-98 | the list is empty (status 0) exactly when the root listing is denied or no reachable file has CRLF endings |
| LegacyCheckCrlf.HasCrlfEndings | check_crlf.py:11-26 | the root script's test, written with its own branches (the NUL check nested inside the CR LF check); `HasCrlfEndingsAgree` states that it equals the package's |
| LegacyCheckCrlf.HasCrlfEndingsAgree | check_crlf.py:11-26 | the root script's test agrees with the package's on every read result: CR LF present, no NUL, read succeeded |
| LegacyCheckCrlf.CrlfFiles | check_crlf.py:46-54 | the loop over the walk: each non-link file with CRLF endings contributes its relative path string, in walk order; `CrlfFilesMember` states membership |
| LegacyCheckCrlf.CrlfFilesMember | check_crlf.py:46-54 | a string is collected exactly when it is the relative path of a walked file that is not a link and has CRLF endings |
| LegacyCheckCrlf.FindCrlfFiles | check_crlf.py:29-56 | the loop over the pruned walk collects exactly the specified relative paths, in walk order, skipping links |
| LegacyCheckCrlf.CheckCrlfInRoot | check_crlf.py:59-84 | a missing root gives status 1; otherwise the ignore paths are joined to the repository, the list is sorted as strings, and the status is 1 exactly when it is non-empty |
| LegacyCheckCrlf.SameFilesAsPackage | check_crlf.py:29-56 | for the same excluded directories, the root script reports exactly the files the package checker reports; the two build that set differently when an ignore names a link inside the repository (see Left out) |
| LegacyCheckCrlf.PackageOrderExample | src/embedded_cereal_bowl/check_crlf.py:93 | the package prints `a/x` before `a-b/x` |
| LegacyCheckCrlf.ScriptOrderExample | check_crlf.py:78 | the root script prints `a-b/x` before `a/x` |
| Formatter.FormatterConfigDisjoint | src/embedded_cereal_bowl/formatter/formatter.py:20-31 | no file name or extension belongs to two configs, and the two commands differ |
| Formatter.Lookup | src/embedded_cereal_bowl/formatter/formatter.py:92-101 | the name map or the extension map built from the configs, a later config overriding an earlier one; `LookupOwner` states its contents |
| Formatter.LookupOwner | src/embedded_cereal_bowl/formatter/formatter.py:92-101 | with disjoint configs, a key is in a lookup exactly when some config claims it, and it maps to that config |
| Formatter.RFind | src/embedded_cereal_bowl/formatter/formatter.py:106 | the position of the last dot, or -1 when there is none |
| Formatter.Suffix | src/embedded_cereal_bowl/formatter/formatter.py:106 | `PurePath.suffix` as pathlib computes it up to Python 3.13: from the last dot when that dot is neither the first nor the last character, else empty |
| Formatter.Classify | src/embedded_cereal_bowl/formatter/formatter.py:103-108 | the formatter a file name selects: the name map first, then the extension map on the suffix; `ClassifyMeans` states it |
| Formatter.ClassifyMeans | src/embedded_cereal_bowl/formatter/formatter.py:103-108 | an exact name match wins; otherwise the suffix decides; a file neither matches is not selected |
| Formatter.ClassifyCppExamples | tests/test_formatter.py:148-172 | `test.cpp` and `test.h` go to clang-format |
| Formatter.ClassifyCmakeExamples | tests/test_formatter.py:148-172 | `CMakeLists.txt` and `tools.cmake` go to cmake-format |
| Formatter.ClassifyOtherExamples | tests/test_formatter.py:192-202 | `random.txt` and `test.py` are not selected |
| Formatter.Select | src/embedded_cereal_bowl/formatter/formatter.py:103-108 | the loop over scanned files that builds the path-to-formatter map, a later entry for the same path overriding; `SelectMember` states its contents |
| Formatter.SelectMember | src/embedded_cereal_bowl/formatter/formatter.py:103-108 | a path is a key exactly when some entry there classifies, and it maps to the classification of its name |
| Formatter.FindAllFiles | src/embedded_cereal_bowl/formatter/formatter.py:71-110 | a root that is not a directory exits 1; otherwise the map is the classification of every scanned file, with ignores taken as the matched directories |
| Formatter.FindAllFilesSelected | src/embedded_cereal_bowl/formatter/formatter.py:56-66 | a key is exactly a file the scan reaches that classifies; it maps to its formatter and lies in no excluded directory |
| Formatter.CommandArgs | src/embedded_cereal_bowl/formatter/formatter.py:122-124 | the command line is the command and the file path, with `-i` appended exactly when not checking |
| Formatter.ChangeLines | src/embedded_cereal_bowl/formatter/formatter.py:148-153 | keeps exactly the lines starting `+` but not `+++` or `-` but not `---` |
| Formatter.ChangeLinesAppend | src/embedded_cereal_bowl/formatter/formatter.py:148-153 | the filter keeps relative order: it distributes over concatenation |
| Formatter.ChangeLinesIdempotent | src/embedded_cereal_bowl/formatter/formatter.py:148-153 | filtering twice changes nothing |
| Formatter.ChangeLinesCons | src/embedded_cereal_bowl/formatter/formatter.py:148-153 | each line is kept or dropped on its own, in front of the filtered rest |
| Formatter.ChangeLinesExample | src/embedded_cereal_bowl/formatter/formatter.py:145-153 | the headers, hunk marker and context lines of a diff are dropped; the changed lines are kept |
| Formatter.ProcessOneFile | src/embedded_cereal_bowl/formatter/formatter.py:113-159 | the file is changed exactly when it was read, the tool ran, and the new content (stdout when checking, the re-read in place) differs; a diff comes only with a change in check mode, and it is the filtered diff joined by newlines |
| Formatter.ProcessOneFileCases | tests/test_formatter.py:218-320 | the four outcomes: unchanged, changed in place with no diff, changed in check mode with the diff, and any failure reported as unchanged |
| Formatter.ChangedLeTotalPreorder | src/embedded_cereal_bowl/formatter/formatter.py:207 | the report order, by path, is a total preorder |
| Formatter.Contribution | src/embedded_cereal_bowl/formatter/formatter.py:191-198 | what one completed task adds to the report: a returned change under the project root gives its relative path and diff; anything else adds nothing |
| Formatter.ChangedResults | src/embedded_cereal_bowl/formatter/formatter.py:189-198 | the aggregation loop as a left fold over the tasks in completion order |
| Formatter.ChangedResultsMember | src/embedded_cereal_bowl/formatter/formatter.py:189-195 | an entry is collected exactly when some task contributes it |
| Formatter.ChangedResultsMeaning | src/embedded_cereal_bowl/formatter/formatter.py:191-198 | a changed file under the project root is reported with its diff; every reported entry comes from a task that returned a change; failed tasks report nothing |
| Formatter.RunTask | src/embedded_cereal_bowl/formatter/formatter.py:184-188 | the work submitted for one selected file: `process_one_file` with that file's command and its own read, run and diff results |
| Formatter.CollectResults | src/embedded_cereal_bowl/formatter/formatter.py:189-198 | the `as_completed` loop collects exactly the left fold of the tasks' contributions, in completion order |
| Formatter.TasksReport | src/embedded_cereal_bowl/formatter/formatter.py:184-198 | when every selected file completes exactly once, an entry is collected exactly when some selected file whose task did not raise changed, lies under the project root, and the entry is its relative path with its diff |
| Formatter.ReportMeaning | src/embedded_cereal_bowl/formatter/formatter.py:184-207 | the sorted report holds exactly the entries of the selected files that changed, and it is non-empty exactly when some selected file under the root changed |
| Formatter.ProcessFilesParallel | src/embedded_cereal_bowl/formatter/formatter.py:162-227 | an empty map does nothing and exits 0; otherwise one task per selected file completes in the given order; an entry is reported exactly when its file is selected, its task did not raise, it changed and it lies under the project root; the status is 1 exactly in check mode when some such file changed; the root `formatter.py` (lines 121-183) aggregates the same way |
| Formatter.ReportSortedAndOrderFree | src/embedded_cereal_bowl/formatter/formatter.py:189-207 | the report is sorted and is a permutation of the results; with distinct paths it does not depend on the order tasks completed in |
| Formatter.ChangedResultsPermute | src/embedded_cereal_bowl/formatter/formatter.py:189-195 | completing the same tasks in another order collects the same results, up to order |
| Formatter.ChangedResultsAppend | src/embedded_cereal_bowl/formatter/formatter.py:189-195 | the results of two runs of completions are the results of each, concatenated |
| Formatter.CheckForTools | src/embedded_cereal_bowl/formatter/formatter.py:242-251 | true exactly when every configured command is on the search path; every missing one is reported, without stopping early |
| LegacyFormatter.SplitExt | formatter.py:71 | `os.path.splitext` on a name: from the last dot unless everything before it is dots, else empty |
| LegacyFormatter.Classify | formatter.py:65-74 | the root formatter's selection of a name: the name map first, then the extension map on `splitext` |
| LegacyFormatter.ClassifyAgrees | formatter.py:65-74 | the `splitext`-based classification equals the package's (pathlib `suffix` up to Python 3.13), except on names whose part before the last dot is all dots |
| LegacyFormatter.ClassifyDiffersOnLeadingDots | formatter.py:71 | `..cpp` goes to clang-format in the package (pathlib `suffix` up to Python 3.13) but is skipped here |
| LegacyFormatter.FindAllFiles | formatter.py:33-75 | a root that is not a directory exits 1; otherwise the map is the classification of every file of the pruned walk, links to files included; `omni_formatter.py` (lines 35-83) selects files with the same code |
| LegacyFormatter.FindAllFilesSelected | formatter.py:58-74 | a key is exactly a walked file that classifies; it maps to the classification of its name, lies under the root and lies inside no excluded directory |
| LegacyFormatter.SameSelectionAsPackage | formatter.py:58-74 | a non-link file whose name both versions classify alike is selected here exactly when the package selects it |
| LegacyFormatter.ProcessOneFile | formatter.py:78-118 | the root formatter's file is changed exactly when it was read, the tool ran, and the new content (stdout when checking, the re-read in place) differs; a diff comes exactly with a change in check mode; any failure reports unchanged |
| LegacyFormatter.ProcessOneFileAgrees | formatter.py:85-113 | the root formatter's per-file outcome equals the package's on every input |
| LegacyFormatter.CommandArgsAgree | formatter.py:88-95 | the check-mode and in-place command lines equal the package's |
| LegacyFormatter.CheckForTools | formatter.py:200-210 | exits 1 exactly when some configured command fails to run; every missing one is reported; `omni_formatter.py` (lines 162-174) checks tools with the same code |
| OmniFormatter.CommandArgs | omni_formatter.py:92 | the command line is the command, `-i`, then the path |
| OmniFormatter.FormatOneFile | omni_formatter.py:86-97 | changed exactly when both reads and the run succeed and the bytes differ; any failure reports unchanged |
| OmniFormatter.FormatOneFileAgrees | omni_formatter.py:90-94 | the decision matches the package formatter's in-place decision |
| OmniFormatter.ReformattedFiles | omni_formatter.py:127-133 | the collection loop as a left fold over the tasks in completion order: each finished change under the project root adds its relative path string |
| OmniFormatter.ReformattedFilesMember | omni_formatter.py:127-131 | a string is collected exactly when some task contributes it |
| OmniFormatter.ReformattedFilesMeaning | omni_formatter.py:129-131 | a changed file under the project root is listed; every listed file comes from a task that finished with a change |
| OmniFormatter.RunTask | omni_formatter.py:121-125 | the work submitted for one selected file: `format_one_file` with that file's command and its own read and run results |
| OmniFormatter.CollectReformatted | omni_formatter.py:127-133 | the `as_completed` loop collects exactly the left fold of what the tasks add, in completion order |
| OmniFormatter.TasksList | omni_formatter.py:121-137 | when every selected file completes exactly once, a string is listed exactly when it is the relative path of a selected file whose task did not raise, that changed and lies under the project root |
| OmniFormatter.RunFormatterParallel | omni_formatter.py:100-141 | an empty map reports nothing; otherwise one task per selected file completes in the given order, the list is the sorted reformatted files, a path is listed exactly when its selected file's task did not raise and changed it, and the count is the list's length |
| OmniFormatter.ReportSorted | omni_formatter.py:137 | the printed list is sorted and is a permutation of the reformatted files |

## Left out

- Concurrency: the `ProcessPoolExecutor` fan-out is not modelled. Aggregation is a sequential fold over the tasks' results, in an arbitrary completion order given as input.
- Foreign calls are inputs, not computations:
  - `read_bytes` and `open().read()` are the file node's read result;
  - `subprocess.run` is a function from command line to result;
  - `shutil.which` and `command --version` are a set of available commands;
  - `Path.glob` is the list of matches per pattern;
  - `iterdir` and `os.walk` listings are the tree's children, in the order given.
- `difflib.unified_diff`: its output lines are an input. Only the filter over them is modelled.
- The decoding of file bytes for the diff is not modelled; it only feeds `difflib`.
- `Path.resolve` and `os.path.abspath` are the identity. Paths are taken as already absolute and normalised; `..` parts, links above the root and absolute ignore names are not modelled.
- Links inside the repository named as ignores are not modelled either. If `build` is a link to `out` and `--ignore build` is given, the package checker (`src/embedded_cereal_bowl/check_crlf.py` line 61) and all three formatters (`src/embedded_cereal_bowl/formatter/formatter.py` line 44, `formatter.py` line 38, `omni_formatter.py` line 43) resolve the ignore to `out` and skip `out`. The root `check_crlf.py` (line 67) uses `abspath`, which does not follow links, so it excludes only `build` and still walks `out`. The model takes the excluded set as given, so `LegacyCheckCrlf.SameFilesAsPackage` compares the two for one excluded set.
- Formatter.ProcessOneFile: the path is kept as parts. The round trip through `str(path)` and back to `Path` in the aggregation is taken as the identity.
- Formatter.ReportSortedAndOrderFree: order independence is stated only when the reported paths are distinct. With two results for the same path, Python breaks the tie on the diff text, and the model does not.
- Formatter.ProcessFilesParallel and OmniFormatter.RunFormatterParallel: a task that raises in the pool (for example a pickling or worker failure) is named in the `raised` input and contributes nothing; which tasks raise is not computed. Files outside the project root are skipped, since `relative_to` raises for them.
- `relative_to` raising inside the aggregation loop is modelled as that task contributing nothing, which is what the surrounding `except` does.
- LegacyFormatter.CheckForTools: `FileNotFoundError` and `CalledProcessError` from a `--version` run are one "not available" case. Other exceptions from `subprocess.run` are not modelled.
- Printing is not modelled: progress lines, colours, banners, `MAX_WIDTH`, verbose listings and error messages.
- The `argparse` front ends, the `main` functions, exit status 130 on keyboard interrupt, and the `run_project_tasks`, `format_project`, `format_files` and `check_format` wrappers are not modelled. Only the ignore-path construction of the root scripts (`FsTree.JoinIgnores`) is modelled.
- Generators are modelled as the full sequence they yield. Laziness and interleaving with printing are not modelled.
- Formatter.Suffix follows pathlib as of Python 3.13 and earlier (the last dot, unless it is the first or last character). Later pathlib versions compute the suffix through `splitext`; under those, `..cpp` has no suffix either.
- `Path` and `str` ordering: `sorted` is modelled on code points and parts; its stability is not stated, since the lists it sorts have distinct keys.
- `timestamp.py`, `archive_logs.py`, `monitor.py`, `cli.py` and the `__init__.py` files are not part of this model. They are float and datetime handling, zip and file I/O, a serial loop and dispatch.
- The colorama constants are their standard ANSI SGR strings. Terminal-side behaviour such as Windows conversion is not modelled.
