# Verified models of the ns-3 build, binding and test tooling

The algorithms that live in this repository's tooling, modelled in Dafny and proved to do what
they are for.  `dafny verify dfyconfig.toml` checks everything.

- **Dependency graphs** (`Graphs`, `Topsort`, `Levels`, `SortsAgree`, `Rotations`, `FindCycles`).
  `topsort` and `topsort_levels` work on dictionaries of parent counts and child lists;
  `find_cycles` pushes simple paths on a stack.  The sorts are characterised by reachability
  from a cycle and by longest incoming paths, the cycle search by "every cycle once, up to
  rotation".  A cycle is a simple path whose last node has an edge to its first.
- **Mini shell** (`ShellSyntax`, `ShellPrinting`, `ShellRefusals`, `ShellCommands`, `Shell`, `ShellEval`,
  `ShellRuns`, `ShellStarts`, `ShellPosix`).  The six-state token loop against a recursive grammar,
  and which token lists that accepts and how it reads them; the executor against a recursive evaluator that produces a status and
  a log of processes started and waited for and of files opened and closed; what holds of every
  such log, by the fields of the nodes and the exit statuses; and the comparison with the AND-OR
  lists of section 2.9.3 of the POSIX.1-2017 Shell Command Language.
- **Parallel test runner** (`TestRunner`).  Worker threads, two queues, stop jobs and the
  interrupt flag as a step system over all interleavings, with the program's threads as methods
  that perform its steps.
- **Type-graph gatherer** (`TypeGather`, `FollowedEdges`, `GatheredEntries`, `GatheredOrder`).
  `StaticInformation::DoGather`, a backtracking walk with two shared stacks, against the list of
  all paths that repeat no type; which edges those paths take; and when what it records is without
  duplicates or in order.
- **Patches** (`PatchText`, `PatchTokens`, `PatchRoundTrip`, `PatchFile`, `PatchObjects`).  The patch
  reader and writer of `check-style.py`, on values, on the text of a file and on the objects it
  builds; what they make of any text, and when they undo each other.
- **Bits and combinatorics** (`BinaryStrings`, `Gray`, `Permutations`).
- **Timelines** (`Grid`) and the **chunked sender** of the large-transfer example
  (`LargeTransfer`).

`Options` and `Sequences` hold what several of these share.

Abstract inputs stand for everything outside these algorithms: the exit status of the k-th
process, what running a job returns, which types are registered and derived from which, what a
socket answers.  Exceptions are values.

## Model

| member | source | states |
|---|---|---|
| `Topsort.BuildTables` | bindings/python/topsort.py:77-90 | the two dictionaries hold, for every element, the number of pairs that name it as child and the children of its pairs in order, duplicates included |
| `Topsort.Topsort` | bindings/python/topsort.py:77-112 | returns exactly on acyclic pairs; the answer has no duplicates, lists a parent before each of its children and consists of the nodes not reachable from a cycle; an error carries tables that describe what is left; no missing key is ever read while `answer` grows in its own loop |
| `Topsort.RemoveAnswered` | bindings/python/topsort.py:97-106 | one round of the loop keeps the tables in step with the part of the answer already handled |
| `Topsort.AnsweredIffOffCycles` | bindings/python/topsort.py:92-112 | an answer closed under Kahn's rule contains a node if and only if no cycle leads to it |
| `Topsort.NothingLeftIffAcyclic` | bindings/python/topsort.py:108-112 | nothing is left over if and only if there is no cycle |
| `Levels.TopsortLevels` | bindings/python/topsort.py:157-172 | level k is exactly the set of nodes off all cycles whose longest incoming path has k edges; all nodes are levelled if and only if there is no cycle; otherwise the tables describe the rest |
| `Levels.LevelsAreTopological` | bindings/python/topsort.py:157-172 | the levels one after the other list every node off the cycles exactly once, each parent before its children |
| `Levels.LevelsCore` | bindings/python/topsort.py:203-232 | the same for any tables that describe a graph |
| `Levels.ConsistentDescribed` | bindings/python/topsort.py:195-200 | tables that meet the documented contract (each count is the number of times the child lists name the item) describe the graph whose edges are in the child lists |
| `Levels.RemoveLevel` | bindings/python/topsort.py:217-224 | removing a level leaves tables that describe the graph without its nodes |
| `Levels.LevelIsDepth` | bindings/python/topsort.py:203-224 | in a list of levels where every node has a parent in the level before and none later, the number of the level is the length of the longest incoming path |
| `Levels.DepthOffCycle` | bindings/python/topsort.py:226-229 | a node with a longest incoming path is not reachable from a cycle |
| `SortsAgree.BothSorts` | bindings/python/topsort.py:61-232 | on the same pairs the two sorts succeed or fail together, with equal residual counts, and the flat answer is the levels one after the other |
| `SortsAgree.ParentsCounted` | bindings/python/topsort.py:77-90 | the parent count in the tables of both sorts is the number of positions in the pair list that name the node as child |
| `SortsAgree.ChildrenListed` | bindings/python/topsort.py:77-90 | the child list is the list of children at the positions that name the node as parent, in order |
| `SortsAgree.SameResidue` | bindings/python/topsort.py:108-111 | any two outcomes with the promised properties agree on success, counts and children left |
| `SortsAgree.ResidueMeaning` | bindings/python/topsort.py:108-111 | the residual keys are the nodes on or reachable from a cycle, each count is the positive number of pairs from residual parents, and the residue contains a cycle |
| `SortsAgree.LeftHaveChildrenIff` | bindings/python/topsort.py:108-111 | after an error everything left has a child if and only if no node without children is on or reachable from a cycle |
| `SortsAgree.LeftWithoutChild` | bindings/python/topsort.py:108-111 | on the pairs (1,1) and (1,2) every outcome is an error that leaves 2, which has no child |
| `SortsAgree.AnswerByDepth` | bindings/python/topsort.py:97-103 | the queue discipline makes longest-path lengths non-decreasing along the answer |
| `SortsAgree.FlatAnswerIsLevelled` | bindings/python/topsort.py:97-103 | the answer of `topsort` is cut into consecutive stretches that are rearrangements of the levels |
| `Rotations.IsRotated` | bindings/python/rad_util.py:735-775 | true if and only if the first sequence is a rotation of the second |
| `Rotations.RotationSymmetric` | bindings/python/rad_util.py:735-775 | being a rotation is symmetric |
| `Rotations.RotationTransitive` | bindings/python/rad_util.py:735-775 | being a rotation is transitive |
| `FindCycles.FindCycles` | bindings/python/topsort.py:343-385 | terminates on every finite graph; every result is a cycle, no two are rotations of each other, every cycle is a rotation of a result; there are no results if and only if the graph is acyclic |
| `FindCycles.SearchFrom` | bindings/python/topsort.py:351-385 | one start finds every cycle reachable from it and marks only nodes reachable from it |
| `FindCycles.Expand` | bindings/python/topsort.py:355-385 | expanding a popped path keeps the frontier and makes the total number of simple extensions of the stacked paths smaller |
| `FindCycles.YieldIfNew` | bindings/python/topsort.py:369-378 | a cycle is added only if no known one is a rotation of it |
| `FindCycles.ClosedPathsCover` | bindings/python/topsort.py:346-385 | if every simple path from a start had its closing edges examined, every cycle reachable from the start is known |
| `FindCycles.CoverageGrows` | bindings/python/topsort.py:346-349 | skipping a marked start loses no cycle |
| `Shell.Pipeline.Parse` | waf-tools/shellcmd.py:121-201 | the six-state loop accepts a token list if and only if the recursive grammar does, with the grammar's nodes as result and as state |
| `Shell.Pipeline.CommitCommand` | waf-tools/shellcmd.py:101-104 | the pending command moves to the end of the pipeline |
| `ShellSyntax.EnvVarRoundTrip` | waf-tools/shellcmd.py:24 | every name and value of the right characters is recognised from its assignment token |
| `ShellPrinting.ItemsCollected` | waf-tools/shellcmd.py:154-199 | whatever their order, the words after a command name become its arguments and the redirections its streams; a second redirection of a stream, and nothing else, is an error |
| `ShellPrinting.ParsedWellFormed` | waf-tools/shellcmd.py:121-201 | whatever parses is a well-formed pipeline |
| `ShellPrinting.WellFormedAlternates` | waf-tools/shellcmd.py:164-187 | a well-formed pipeline has odd length and alternates commands and operators; a command writes to a pipe if and only if a pipe follows it; a directory change is last or followed by an And |
| `ShellPrinting.PrintThenParse` | waf-tools/shellcmd.py:121-201 | the canonical tokens of every well-formed pipeline parse back to it |
| `ShellPrinting.ParsableIffWellFormed` | waf-tools/shellcmd.py:121-201 | a node list is the result of some parse if and only if it is well-formed |
| `ShellRefusals.AssignmentIff` | waf-tools/shellcmd.py:24 | a token is an assignment if and only if it is a name of word characters, an equals sign and a non-empty value without white space, or that and one final line feed |
| `ShellRefusals.OnlyAssignmentsRefused` | waf-tools/shellcmd.py:121-201 | tokens that are all assignments, or none at all, are refused |
| `ShellRefusals.CdAcceptedIff` | waf-tools/shellcmd.py:121-201 | tokens that start a directory change, possibly after assignments, are accepted if and only if there are no assignments, at most one directory, and then nothing or an And and accepted tokens |
| `ShellRefusals.CommandAcceptedIff` | waf-tools/shellcmd.py:121-201 | assignments, a command name, its words and redirections and an operator with what follows it are accepted if and only if no stream is redirected twice, output was not redirected in front of a pipe, and what follows is accepted |
| `ShellRefusals.LastSignIgnored` | waf-tools/shellcmd.py:154-201 | a redirection sign that is the last token is ignored |
| `ShellRefusals.ItemsOrSign` | waf-tools/shellcmd.py:154-201 | whatever follows a command name is of the form of one of the two rows before: words and redirections up to an operator or the end, or up to a last sign |
| `ShellCommands.CommandRead` | waf-tools/shellcmd.py:136-199 | a command as a whole: the name and the words are its arguments in order, each redirection decides its stream, the other streams are inherited, and its variables are those assigned before it, each with the value of the last assignment |
| `Shell.Pipeline.ExecPipedCommands` | waf-tools/shellcmd.py:203-212 | every process is waited for once, in order; the status is that of the last one although the loop looks for any failure |
| `Shell.Pipeline.CloseFiles` | waf-tools/shellcmd.py:301-303 | every opened file is closed once, the shared null device never |
| `Shell.Pipeline.OpenFiles` | waf-tools/shellcmd.py:242-274 | each stream is what the field of the node asks for: a file opened for it, with the right name and mode, the null device under either name with nothing opened, the pipe, stdout, or the inherited one; no file is two streams and no other file is opened |
| `Shell.Pipeline.LaunchNode` | waf-tools/shellcmd.py:242-291 | starting a command logs its openings and then its start, with the arguments, the non-empty assignments, the directory and the streams its fields ask for, and keeps the segment's process and file lists complete |
| `Shell.Pipeline.Run` | waf-tools/shellcmd.py:214-346 | the loop over the flat node list yields the outcome and the log of the recursive evaluator over segments, which the rows below describe without it |
| `ShellEval.EvalOperator` | waf-tools/shellcmd.py:312-346 | the evaluator at an And or Or: finish the segment; go on with the rest if its status is 0 (And) or not 0 (Or), and return that status otherwise |
| `ShellEval.EvalPipe` | waf-tools/shellcmd.py:308-310 | at a pipe the segment goes on, nothing is waited for |
| `ShellEval.EvalChdir` | waf-tools/shellcmd.py:225-231 | `cd d &&` joins its directory to the one in which the rest of the pipeline runs; at the end or without a directory it is an exception |
| `ShellEval.LaunchAsAsked` | waf-tools/shellcmd.py:242-291 | what is logged for a command ends with its start, with its arguments, its assignments if there are any and its directory if one was changed to; before it are the openings of its files and nothing else |
| `ShellRuns.EveryRunIsClean` | waf-tools/shellcmd.py:203-346 | every run of a parsed pipeline is orderly; on a normal return the processes waited for are those started and the files closed those opened, each once, and the status is that of the last process |
| `ShellRuns.OrderlyEverywhere` | waf-tools/shellcmd.py:242-346 | at every point of an orderly log: a command reads from its predecessor exactly when that one writes to a pipe, only started processes are waited for, and a file is closed only after all processes started were waited for |
| `ShellRuns.AlwaysReturnsIff` | waf-tools/shellcmd.py:225-231 | without verbose, a run returns for all exit statuses if and only if no directory change is last or lacks its directory |
| `ShellRuns.EveryStartInPlace` | waf-tools/shellcmd.py:225-291 | in every run, the k-th process is the k-th command of the pipeline with its own arguments, started in the join of all directories changed to before it, with its non-empty assignments; its streams are what its fields ask for (a file opened before, for writing or reading, under that name; the null device; stdout; the pipe; inherited), and every file opened is a stream of a process started later |
| `ShellStarts.StartedIff` | waf-tools/shellcmd.py:214-346 | in every run, a command is started if and only if the run comes to it: along pipes, along an And after status 0, along an Or after any other status, and past directory changes that name their directory |
| `ShellStarts.NextStartedIff` | waf-tools/shellcmd.py:306-346 | the command after an And (an Or, a pipe) is started if and only if the one before it was started and returned 0 (not 0, anything) |
| `ShellRuns.VerboseReturnsIff` | waf-tools/shellcmd.py:320-343 | with verbose, a run returns if and only if the pipeline has neither And nor Or between commands and no directory change is last or lacks its directory |
| `ShellRuns.VerboseAndFails` | waf-tools/shellcmd.py:320-343 | with verbose, two commands with And between them never return, whatever their exit statuses |
| `ShellPosix.RunAgreesIff` | waf-tools/shellcmd.py:312-346 | for directory changes that start segments and succeed, one run does the same as the left-associative AND-OR list, whose condition for going on is stated apart from that of the run, if and only if all operators after the one that stops it are of its kind, the And after a directory change included |
| `ShellPosix.AgreesWithPosixIff` | waf-tools/shellcmd.py:312-346 | a pipeline does the same as the AND-OR list for all exit statuses if and only if it uses one kind of operator; directory changes in front of the whole do not count, a later one counts as an And |
| `ShellPosix.PipelineAgreesIff` | waf-tools/shellcmd.py:214-346 | the same on the node list: a pipeline whose directory changes name their directory, are not last and do not follow a pipe agrees for all exit statuses if and only if its And and Or nodes after the leading directory changes are all equal |
| `ShellPosix.OrThenAndDiffers` | waf-tools/shellcmd.py:312-346 | for any three commands, `a or b and c` with all of them succeeding stops after the first here and goes on to the third in POSIX |
| `ShellPosix.CdAfterOperator` | waf-tools/shellcmd.py:214-346 | for all commands x and y, a directory change between them agrees with POSIX for all exit statuses if And joins it to x, and not if Or does |
| `ShellPosix.WithoutCdIsPlain` | waf-tools/shellcmd.py:214-231 | every pipeline without `cd` takes part in the comparison, with no node left out |
| `TestRunner.InvAlways` | test.py:965-1033 | over every interleaving: each dispatched job is in exactly one place, stop jobs stand behind jobs, a worker leaves only for a stop job, jobs are given back untouched, skipped or run, and each counter is the number of collected jobs, not interrupted, of its kind: skipped, or returned 0, 1, 2, or anything else |
| `TestRunner.StepKeepsOrder` | test.py:1667-1670 | stop jobs stay behind jobs, and once a worker has left only stop jobs wait |
| `TestRunner.RunWorks` | test.py:965-1033 | the length of a schedule plus the steps left is five per job, three per worker and one for an interrupt |
| `TestRunner.NoDeadlock` | test.py:1689-1690 | with at least one worker, before the end some thread other than the signal handler can always move |
| `TestRunner.EveryRunCompletes` | test.py:1828-1829 | with at least one worker, every interleaving can be continued to the end |
| `TestRunner.CanFinishIff` | test.py:1399-1402 | the program can finish if and only if it has a worker or no job |
| `TestRunner.FinishedRun` | test.py:1667-1916 | at the end each job was collected exactly once, both queues are empty and all workers left; each counter is the number of collected jobs of its kind and return code, and with the interrupted jobs they add up to the number of tests; the status is 0 or 1, and 0 if and only if every job was not interrupted and was skipped or returned 0 |
| `TestRunner.UninterruptedRun` | test.py:1682-1916 | without an interrupt, whatever the interleaving, each counter is the number of tests that are to be skipped or whose running returns 0, 1, 2 or anything else, and the status is 0 if and only if every test is skipped or returns 0 |
| `TestRunner.InterruptedRun` | test.py:977-992 | the jobs whose results count at the end of an interrupted run are those that had a result when the interrupt came |
| `TestRunner.TestRun.CountResult` | test.py:1691-1718 | one result adds to the one counter its kind calls for, an interrupted one to none: counters that were the numbers of jobs by return code still are |
| `TestRunner.TestRun.MainStep` | test.py:1667-1829 | each step of the main thread is its next enabled event of the step system |
| `TestRunner.TestRun.WorkerStep` | test.py:965-1033 | each step of a worker is its next enabled event of the step system |
| `TestRunner.RunTests` | test.py:1399-1916 | under any scheduler the program with at least one worker ends, by a schedule of the step system; its counters are the numbers of jobs by return code; its status is 0 if and only if every job was not interrupted and was skipped or returned 0, and without an interrupt if and only if every test is skipped or returns 0 |
| `TypeGather.StaticInformation.DoGather` | utils/print-introspected-doxygen.cc:1199-1282 | terminates on every finite type graph, restores both stacks and appends one entry per simple path, in order; which edges the paths take is the subject of `FollowedEdges` |
| `FollowedEdges.EdgeIff` | utils/print-introspected-doxygen.cc:1199-1282 | an edge (name, target) of a type is followed if and only if an attribute of that name points to the target and the target is not Object; or a container attribute holds the target and the name is its name plus "/[i]"; or the target is registered and derives from the type, or is aggregated with it in either order, and the name is "$" plus the target's |
| `FollowedEdges.EdgesListed` | utils/print-introspected-doxygen.cc:1207-1281 | how many edges and in which order: one for each attribute that leads somewhere, then one for each derived type, then one for each aggregation the type takes part in, each group in order |
| `FollowedEdges.PlainObjectNotEntered` | utils/print-introspected-doxygen.cc:1211-1225 | no step of a recorded path goes by an attribute that points to a plain Object |
| `FollowedEdges.OnlyObjectRecordsItself` | utils/print-introspected-doxygen.cc:1211-1225 | from a type whose one attribute points to Object, only the type itself is recorded |
| `TypeGather.StaticInformation.FollowAggregate` | utils/print-introspected-doxygen.cc:1259-1281 | one aggregation of the current type leads to its partner, and only its edge is followed |
| `TypeGather.StaticInformation.Gather` | utils/print-introspected-doxygen.cc:1190-1195 | the output gains the entries of all simple paths from the type, unsorted |
| `TypeGather.StaticInformation.Get` | utils/print-introspected-doxygen.cc:1142-1156 | the strings of the entries of a type, in order |
| `TypeGather.SimpleMeansNoRepeats` | utils/print-introspected-doxygen.cc:1199-1206 | the stack test of the walk amounts to: the path exists and its types are pairwise different |
| `TypeGather.GatheredPaths` | utils/print-introspected-doxygen.cc:1199-1282 | the walk lists every path without a repeated type, no other path, none twice, in preorder |
| `TypeGather.GetFindsPaths` | utils/print-introspected-doxygen.cc:1142-1156 | a string is found for a type if and only if it is the string of a listed path that ends there |
| `GatheredEntries.AmbiguousIff` | utils/print-introspected-doxygen.cc:1199-1282 | where the name of an edge decides its target, two different recorded paths have the same end and labels if and only if some recorded path ends in a type with the same edge twice, to a type not on the path |
| `GatheredEntries.PathStringInjective` | utils/print-introspected-doxygen.cc:1104-1115 | path strings of labels without slashes (but for "/[i]" at the end) are equal only for equal labels |
| `GatheredEntries.NothingTwiceIff` | utils/print-introspected-doxygen.cc:1174-1195 | under the naming rules of the type system, a gathering records no entry twice if and only if no recorded path ends in a type with the same edge twice to a type not on the path |
| `GatheredEntries.NothingEverTwiceIff` | utils/print-introspected-doxygen.cc:1174-1195 | and this holds from every type if and only if no type has the same edge to another type twice |
| `GatheredEntries.AggregatedTwice` | utils/print-introspected-doxygen.cc:1289-1307 | whenever an aggregation of two types was recorded twice, gathering from the first records an entry twice |
| `GatheredEntries.NodeAndIcmpRecordsTwice` | utils/print-introspected-doxygen.cc:1305-1307 | so it is for the type system of these two types alone with the aggregation recorded on these two lines |
| `GatheredOrder.InOrderIff` | utils/print-introspected-doxygen.cc:1174-1195 | what a gathering records is in ascending order if and only if, at every type it climbs to by edges to later types, the edges to later types are in order, and an edge to an earlier type leads to one that every climb from the root comes by; two edges are in order if the latest type climbed to through the first is earlier than the target of the second, or is that target and the names decide |
| `GatheredOrder.AlwaysInOrderIff` | utils/print-introspected-doxygen.cc:1174-1195 | this holds from every type if and only if no edge leads to an earlier type and the edges of every type to later types are in order |
| `GatheredOrder.Top` | utils/print-introspected-doxygen.cc:1199-1282 | the latest type that edges to later types lead to: it is reached, and nothing reached is later |
| `GatheredOrder.DerivedFirstOutOfOrder` | utils/print-introspected-doxygen.cc:1174-1195 | with a derived type registered before its base, gathering from the base records out of order |
| `PatchText.HeaderMeans` | utils/check-style.py:254-293 | the printed chunk header reads back as the positions and the numbers of source lines (removed or unchanged) and of destination lines (added or unchanged) of the chunk |
| `PatchText.HeaderCounts` | utils/check-style.py:254-293 | its counts are the numbers of lines printed after it that start with "-" or a blank, and with "+" or a blank |
| `PatchText.LineToken` | utils/check-style.py:204-217 | a printed line is recognised as that line unless it imitates a file header, and then not as a line at all |
| `PatchTokens.HeaderIff` | utils/check-style.py:359-365 | a line is recognised as a chunk header with four given numbers if and only if it consists of them in digits, with the signs between them, whatever follows |
| `PatchTokens.TokenText` | utils/check-style.py:359-403 | every line of text is what it is recognised as, printed; a line not recognised starts with none of the signs and is no chunk header |
| `PatchTokens.ReadInOrder` | utils/check-style.py:359-403 | in whatever text is read, chunks and lines keep their order; each line is in the last chunk begun before it and each chunk in the last patch begun before it |
| `PatchTokens.RefusedIff` | utils/check-style.py:359-403 | a text is refused if and only if it has a line that is not recognised, a destination or chunk header before any source header, or a body line before any chunk header |
| `PatchRoundTrip.RoundTripIff` | utils/check-style.py:348-403 | parsing the printed lines of a patch set gives it back if and only if no removed text starts with "-- " and no added text with "++ " |
| `PatchRoundTrip.HeaderLineLost` | utils/check-style.py:204-217 | a removed line that reads "-- x" does not come back |
| `PatchFile.FileRoundTripIff` | utils/check-style.py:348-403 | writing a patch set to a file and parsing what the file is cut into at its line breaks gives it back if and only if, in addition, no text or file name has a line break in it; with and without carriage returns counted as such |
| `PatchFile.BrokenLineLost` | utils/check-style.py:348-403 | a removed line with a line feed in it imitates no header and does not come back |
| `PatchRoundTrip.ParseSize` | utils/check-style.py:359-403 | reading any accepted text stores exactly its body lines, whatever their order |
| `PatchRoundTrip.CountsReadBack` | utils/check-style.py:254-293 | a chunk that is written and read back comes back, and the counts in its header are the numbers of its source and destination lines, and of the printed lines with the signs of these |
| `PatchObjects.ReadLine` | utils/check-style.py:368-402 | one line changes the objects as the step on values says, including which chunk stays current across a file header, and fails exactly when it does |
| `PatchObjects.ParsePatchset` | utils/check-style.py:359-403 | the objects built stand for the patch set read on values; failure included |
| `PatchObjects.WriteThenParse` | utils/check-style.py:348-403 | writing objects to a file and parsing its lines builds equal objects if and only if no line imitates a file header and no text or file name has a line break in it |
| `Permutations.Permutations` | bindings/python/rad_util.py:310-326 | the loops compute the recursive list of insertions, characterised by the next three |
| `Permutations.PermsCount` | bindings/python/rad_util.py:310-326 | n! lists |
| `Permutations.ListedIffRearrangement` | bindings/python/rad_util.py:310-326 | a list is among them if and only if it is a rearrangement of the input |
| `Permutations.ListedOnce` | bindings/python/rad_util.py:310-326 | for distinct items no list occurs twice |
| `Gray.BijectionOnBits` | bindings/python/rad_util.py:612-615 | for every n the code maps the n-bit numbers one-to-one onto the n-bit numbers |
| `Gray.CodeBit` | bindings/python/rad_util.py:612-615 | each bit of the code is set if and only if the bit of the number at that place and the one above it differ |
| `Gray.DecodeEncode` | bindings/python/rad_util.py:612-615 | the parity decoder inverts the code |
| `Gray.NeighboursDifferInOneBit` | bindings/python/rad_util.py:612-615 | the codes of consecutive numbers differ in exactly one bit |
| `BinaryStrings.Int2BinCorrect` | bindings/python/rad_util.py:91-105 | for positive width, an error if and only if the number does not fit, otherwise a string of that width that `bin2int` reads back |
| `BinaryStrings.Int2BinWidthZero` | bindings/python/rad_util.py:98-104 | width 0 never fails and gives whole nibbles |
| `BinaryStrings.LeadingDigit` | bindings/python/rad_util.py:108-130 | the first digit of a binary string counts for the power of two of what follows it |
| `BinaryStrings.Increment` | bindings/python/rad_util.py:649-659 | the carry loop adds one, and the carry runs out at the top exactly on all ones |
| `BinaryStrings.BinaryRange` | bindings/python/rad_util.py:632-660 | terminates with 2^bits strings, the k-th being `int2bin(k, bits)`; none for width 0 |
| `Grid.TimelineDataRange.Search` | utils/grid.py:105-122 | on ranges in order of time, which may touch, finds a range that contains the key if and only if there is one |
| `Grid.TimelineDataRange.GetRanges` | utils/grid.py:136-152 | for every window, ordered or not: from a range that covers the start to one that covers the end, the first or last range standing in for an end in a gap, nothing if both are; without touching ranges exactly those that meet the window if both ends are covered, else all that end from the covered start on, or start up to the covered end |
| `Grid.TimelineDataRange.GetRangesBounds` | utils/grid.py:153-169 | the bounds of the same selection, for every window |
| `Grid.ChosenMeet` | utils/grid.py:143-169 | also where ranges touch, only ranges that meet the window at its covered ends are selected, and every range whose inside does is |
| `Grid.TouchingLosesRange` | utils/grid.py:143-169 | of two ranges that touch, the window of their common point selects one |
| `Grid.ExactIff` | utils/grid.py:143-152 | the selection is exact if and only if no range is lost between two gaps or added beyond one |
| `Grid.BeyondTheWindow` | utils/grid.py:143-152 | with one end in a gap, the selection is what meets the window plus everything after it, or before it |
| `Grid.TimelineEvent.Search` | utils/grid.py:201-218 | on sorted events, of which several may happen at once, the number of an event at the key, or of the first later one if there is none |
| `Grid.TimelineEvent.GetEvents` | utils/grid.py:226-235 | the events from the one found for the start to the one found for the end; if no two happen at once, all events of the window, and the first later one unless an event happens at its end; with the ends exchanged, the first event from the start on, and only if none lies from the end up to the start |
| `Grid.ChosenEventsInside` | utils/grid.py:226-235 | also with several events at once, every event between the ends is selected, one at each end where there is one, and none outside but the first later one when none happens at the end |
| `LargeTransfer.Sender.WriteUntilBufferFull` | examples/tcp/tcp-large-transfer.cc:198-216 | whatever the socket answers, the bytes it has taken are the beginning of the cyclic alphabet, as many as counted and never more than the total; no read leaves the buffer; the socket is closed unless a write failed |
| `LargeTransfer.Flow` | examples/tcp/tcp-large-transfer.cc:184-216 | over any sequence of calls, the first included, the socket has taken exactly the beginning of the alphabet up to the counter, and it is closed if and only if some call ended without a failed write |
| `LargeTransfer.ClosesEarlyIff` | examples/tcp/tcp-large-transfer.cc:198-216 | a call closes the socket with bytes unsent if and only if no write fails before the first lack of free space and the writes up to there leave some unsent |
| `LargeTransfer.TooLittleCloses` | examples/tcp/tcp-large-transfer.cc:198-216 | if no write fails before the first lack of free space and what the socket would take up to there adds up to too little, the call closes with bytes unsent |
| `LargeTransfer.ProgressCompletes` | examples/tcp/tcp-large-transfer.cc:198-216 | with an answer for each byte left that finds space and takes something, the call completes the transfer |

## Where the code differs from what it says

- `topsort` and `topsort_levels_core` explain their error by "everything left has at least one
  child" (bindings/python/topsort.py:109, 227).  `SortsAgree.LeftWithoutChild` is an input where
  this is false, `SortsAgree.LeftHaveChildrenIff` says exactly when it is true.  What always holds
  is that everything left has a parent that is left: `SortsAgree.ResidueMeaning`.
- `run` groups `a || b && c` as `a || (b && c)`: `ShellPosix.OrThenAndDiffers`.
  `ShellPosix.PipelineAgreesIff` says exactly which pipelines notice.
- With verbose on, `run` reads `retval` before it is assigned at every `&&` and `||`
  (waf-tools/shellcmd.py:322-343): see `ShellRuns.VerboseReturnsIff` and `ShellRuns.VerboseAndFails`.
- `Uniquefy` says that it works in place but takes its argument by value
  (utils/print-introspected-doxygen.cc:1174), so `Gather` leaves its output unsorted and with
  all its entries.  There are duplicates to remove: the aggregation of Node and Icmpv4L4Protocol
  is recorded twice (lines 1305 and 1307), see `GatheredEntries.AggregatedTwice` and
  `GatheredEntries.NodeAndIcmpRecordsTwice`.  `GatheredEntries.NothingTwiceIff` and
  `GatheredOrder.InOrderIff` say exactly when there was nothing to do, `GatheredEntries.NothingEverTwiceIff`
  and `GatheredOrder.AlwaysInOrderIff` when there never is.
- A window whose two ends fall into gaps selects no range at all (utils/grid.py:145-146), even if
  ranges lie inside it: `Grid.GapsLoseRanges`.
- `WriteUntilBufferFull` also closes the socket when it merely ran out of free space
  (examples/tcp/tcp-large-transfer.cc:215): `LargeTransfer.ClosesAfterFive`,
  `LargeTransfer.ClosesEarlyIff` and `LargeTransfer.TooLittleCloses`.
- A removed line "-- x" prints as a file header (utils/check-style.py:211, 360):
  `PatchRoundTrip.HeaderLineLost`.  A text with a line break in it prints as two lines:
  `PatchFile.BrokenLineLost`.  `PatchFile.FileRoundTripIff` says when neither matters.
- `binary_range(0)` is empty although there is one string of width 0, and `int2bin` with width 0
  ignores the width.

## Left out

- Dictionary order: `topsort`, `topsort_levels` and `find_cycles` visit keys in an arbitrary order, and the theorems hold for each.  Nodes are natural numbers; only their equality is used.
- Python 2 forms (`has_key`, `raise StopIteration`, `print`): the intent is modelled.  A generator is a method that returns the sequence it yields, and its consumer does not change yielded cycles.
- Levels.LevelsCore: for tables that describe one graph, which its documentation asks for (`Levels.ConsistentDescribed`); counts that contradict the child lists are not covered.
- Rotations.IsRotated: not for two empty sequences, on which the code indexes out of range.
- Shell: splitting a string with shlex, failures to open a file or to start a process, merging with the process environment, the parent's copies of pipe ends, display and debug output, `get_abbreviated_command` (whose `||` branch can never be taken), and `run` on an empty pipeline, which returns nothing and which `parse` never produces.
- Shell.Pipeline.Parse: Command and Chdir nodes are values, not objects, since only the pending one is ever changed; after a failed assertion the state of the object is not described.
- ShellPosix: a `cd` after a pipe (a subshell there), without a directory (an exception here) or last (an exception here); a `cd` that fails, which there has a status and here is an exception of the process that is started next.
- ShellRuns.EveryRunIsClean: after an exception (a failed `cd`), what was started or opened in the segment under way is left as it is, as in the code.
- TestRunner: report writing, option parsing and the making of the job list; exceptions in workers; the time a job takes, running it being one step.  A job is a value because it is in one place at a time; workers hold theirs in the state.
- TestRunner.RunTests: for at least one worker; without one the main thread waits for ever unless there is no job, as `TestRunner.CanFinishIff` states.
- TypeGather: the type system is data (registered types with attributes, who derives from whom); `GetNoTypeIds`, `RecordAggregationInfo` and all printing are not modelled.
- TypeGather.StaticInformation.Gather: for empty stacks, which is how the constructor and every earlier call leave them.
- Patches: positions are natural numbers; a line is a value and has a kind, so the "invalid patch" exception for one without does not occur; `apply` (not implemented) and `remove_trailing_whitespace_changes` are not modelled.
- GatheredOrder.InOrderIff: for the same names as the next line.
- GatheredEntries.NothingTwiceIff: for names as the type system has them: type names distinct (src/core/model/type-id.cc:386-388), the attribute names of a type distinct (src/core/model/type-id.cc:663-668), none with a slash, no attribute named "[i]" or with a "$" in front, which nothing in the source enforces.
- GatheredOrder: the order of entries is that of the standard pair: types by registration number (src/core/model/type-id.cc:1227-1230), then strings.
- BinaryStrings: negative numbers.
- Grid: the sorts (the lists are taken to be in order of time; ranges may touch, but not overlap), `get_bounds`, `get_events_bounds` and all drawing.
- LargeTransfer: the simulation around the sender; a socket is its free space, what it takes of each write and whether it was closed, and it does not call the sender back from within a write, since a write stores the bytes and schedules the rest (src/internet/model/tcp-socket-base.cc:787-823).
- The remaining parts of `rad_util.py` (floating-point helpers, random vectors, module lookup) and the ns-3 examples, bindings and documentation markup, which are wiring around libraries that are not part of this model.
