# KDevelop build-system and debugger back ends, modelled in Dafny

This project models the string-handling and state-keeping parts of KDevelop's
debugger and build-system plugins, and proves properties of the model. Each
modelled source file has one Dafny module and one `.dfy` file:

- `MIDebugger` (`mi_debugger.dfy`) models the low-level connection to a GDB/MI
  debugger process. It covers how standard output is split into lines, and how
  each parsed record is dispatched: a Result record goes to the one command in
  flight, while Async and Stream records are broadcast. It also covers the
  handling of the process finishing or failing.
- `MIVariable` (`mi_variable.dfy`) models the tree of debugger variables and
  their debugger-side variable objects (varobjs). The session's
  handle-to-variable table is kept in step with the tree while varobjs are
  created, attached, updated, fetched in batches, narrowed and destroyed.
- `MakefileResolver` (`makefile_resolver.dfy`) models how custom-make projects
  find their include paths and defines. It asks `make -n` how a file would be
  built, follows recursive `cd dir && make` lines, and collects the `-I`, `-D`
  and framework flags. It also covers the parent-directory search, the
  out-of-source build mapping, unescaping and path merging.
- `GccLikeCompiler` (`gcc_like_compiler.dfy`) models the flags added for each
  language and standard, the parser of the include search list printed by
  `-E -v`, and the cache of defines and includes kept per argument string.
- `CompilerProvider` (`compiler_provider.dfy`) models the registry of compilers
  (registering, unregistering and the name check). It also covers the default
  compiler lookup and the per-item configuration lookup, which picks the
  exact entry or else the closest ancestor entry.
- `QMakeProjectFile` (`qmake_project_file.dfy`) models what a parsed `.pro`
  file yields: the defaults in place after reading, DEFINES as name/value
  pairs, the template, the targets, the framework directories and the include
  directories (with the Qt module directories).
- `QMakeConfig` (`qmake_config.dfy`) models parsing `qmake -query`, finding
  the basic mkspec, mapping a source directory to its build directory, and
  choosing the qmake executable.
- `CMakeServer` (`cmake_server.dfy`) models the CMake server protocol's framing
  between the open and close tags, and the client's reassembly of responses
  from arbitrary socket reads.
- `CMakeBuildDirChooser` (`cmake_build_dir_chooser.dfy`) models the dialog that
  validates a CMake build directory. It reads the source directory, install
  prefix and build type out of `CMakeCache.txt`, and classifies the chosen
  folder.
- `CTestFindJob` (`ctest_find_job.dfy`) models the job that lists a test
  executable's test functions and registers the suite once every source file
  has been parsed.

`Text` (`text.dfy`) holds the few QString/QByteArray operations the code
relies on, each specified by what it returns. These are `startsWith`,
`indexOf`, `lastIndexOf`, `trimmed` (with ASCII white space only), `split`, `remove` and joining.

Objects whose fields the source updates are classes whose methods state their
whole new state in terms of pure functions. The properties the source relies
on are proved about those functions as lemmas.

Processes, sockets, regular expressions, the file system and parsers for
other formats are parameters. They are functions or values handed to the
operation that uses them, as listed under "## Left out".

## Model

| member | source | states |
|---|---|---|
| MIDebugger.Completion | debuggers/common/midebugger.cpp:203-235 | a done, running or exit reply invokes the command's handler and reports no error; an error reply invokes the handler iff the command handles errors, and reports the error unless that handler took it; completion never emits ready by itself |
| MIDebugger.Broadcast | debuggers/common/midebugger.cpp:243-303 | exec `stopped` and `running` emit programStopped or programRunning, a notify record emits notification, a status record nothing; console stream output goes to the command in flight, never to a missing one, and every stream record ends with streamRecord |
| MIDebugger.Dispatch | debuggers/common/midebugger.cpp:147-325 | an unparseable line changes nothing; a Result with no pending command or a foreign token ends the session abnormally, keeps the slot and emits no ready; a matching Result whose handler returns frees the slot and emits the echo, then the Completion events of its reason (handler invoked or error reported), then ready exactly once, last; a matching Result whose handler throws invokes it, keeps the slot, emits no ready and ends the session abnormally; any other record keeps the slot and never emits ready |
| MIDebugger.Frame | debuggers/common/midebugger.cpp:126-138 | the buffer splits into newline-free complete lines and a newline-free partial rest, which joined back with their newlines give the buffer |
| MIDebugger.FrameUnique | debuggers/common/midebugger.cpp:127-138 | the split into lines and rest is the only one: framing the bytes of any newline-free lines and rest gives back exactly those lines and that rest |
| MIDebugger.FrameHead | debuggers/common/midebugger.cpp:131-137 | a buffer that starts with a newline-free line frames as that line followed by the framing of what comes after its newline |
| MIDebugger.FrameIncremental | debuggers/common/midebugger.cpp:122-139 | framing is restartable: keeping the partial rest and framing it with the next chunk yields the same lines and rest as framing everything at once |
| MIDebugger.NoResultKeepsSlot | debuggers/common/midebugger.cpp:243-306 | a run of lines none of which parses to a Result leaves the command in flight as it was and emits no ready |
| MIDebugger.Debugger.IsReady | debuggers/common/midebugger.cpp:98-101 | ready exactly when no command is in flight |
| MIDebugger.Debugger.Execute | debuggers/common/midebugger.cpp:76-96 | the command becomes the one in flight, marked submitted; its text is written, and echoed to the user or internal output according to the command, with every prompt setting cut out and the `(gdb) ` prefix added; the connection is no longer ready |
| MIDebugger.NoPromptSettingKept | debuggers/common/midebugger.cpp:88-90 | a command text in which the pattern `set prompt \032.\n` matches nowhere is echoed unchanged |
| MIDebugger.PromptSettingRemoved | debuggers/common/midebugger.cpp:88-90 | a prompt setting at the front is cut out whatever its prompt character, and the scan resumes after it |
| MIDebugger.Debugger.ProcessLine | debuggers/common/midebugger.cpp:147-325 | the command slot and the emitted events are those of Dispatch for the line, the throwing handler included; the output buffer is untouched |
| MIDebugger.Debugger.ReadyReadStandardOutput | debuggers/common/midebugger.cpp:122-139 | after appending the data every complete line is processed in order (the slot and events are those of running Dispatch over the framed lines) and only the newline-free partial line stays buffered |
| MIDebugger.Debugger.ReadyReadStandardError | debuggers/common/midebugger.cpp:141-145 | standard error text is forwarded as internal debugger output and nothing else changes |
| MIDebugger.Debugger.ProcessFinished | debuggers/common/midebugger.cpp:327-334 | `Process exited` is shown and the session ends, abnormally unless the exit code is 0 and the exit was normal |
| MIDebugger.Debugger.ProcessErrored | debuggers/common/midebugger.cpp:336-365 | a failed start or a crash shows its dialog, prints its message and ends the session abnormally; any other process error is ignored |
| MIVariable.VariableSession.SessionIsAlive | debuggers/common/mivariable.cpp:36-45 | alive exactly when the variable has a session that has started, has not ended and is not shutting down |
| MIVariable.VariableSession.AddVariable | debuggers/common/mivariable.cpp:47-52 | a fresh top-level variable with no handle is added under a new id; the handle table stays well formed and nothing else changes |
| MIVariable.VariableSession.SetVarobj | debuggers/common/mivariable.cpp:87-101 | with no session nothing changes; otherwise the old handle leaves the table, the new one is stored on the variable and maps to it, and the table stays well formed |
| MIVariable.VariableSession.Destroy | debuggers/common/mivariable.cpp:72-85 | the variable and its whole subtree are gone, the table loses every handle they held, and VarDelete is sent only for a top-level variable with a handle whose session is alive |
| MIVariable.VariableSession.PruneChildren | debuggers/common/mivariable.cpp:283-287 | children are removed from the end, each with its subtree and its handles, until at most the requested number remain; the tree stays well formed |
| MIVariable.VariableSession.CreateChild | debuggers/common/mivariable.cpp:54-70 | with no session nothing is created; otherwise a non-top-level, changed child bound to the reported handle is appended as the last child and registered in the table |
| MIVariable.VariableSession.AttachMaybe | debuggers/common/mivariable.cpp:164-178 | a variable that already has a handle, or a missing debug controller, changes nothing; otherwise the variable takes the current session and VarCreate with the next id is sent iff that session is alive |
| MIVariable.VariableSession.FetchMoreChildren | debuggers/common/mivariable.cpp:246-258 | when the session is alive one VarListChildren from the current child count to fetchStep more is sent with a fresh handler counting one active command; otherwise nothing is sent |
| MIVariable.VariableSession.SetFormat | debuggers/common/mivariable.cpp:341-345 | the format is stored and re-applied below the variable; only formats change, nothing outside its subtree changes, and setting the current format changes nothing |
| MIVariable.VariableSession.FormatChanged | debuggers/common/mivariable.cpp:337-355 | a variable with children passes its format to each child, and no command it causes re-formats the variable itself; a leaf sends VarSetFormat with its handle and format iff its session is alive; only formats change |
| MIVariable.VariableSession.HandleSetFormatReply | debuggers/common/mivariable.cpp:328-332 | a reported value replaces the shown one of a variable that still exists; otherwise nothing changes |
| MIVariable.VariableSession.HandleCreateReply | debuggers/common/mivariable.cpp:113-155 | a reply for a deleted variable is ignored; otherwise the children are deleted and the variable becomes Created(n, reply), the table rebinds the handle, children are fetched from 0 for an expanded variable with children, a non-natural format is re-applied, and the callback learns whether a value was reported |
| MIVariable.VariableSession.HandleUpdate | debuggers/common/mivariable.cpp:260-308 | the tree and table become Updated(...) of the old ones, as many ids are used as children are created, a fetch is sent iff the type changed and the session is alive, and the tree stays well formed |
| MIVariable.VariableSession.AppendChildren | debuggers/common/mivariable.cpp:290-299 | one child per tuple is appended in order under consecutive fresh ids and registered, later handles winning |
| MIVariable.FetchJoin.TakeChildren | debuggers/common/mivariable.cpp:199-215 | every pseudo-child (public, protected, private) is re-queried through the same handler, raising its counter, and every other child is created under the variable, in order |
| MIVariable.FetchJoin.Handle | debuggers/common/mivariable.cpp:192-230 | a reply for a deleted variable is ignored; otherwise the counter drops by one and rises by one per pseudo-child, the real children are created, hasMore is taken from the reply, and allChildrenFetched fires and the handler finishes exactly when the counter reaches zero |
| MIVariable.Created | debuggers/common/mivariable.cpp:115-141 | after a create reply the variable has no children and is in scope; an error only shows the error, success takes the handle (when there is a session), type, value and hasMore from has_more or a non-zero numchild |
| MIVariable.ChildrenPartition | debuggers/common/mivariable.cpp:202-214 | each child of a reply is either created or re-queried, never both: the created and re-queried counts add up to the number of children |
| MIVariable.MadePrefix | debuggers/common/mivariable.cpp:202-214 | children created from part of a reply come first, in the same order, among those created from the whole |
| MIVariable.MadeNext | debuggers/common/mivariable.cpp:210-213 | a child that is not a pseudo-child is the next child created |
| MIVariable.SubtreeAtLeast | debuggers/common/mivariable.cpp:63-64 | parents are created before their children, so every member of a subtree has an id no smaller than its root |
| MIVariable.DeleteKeepsWellFormed | debuggers/common/mivariable.cpp:72-85 | deleting a detached subtree and the handles its variables held keeps parents, children and the handle table consistent |
| MIVariable.GrownChildren | debuggers/common/mivariable.cpp:63-64 | createChild appends the new ids in order to the parent's child list and changes nothing else of the parent |
| MIVariable.GrownNodes | debuggers/common/mivariable.cpp:54-70 | each new id holds the child createChild builds from its tuple, and every other variable is left alone |
| MIVariable.UpdateOutOfScope | debuggers/common/mivariable.cpp:262-274 | out of scope only the scope flag changes, and the children are kept unless the type changed |
| MIVariable.InScopeUpdateShape | debuggers/common/mivariable.cpp:276-307 | in scope the variable keeps its first children down to the new count (none after a type change), then the new children, and shows the reported value, new type and hasMore, marked changed |
| MIVariable.UpdateNewChildren | debuggers/common/mivariable.cpp:290-299 | in scope and with a session, the k-th new child is the node createChild builds from the k-th tuple, under the k-th fresh id |
| MakefileResolver.MergePaths | projectmanagers/custommake/makefileresolver/makefileresolver.cpp:124-130 | the loop appends, in order, each source path the destination does not yet hold: the result is Merged(dest, src) |
| MakefileResolver.MergedKeepsDestination | projectmanagers/custommake/makefileresolver/makefileresolver.cpp:124-130 | the destination list comes first, unchanged and in order |
| MakefileResolver.MergedElements | projectmanagers/custommake/makefileresolver/makefileresolver.cpp:124-130 | a path is in the merge exactly when it was in the destination or the source |
| MakefileResolver.MergedNoDuplicates | projectmanagers/custommake/makefileresolver/makefileresolver.cpp:124-130 | merging into a duplicate-free list never adds a duplicate |
| MakefileResolver.MergedContained | projectmanagers/custommake/makefileresolver/makefileresolver.cpp:124-130 | sources that are all present already leave the destination as it was |
| MakefileResolver.MergeWith | projectmanagers/custommake/makefileresolver/makefileresolver.cpp:132-138 | paths and framework directories are merged with mergePaths, and the define hashes are united |
| MakefileResolver.MergedWithDefault | projectmanagers/custommake/makefileresolver/makefileresolver.cpp:272-274 | merging the never-assigned resultOnFail into a result changes nothing |
| MakefileResolver.Unescape | projectmanagers/custommake/makefileresolver/makefileresolver.cpp:537-552 | the isEscaped loop computes the backslash-unescaping of the input |
| MakefileResolver.UnescapedShorter | projectmanagers/custommake/makefileresolver/makefileresolver.cpp:537-552 | unescaping never makes a value longer |
| MakefileResolver.UnescapedPlain | projectmanagers/custommake/makefileresolver/makefileresolver.cpp:537-552 | a value without backslashes is kept as it is |
| MakefileResolver.UnescapedPair | projectmanagers/custommake/makefileresolver/makefileresolver.cpp:537-552 | a backslash is dropped and the character after it, a second backslash included, is kept literally |
| MakefileResolver.UnescapeEscape | projectmanagers/custommake/makefileresolver/makefileresolver.cpp:537-552 | unescaping undoes quoting every backslash and double quote with a backslash, for every string |
| MakefileResolver.StripQuotes | projectmanagers/custommake/makefileresolver/makefileresolver.cpp:566-572 | a value that starts with a double quote, or with a single quote and is longer than two, and ends with that character loses both; any other value is kept |
| MakefileResolver.StripDoubleQuotes | projectmanagers/custommake/makefileresolver/makefileresolver.cpp:566-572 | a double-quoted value loses its quotes whatever it holds |
| MakefileResolver.StripSingleQuotes | projectmanagers/custommake/makefileresolver/makefileresolver.cpp:566-572 | a single-quoted value loses its quotes only when it is not empty: `''` is kept |
| MakefileResolver.PathsPartition | projectmanagers/custommake/makefileresolver/makefileresolver.cpp:577-583 | every include match goes to exactly one of paths and framework directories |
| MakefileResolver.PathsMembers | projectmanagers/custommake/makefileresolver/makefileresolver.cpp:563-584 | a path is listed exactly when a match of the right kind (`-iframework`/`-F` or not) produced it after unquoting, anchoring and normalising |
| MakefileResolver.CollectIncludes | projectmanagers/custommake/makefileresolver/makefileresolver.cpp:560-585 | the first loop yields the paths and framework directories of all include matches, in match order |
| MakefileResolver.DefinesKeys | projectmanagers/custommake/makefileresolver/makefileresolver.cpp:587-598 | a name is defined exactly when some define match carries it |
| MakefileResolver.DefinesLastWins | projectmanagers/custommake/makefileresolver/makefileresolver.cpp:590-597 | a name keeps the unescaped value of its last match |
| MakefileResolver.CollectDefines | projectmanagers/custommake/makefileresolver/makefileresolver.cpp:587-598 | the second loop stores every define match's unescaped value under its name, in order |
| MakefileResolver.ProcessOutput | projectmanagers/custommake/makefileresolver/makefileresolver.cpp:554-601 | the result succeeds, carries the output as its long message and holds the collected paths, framework directories and defines |
| MakefileResolver.GetCommand | projectmanagers/custommake/makefileresolver/makefileresolver.cpp:96-100 | the command is `make -k --no-print-directory -W '<file>' -W '<relative file>' -n <parameters>` |
| MakefileResolver.PossibleTargets | projectmanagers/custommake/makefileresolver/makefileresolver.cpp:108-118 | three distinct targets, the base name with `.o`, `.lo` and `.ko` |
| MakefileResolver.MappedToBuild | projectmanagers/custommake/makefileresolver/makefileresolver.cpp:212-222 | an in-source build, or a path already below the build directory, only normalises; a path in the source tree outside the build tree is moved below the build directory |
| MakefileResolver.MapToBuildTwice | projectmanagers/custommake/makefileresolver/makefileresolver.cpp:348-353 | mapping an already mapped directory again changes nothing, given idempotent normalisation |
| MakefileResolver.OutOfSourceAsWritten | projectmanagers/custommake/makefileresolver/makefileresolver.cpp:608-617 | equal directories reset; otherwise the out-of-source flag and the source directory are set but the build directory is left as it was |
| MakefileResolver.OutOfSourceIntended | projectmanagers/custommake/makefileresolver/makefileresolver.cpp:608-617 | equal directories reset; otherwise the flag, the source and the build directory are all stored |
| MakefileResolver.AsWrittenNeverMoves | projectmanagers/custommake/makefileresolver/makefileresolver.cpp:608-617 | as written, a fresh resolver's mapToBuild never moves any path |
| MakefileResolver.IntendedMovesToBuild | projectmanagers/custommake/makefileresolver/makefileresolver.cpp:212-222 | with the build directory stored, a path in the source tree outside the build tree maps below the build directory |
| MakefileResolver.FirstLine | projectmanagers/custommake/makefileresolver/makefileresolver.cpp:440-443 | the first line has no newline and is the whole output or ends just before its first newline |
| MakefileResolver.FirstMakeCallFrom | projectmanagers/custommake/makefileresolver/makefileresolver.cpp:454-456 | the result is the first position at or after the start where `\bmake\s` matches, or none when there is none |
| MakefileResolver.NewWorkingDirectory | projectmanagers/custommake/makefileresolver/makefileresolver.cpp:459-478 | an empty prefix or one without `cd ` keeps the directory; otherwise it is the trimmed target of the last `cd `, anchored and normalised |
| MakefileResolver.ResolveInternal | projectmanagers/custommake/makefileresolver/makefileresolver.cpp:422-526 | depth exhausted gives the default failure; a malformed chain, an unchanged directory, a missing directory or bad parameters fail with their messages; a valid recursive call returns the absolute file name's resolution in the new directory when it succeeds, and the relative file name's otherwise; without a recursive call the result is processOutput's when it found any path, and a failure otherwise; success always carries a path |
| MakefileResolver.AbsoluteWorkingDirectory | projectmanagers/custommake/makefileresolver/makefileresolver.cpp:238-255 | an absolute directory is kept; an empty one or `.` becomes the current directory |
| MakefileResolver.ResolveWithMakefile | projectmanagers/custommake/makefileresolver/makefileresolver.cpp:329-407 | a file name without a dot fails as malformed; otherwise the internal resolution for the possible targets is returned with its defines dropped when it found no include path, as the empty cache entry replaces them; success always carries a path |
| MakefileResolver.ResolveFrom | projectmanagers/custommake/makefileresolver/makefileresolver.cpp:230-407 | a directory with a Makefile resolves there; without one a relative file is looked up one directory further up and only a success from there is kept; otherwise the Makefile is reported missing; success always carries a path |
| MakefileResolver.Resolver.ResetOutOfSourceBuild | projectmanagers/custommake/makefileresolver/makefileresolver.cpp:603-606 | only the out-of-source flag is cleared |
| MakefileResolver.Resolver.SetOutOfSourceBuildSystem | projectmanagers/custommake/makefileresolver/makefileresolver.cpp:608-617 | with the build directory stored as intended: equal directories only clear the flag, otherwise flag, cleaned source and cleaned build directory are set; the re-entrancy flag is untouched |
| MakefileResolver.Resolver.SetOutOfSourceBuildSystemAsWritten | projectmanagers/custommake/makefileresolver/makefileresolver.cpp:608-617 | as written: the cleaned old build directory is kept and the argument dropped |
| MakefileResolver.Resolver.MapToBuild | projectmanagers/custommake/makefileresolver/makefileresolver.cpp:212-222 | an in-source resolver only normalises the path |
| MakefileResolver.Resolver.ResolveIncludePath | projectmanagers/custommake/makefileresolver/makefileresolver.cpp:230-407 | a second resolution while one runs fails with the busy message; otherwise the flag is raised around the resolution and restored, and the result is ResolveFrom's |
| MakefileResolver.Resolver.ResolveIncludePathOfFile | projectmanagers/custommake/makefileresolver/makefileresolver.cpp:201-210 | an empty file name gives the default result; otherwise the file name and its absolute directory are resolved with 20 steps up |
| GccLikeCompiler.StandardLanguage | languages/plugins/custom-definesandincludes/compilerprovider/gcclikecompiler.cpp:55-70 | `c++` and `gnu++` versions imply `-xc++`; otherwise `-xc` exactly when the version starts with `iso9899:` or holds `c` or `gnu` followed by a digit, and no language exactly when neither holds |
| GccLikeCompiler.LanguageOptions | languages/plugins/custom-definesandincludes/compilerprovider/gcclikecompiler.cpp:43-100 | the user's arguments are kept as a prefix, followed by what the loop's final state calls for |
| GccLikeCompiler.FlagKinds | languages/plugins/custom-definesandincludes/compilerprovider/gcclikecompiler.cpp:53-83 | a `-x` argument is never also a standard flag |
| GccLikeCompiler.ScannedDefined | languages/plugins/custom-definesandincludes/compilerprovider/gcclikecompiler.cpp:73-74 | the language counts as defined exactly when some argument starts with `-x` |
| GccLikeCompiler.ScannedNoStandard | languages/plugins/custom-definesandincludes/compilerprovider/gcclikecompiler.cpp:86-91 | with no `-std=` or `-ansi` argument the standard flag stays empty |
| GccLikeCompiler.ScannedStandard | languages/plugins/custom-definesandincludes/compilerprovider/gcclikecompiler.cpp:53-72 | the standard flag is the last `-std=` or `-ansi` argument |
| GccLikeCompiler.ScannedNoLanguage | languages/plugins/custom-definesandincludes/compilerprovider/gcclikecompiler.cpp:45-83 | without `-x` and without a language-implying standard, the language stays empty |
| GccLikeCompiler.ScannedLanguage | languages/plugins/custom-definesandincludes/compilerprovider/gcclikecompiler.cpp:53-70 | without `-x`, the language is the one implied by the last standard flag implying one |
| GccLikeCompiler.ExplicitLanguage | languages/plugins/custom-definesandincludes/compilerprovider/gcclikecompiler.cpp:86-98 | an explicit `-x` language, joined or split, suppresses every added argument |
| GccLikeCompiler.AssumedCPlusPlus | languages/plugins/custom-definesandincludes/compilerprovider/gcclikecompiler.cpp:86-98 | with no language and no standard at all, `-std=c++11` and then `-xc++` are appended |
| GccLikeCompiler.StandardWithoutLanguage | languages/plugins/custom-definesandincludes/compilerprovider/gcclikecompiler.cpp:71-72 | a standard flag implying no language, such as `-ansi`, keeps the standard and appends only `-xc++` |
| GccLikeCompiler.ScannedStandardNonEmpty | languages/plugins/custom-definesandincludes/compilerprovider/gcclikecompiler.cpp:53-72 | once a standard flag is seen the standard flag is never empty |
| GccLikeCompiler.LastStandardWins | languages/plugins/custom-definesandincludes/compilerprovider/gcclikecompiler.cpp:53-98 | without `-x`, only the language of the last language-implying standard flag is appended |
| GccLikeCompiler.CStandards | languages/plugins/custom-definesandincludes/compilerprovider/gcclikecompiler.cpp:58-66 | `c11`, `gnu99` and `iso9899:1999` are recognised as C |
| GccLikeCompiler.IncludeStep | languages/plugins/custom-definesandincludes/compilerprovider/gcclikecompiler.cpp:191-214 | a path is collected only from a line led by a space, canonicalised after trimming, and keeps the mode; FirstSearch falls through to Includes unless the line opens the `<...>` list |
| GccLikeCompiler.ScanStep | languages/plugins/custom-definesandincludes/compilerprovider/gcclikecompiler.cpp:190-218 | the scan over one more line applies one switch step to the mode reached so far |
| GccLikeCompiler.FinishedStays | languages/plugins/custom-definesandincludes/compilerprovider/gcclikecompiler.cpp:215-217 | once Finished, no later line changes the mode or the paths |
| GccLikeCompiler.NoMarkerNoPaths | languages/plugins/custom-definesandincludes/compilerprovider/gcclikecompiler.cpp:192-196 | without the `"..."` marker nothing is collected |
| GccLikeCompiler.CollectedFromLines | languages/plugins/custom-definesandincludes/compilerprovider/gcclikecompiler.cpp:202-210 | there are no more paths than lines, and every path is the canonical form of a trimmed space-led line |
| GccLikeCompiler.CollectRun | languages/plugins/custom-definesandincludes/compilerprovider/gcclikecompiler.cpp:197-210 | from FirstSearch or Includes a run of space-led lines is collected in order (in FirstSearch while none opens the `<...>` list) |
| GccLikeCompiler.QuotedList | languages/plugins/custom-definesandincludes/compilerprovider/gcclikecompiler.cpp:192-210 | the lines between the `"..."` and `<...>` markers are collected in FirstSearch |
| GccLikeCompiler.AngleList | languages/plugins/custom-definesandincludes/compilerprovider/gcclikecompiler.cpp:198-210 | from the `<...>` marker to the first line not led by a space the lines are collected and the scan ends |
| GccLikeCompiler.SearchList | languages/plugins/custom-definesandincludes/compilerprovider/gcclikecompiler.cpp:158-218 | gcc's `-v` output yields the quoted list followed by the angle list, in order |
| GccLikeCompiler.EnterFirstSearch | languages/plugins/custom-definesandincludes/compilerprovider/gcclikecompiler.cpp:192-196 | the `"..."` marker starts the first list |
| GccLikeCompiler.EnterIncludes | languages/plugins/custom-definesandincludes/compilerprovider/gcclikecompiler.cpp:197-201 | the `<...>` marker, met in the first list, starts the second |
| GccLikeCompiler.EndOfList | languages/plugins/custom-definesandincludes/compilerprovider/gcclikecompiler.cpp:202-206 | a line not led by a space ends the scan |
| GccLikeCompiler.ParseIncludes | languages/plugins/custom-definesandincludes/compilerprovider/gcclikecompiler.cpp:188-218 | the loop, stopping at Finished, collects exactly the paths of the full scan |
| GccLikeCompiler.CollectMacros | languages/plugins/custom-definesandincludes/compilerprovider/gcclikecompiler.cpp:131-138 | every output line matching `#define` stores its trimmed value under its name, later lines winning |
| GccLikeCompiler.CachedDefinesSkipCompiler | languages/plugins/custom-definesandincludes/compilerprovider/gcclikecompiler.cpp:105-107 | a non-empty cached answer does not depend on the compiler and leaves the cache alone |
| GccLikeCompiler.DefinesAgainFromCache | languages/plugins/custom-definesandincludes/compilerprovider/gcclikecompiler.cpp:103-142 | macros found by a run are cached, and asking again gives the same macros from the cache |
| GccLikeCompiler.IncludesAgainFromCache | languages/plugins/custom-definesandincludes/compilerprovider/gcclikecompiler.cpp:144-222 | include paths found by a run are cached, and asking again gives the same paths from the cache |
| GccLikeCompiler.Compiler.Defines | languages/plugins/custom-definesandincludes/compilerprovider/gcclikecompiler.cpp:103-142 | the result and the new cache are those of DefinesFor on the old cache and the split arguments |
| GccLikeCompiler.Compiler.Includes | languages/plugins/custom-definesandincludes/compilerprovider/gcclikecompiler.cpp:144-222 | the result and the new cache are those of IncludesFor on the old cache and the split arguments |
| CompilerProvider.ConfigForItem | languages/plugins/custom-definesandincludes/compilerprovider/compilerprovider.cpp:69-102 | the loop over the project's entries returns ConfigFor of the item (the blank entry for no item) |
| CompilerProvider.ExactStays | languages/plugins/custom-definesandincludes/compilerprovider/compilerprovider.cpp:89-91 | once an entry targeting the item itself is met, later entries change nothing |
| CompilerProvider.SearchedExact | languages/plugins/custom-definesandincludes/compilerprovider/compilerprovider.cpp:83-91 | the lookup stops exactly when some entry targets the item, and returns the first such entry |
| CompilerProvider.SearchedNoAncestor | languages/plugins/custom-definesandincludes/compilerprovider/compilerprovider.cpp:79-101 | without an exact entry the loop never stops early, and without an ancestor entry the result stays blank |
| CompilerProvider.ClosestReplaced | languages/plugins/custom-definesandincludes/compilerprovider/compilerprovider.cpp:93-97 | an ancestor entry strictly deeper than the current pick takes over |
| CompilerProvider.ClosestKept | languages/plugins/custom-definesandincludes/compilerprovider/compilerprovider.cpp:93-97 | any other entry leaves the pick alone |
| CompilerProvider.ClosestFirst | languages/plugins/custom-definesandincludes/compilerprovider/compilerprovider.cpp:93-97 | the first ancestor entry is picked while nothing was picked |
| CompilerProvider.SearchedClosest | languages/plugins/custom-definesandincludes/compilerprovider/compilerprovider.cpp:79-101 | without an exact entry, the result is the first of the deepest ancestor entries, with its directory as closest path |
| CompilerProvider.NoItemBlank | languages/plugins/custom-definesandincludes/compilerprovider/compilerprovider.cpp:71-73 | a null item gives the blank entry |
| CompilerProvider.ArgumentsFor | languages/plugins/custom-definesandincludes/compilerprovider/compilerprovider.cpp:133-153 | C items get the C arguments, every other language the C++ arguments |
| CompilerProvider.DummyYieldsNothing | languages/plugins/custom-definesandincludes/compilerprovider/compilerprovider.cpp:45-61 | the dummy compiler yields no defines and no include paths whatever the arguments |
| CompilerProvider.Registered | languages/plugins/custom-definesandincludes/compilerprovider/compilerprovider.cpp:199-212 | a compiler is added, at the end, exactly when it is not null and its name is not taken; otherwise the list is unchanged |
| CompilerProvider.RegisteredUnique | languages/plugins/custom-definesandincludes/compilerprovider/compilerprovider.cpp:199-212 | registering keeps names unique, and afterwards the compiler's name is registered |
| CompilerProvider.RegisteredAllExtends | languages/plugins/custom-definesandincludes/compilerprovider/compilerprovider.cpp:233-239 | registering a list only ever grows the registry at its end |
| CompilerProvider.FirstNamed | languages/plugins/custom-definesandincludes/compilerprovider/compilerprovider.cpp:177-181 | the first registered compiler with the name, or none exactly when no compiler has it |
| CompilerProvider.UnregisteredRemovesName | languages/plugins/custom-definesandincludes/compilerprovider/compilerprovider.cpp:214-226 | with unique names, unregistering an editable compiler removes exactly its name, keeps every other name and shortens the list by one iff the name was registered |
| CompilerProvider.ReadOnlyStays | languages/plugins/custom-definesandincludes/compilerprovider/compilerprovider.cpp:216-218 | a non-editable compiler is never unregistered |
| CompilerProvider.FirstRunnable | languages/plugins/custom-definesandincludes/compilerprovider/compilerprovider.cpp:169-175 | the first compiler whose executable is found, or none when no executable is found |
| CompilerProvider.ExistingNamed | languages/plugins/custom-definesandincludes/compilerprovider/compilerprovider.cpp:176-184 | a named compiler is answered by the registered one of that name, or by the dummy when that name is not registered |
| CompilerProvider.ExistingUnnamed | languages/plugins/custom-definesandincludes/compilerprovider/compilerprovider.cpp:168-184 | without a compiler the first registered one whose executable is found is used, else the dummy |
| CompilerProvider.RegisteredAllLacks | languages/plugins/custom-definesandincludes/compilerprovider/compilerprovider.cpp:199-212 | registration only adds names that some registered compiler carried |
| CompilerProvider.DefaultsLackDummy | languages/plugins/custom-definesandincludes/compilerprovider/compilerprovider.cpp:115-120 | the factories' defaults never take the dummy's name |
| CompilerProvider.DummyBeforeUserDefined | languages/plugins/custom-definesandincludes/compilerprovider/compilerprovider.cpp:105-129 | the dummy is always registered, right after the defaults and before every user-defined compiler |
| CompilerProvider.Provider.RegisterEach | languages/plugins/custom-definesandincludes/compilerprovider/compilerprovider.cpp:233-239 | the registry becomes that of registering each compiler in turn, and names stay unique |
| CompilerProvider.Provider.RegisterCompiler | languages/plugins/custom-definesandincludes/compilerprovider/compilerprovider.cpp:199-212 | the registry and the answer are those of Registered, and names stay unique |
| CompilerProvider.Provider.UnregisterCompiler | languages/plugins/custom-definesandincludes/compilerprovider/compilerprovider.cpp:214-226 | the registry becomes Unregistered of the old one, and names stay unique |
| CompilerProvider.Provider.CheckCompilerExists | languages/plugins/custom-definesandincludes/compilerprovider/compilerprovider.cpp:165-185 | the result is Existing for the registry and the compiler |
| CompilerProvider.Provider.Defines | languages/plugins/custom-definesandincludes/compilerprovider/compilerprovider.cpp:133-142 | the item's config entry's compiler is asked for its defines with the arguments for the item's language (C++ without an item) |
| CompilerProvider.Provider.Includes | languages/plugins/custom-definesandincludes/compilerprovider/compilerprovider.cpp:144-153 | the item's config entry's compiler is asked for its include paths with the arguments for the item's language (C++ without an item) |
| CompilerProvider.Provider.constructor | languages/plugins/custom-definesandincludes/compilerprovider/compilerprovider.cpp:105-129 | the registry holds the defaults the factories found, then the dummy, then the user-defined compilers, with unique names |
| QMakeProjectFile.FilledOnlyAbsent | projectmanagers/qmake/qmakeprojectfile.cpp:84-94 | filling from the mkspecs or the cache never overwrites: set variables keep their values, unset listed ones get the supplied values, and no other key appears |
| QMakeProjectFile.ReadKeepsValues | projectmanagers/qmake/qmakeprojectfile.cpp:71-101 | read's defaults never replace a value already there, except for the four path variables |
| QMakeProjectFile.ReadSetsPaths | projectmanagers/qmake/qmakeprojectfile.cpp:98-101 | PWD, _PRO_FILE_, _PRO_FILE_PWD_ and OUT_PWD always hold the file's paths |
| QMakeProjectFile.ReadSetsBuiltins | projectmanagers/qmake/qmakeprojectfile.cpp:75-81 | an absent QT becomes core and gui, an absent CONFIG becomes qt |
| QMakeProjectFile.ReadTakesMkspec | projectmanagers/qmake/qmakeprojectfile.cpp:84-88 | a variable the project does not set takes the mkspec's values, unless it is QT, CONFIG or a path variable |
| QMakeProjectFile.DefinePairSplits | projectmanagers/qmake/qmakeprojectfile.cpp:393-401 | an entry splits at its first `=`: the name holds no `=`, and name, `=` and value give back the entry; without `=` the value is empty |
| QMakeProjectFile.Template | projectmanagers/qmake/qmakeprojectfile.cpp:328-335 | the first TEMPLATE value, or `app` when there is none |
| QMakeProjectFile.InstallTargetsMembers | projectmanagers/qmake/qmakeprojectfile.cpp:348-351 | an INSTALLS entry is a target exactly when it is neither empty nor `target` |
| QMakeProjectFile.TargetsMembers | projectmanagers/qmake/qmakeprojectfile.cpp:337-359 | targets are never empty names; every non-empty TARGET value and INSTALLS entry other than `target` is one; the base name is one when TARGET is empty and the template is not subdirs; nothing else is |
| QMakeProjectFile.FrameworkScanContributions | projectmanagers/qmake/qmakeprojectfile.cpp:267-285 | storeArg is armed exactly after a detached `-F`/`-iframework`, and the scan collects each joined suffix and each argument following a detached option, in order |
| QMakeProjectFile.AsWrittenDuplicates | projectmanagers/qmake/qmakeprojectfile.cpp:165-175 | as written, a relative value given twice is appended twice once resolved, so the list holds a duplicate |
| QMakeProjectFile.PathsAddedMembers | projectmanagers/qmake/qmakeprojectfile.cpp:165-175 | as intended, adding paths only appends, never duplicates, and adds exactly the non-empty resolved paths |
| QMakeProjectFile.ModulePattern | projectmanagers/qmake/qmakeprojectfile.cpp:202-220 | a `-private` or `_private` suffix is chopped and marks the module private, then the aliases are mapped |
| QMakeProjectFile.ModuleExamples | projectmanagers/qmake/qmakeprojectfile.cpp:205-220 | testlib is QtTest, qaxserver-private is private ActiveQt, gui_private is private gui, core stays core |
| QMakeProjectFile.Modules | projectmanagers/qmake/qmakeprojectfile.cpp:193-198 | the QT modules come first; core is added when some module is listed, so never more than one extra |
| QMakeProjectFile.ProjectFile.Fill | projectmanagers/qmake/qmakeprojectfile.cpp:84-94 | the variables become those filled from the given names |
| QMakeProjectFile.ProjectFile.Read | projectmanagers/qmake/qmakeprojectfile.cpp:71-122 | the variables become ReadDefaults of the old ones, and the Qt include, version and library values come from the query, empty when missing |
| QMakeProjectFile.ProjectFile.SetBuiltins | projectmanagers/qmake/qmakeprojectfile.cpp:75-81 | QT and CONFIG get their defaults when absent |
| QMakeProjectFile.ProjectFile.SetPaths | projectmanagers/qmake/qmakeprojectfile.cpp:98-101 | the four path variables are set from the file |
| QMakeProjectFile.ProjectFile.Defines | projectmanagers/qmake/qmakeprojectfile.cpp:390-404 | one pair per DEFINES entry, in order, each split at its first `=` |
| QMakeProjectFile.ProjectFile.Targets | projectmanagers/qmake/qmakeprojectfile.cpp:337-359 | the collected targets with every empty name removed |
| QMakeProjectFile.ProjectFile.ScanFrameworkArguments | projectmanagers/qmake/qmakeprojectfile.cpp:268-284 | the storeArg loop over one variable's arguments computes the positional scan |
| QMakeProjectFile.ProjectFile.FrameworkDirectories | projectmanagers/qmake/qmakeprojectfile.cpp:259-290 | the directories of QMAKE_CFLAGS, QMAKE_CXXFLAGS and QMAKE_LFLAGS in order, each scanned with a fresh flag, then Qt's library directory on macOS |
| QMakeProjectFile.ProjectFile.AddPathsForVariable | projectmanagers/qmake/qmakeprojectfile.cpp:165-175 | the list gains the variable's non-empty resolved paths not yet present, as intended |
| QMakeProjectFile.ProjectFile.AddPathsForVariableAsWritten | projectmanagers/qmake/qmakeprojectfile.cpp:165-175 | the list gains each non-empty resolved path whose raw value is not in it, as written |
| QMakeProjectFile.ProjectFile.AddPathsForVariables | projectmanagers/qmake/qmakeprojectfile.cpp:177-187 | with the intended duplicate test: the list of PathsAddedFor, which extends the given list, keeps it free of duplicates, and holds exactly its entries and the non-empty resolved values of the variables |
| QMakeProjectFile.ProjectFile.AddQtDirectories | projectmanagers/qmake/qmakeprojectfile.cpp:188-240 | the list of QtAdded, which extends the given list, keeps it free of duplicates, and holds exactly its entries, the Qt include directory and the directories found for the modules |
| QMakeProjectFile.ProjectFile.IncludeDirectories | projectmanagers/qmake/qmakeprojectfile.cpp:177-254 | with the intended duplicate test: the list of IncludeList, in its order (earlier variables, Qt directories with CONFIG qt, later variables), with no directory twice |
| QMakeProjectFile.PathsAddedForMembers | projectmanagers/qmake/qmakeprojectfile.cpp:177-187 | adding several variables' paths as intended only appends, keeps a duplicate-free list duplicate-free, and adds exactly their non-empty resolved values |
| QMakeProjectFile.QtAddedMembers | projectmanagers/qmake/qmakeprojectfile.cpp:188-240 | adding the Qt directories only appends, keeps a duplicate-free list duplicate-free, and adds exactly the Qt include directory and the module directories found |
| QMakeProjectFile.IncludeListMembers | projectmanagers/qmake/qmakeprojectfile.cpp:177-254 | as intended, the include directories hold no directory twice, and a directory is listed iff it is a non-empty resolved value of a consulted variable or, with CONFIG qt, the Qt include directory or a module directory found |
| QMakeConfig.QueriedKeys | projectmanagers/qmake/qmakeconfig.cpp:124-135 | no key holds a colon, and a key is in the hash exactly when some line gives it |
| QMakeConfig.SameFirstColon | projectmanagers/qmake/qmakeconfig.cpp:127 | a line has one first colon, so a line gives at most one key and value |
| QMakeConfig.QueriedLastWins | projectmanagers/qmake/qmakeconfig.cpp:132-134 | a key's value is the one its last line gives |
| QMakeConfig.QueryQMake | projectmanagers/qmake/qmakeconfig.cpp:110-138 | a non-zero exit code gives the empty hash; otherwise the hash holds every line split at its first colon, lines without one skipped |
| QMakeConfig.DefaultConfs | projectmanagers/qmake/qmakeconfig.cpp:145-147 | one candidate per directory, in order, each with `/default/qmake.conf` |
| QMakeConfig.MkspecBase | projectmanagers/qmake/qmakeconfig.cpp:153-165 | the base is QT_HOST_DATA/src, else QT_HOST_DATA, else QT_INSTALL_PREFIX (empty when that is missing too) |
| QMakeConfig.MkspecCandidates | projectmanagers/qmake/qmakeconfig.cpp:142-168 | with QMAKE_MKSPECS the candidates are its directories with `/default/qmake.conf`; else with QMAKE_SPEC the one base + `/mkspecs/` + spec + `/qmake.conf`; else none |
| QMakeConfig.FirstExisting | projectmanagers/qmake/qmakeconfig.cpp:170-174 | the first existing candidate, or none exactly when no candidate exists |
| QMakeConfig.FindBasicMkSpec | projectmanagers/qmake/qmakeconfig.cpp:140-177 | the absolute path of the first existing candidate, or the empty string |
| QMakeConfig.FirstExistingPath | projectmanagers/qmake/qmakeconfig.cpp:170-176 | the search loop returns the first existing path made absolute, or the empty string |
| QMakeConfig.BuildDirFromSrc | projectmanagers/qmake/qmakeconfig.cpp:68-79 | an invalid build folder is returned as it is; a valid one is extended by the source directory relative to the project |
| QMakeConfig.QMakeExecutable | projectmanagers/qmake/qmakeconfig.cpp:81-108 | a configured executable that exists and may run wins; otherwise `qmake`, then `qmake-qt5`, then `qmake-qt4`, the first that is found |
| CMakeServer.FindClose | projectmanagers/cmake/cmakeserver.cpp:119 | a found close tag lies at or after the start position and fits in the buffer |
| CMakeServer.FindCloseFirst | projectmanagers/cmake/cmakeserver.cpp:119 | the index found is the first close tag at or after the start, and none is found exactly when there is none |
| CMakeServer.Frame | projectmanagers/cmake/cmakeserver.cpp:95-102 | a frame is the open tag, the payload and the close tag: it starts and ends with the tags and holds the payload between them |
| CMakeServer.DeframeRestIsTail | projectmanagers/cmake/cmakeserver.cpp:115-126 | what stays buffered is a tail of the buffer |
| CMakeServer.ConnectionEvents | projectmanagers/cmake/cmakeserver.cpp:78-88 | an event is emitted exactly when the state changes: connected when it becomes true, disconnected when it becomes false |
| CMakeServer.CloseAfterPayload | projectmanagers/cmake/cmakeserver.cpp:102-119 | in a frame of a newline-free payload the first close tag after the open tag is the frame's own |
| CMakeServer.NoCloseAt | projectmanagers/cmake/cmakeserver.cpp:96 | a close tag can only start at a newline |
| CMakeServer.DeframeFrame | projectmanagers/cmake/cmakeserver.cpp:119-122 | a frame at the front of the buffer yields its payload and leaves what follows it |
| CMakeServer.DeframeFrames | projectmanagers/cmake/cmakeserver.cpp:102-126 | newline-free payloads framed one after the other come back in order, before whatever follows them |
| CMakeServer.RoundTrip | projectmanagers/cmake/cmakeserver.cpp:102-121 | one framed newline-free payload comes back as exactly one response and nothing stays buffered |
| CMakeServer.IncompleteStays | projectmanagers/cmake/cmakeserver.cpp:116-124 | a frame whose close tag has not fully arrived stays buffered and emits nothing |
| CMakeServer.ClosePrefixPayload | projectmanagers/cmake/cmakeserver.cpp:102-121 | a payload without a close tag can still break the round trip: the close tag minus its last newline comes back as an empty response with bytes left over |
| CMakeServer.DeframeStep | projectmanagers/cmake/cmakeserver.cpp:119-122 | one pass of the loop cuts one frame off the front and emits its payload |
| CMakeServer.DeframeStops | projectmanagers/cmake/cmakeserver.cpp:116-124 | where the loop stops nothing more is cut out |
| CMakeServer.Server.SetConnected | projectmanagers/cmake/cmakeserver.cpp:78-88 | the state becomes the new value and events are emitted only when it changed |
| CMakeServer.Server.SendCommand | projectmanagers/cmake/cmakeserver.cpp:98-106 | exactly the frame of the payload is written and nothing else changes |
| CMakeServer.Server.ProcessOutput | projectmanagers/cmake/cmakeserver.cpp:108-127 | after appending the incoming bytes, every complete response is emitted in order and the buffer keeps only what cannot yet be cut: it is no longer than the open tag or holds no close tag after it |
| CMakeServer.Server.Drain | projectmanagers/cmake/cmakeserver.cpp:116-126 | the loop leaves the deframed rest and emits the deframed responses in order |
| CMakeBuildDirChooser.Take | projectmanagers/cmake/cmakebuilddirchooser.cpp:119-134 | a line starting with the key gives the text after the key; any other line keeps the value |
| CMakeBuildDirChooser.CacheValues | projectmanagers/cmake/cmakebuilddirchooser.cpp:103-111 | three values, all empty when the cache file cannot be opened |
| CMakeBuildDirChooser.AtMostOneKey | projectmanagers/cmake/cmakebuilddirchooser.cpp:119-135 | no line matches two of the keys |
| CMakeBuildDirChooser.CountAtMostThree | projectmanagers/cmake/cmakebuilddirchooser.cpp:113-136 | the counter never passes three |
| CMakeBuildDirChooser.ValueFromLine | projectmanagers/cmake/cmakebuilddirchooser.cpp:113-136 | each value is the trimmed text after its key on some line, or the starting empty value |
| CMakeBuildDirChooser.LastReadLineWins | projectmanagers/cmake/cmakebuilddirchooser.cpp:113-136 | conversely, a key line read before the third match gives that key's value (the trimmed line minus the key), and the last such line wins |
| CMakeBuildDirChooser.CacheValueFromLastLine | projectmanagers/cmake/cmakebuilddirchooser.cpp:113-136 | from a readable cache, the value of a key is the tail of the last line carrying it, when fewer than three matches come before that line |
| CMakeBuildDirChooser.KeyAbsentStaysEmpty | projectmanagers/cmake/cmakebuilddirchooser.cpp:103-105 | a key no line carries leaves its value empty |
| CMakeBuildDirChooser.StopsAtThree | projectmanagers/cmake/cmakebuilddirchooser.cpp:114 | lines after the third matching one are never read |
| CMakeBuildDirChooser.CountsLinesNotKeys | projectmanagers/cmake/cmakebuilddirchooser.cpp:114-123 | three lines with the source key end the scan with only the source directory read |
| CMakeBuildDirChooser.BuildDirSettings | projectmanagers/cmake/cmakebuilddirchooser.cpp:90-141 | the three out-parameters are those CacheValues gives for the file |
| CMakeBuildDirChooser.ReadCacheLine | projectmanagers/cmake/cmakebuilddirchooser.cpp:117-135 | one loop iteration applies the three tests to the trimmed line, each counting its match |
| CMakeBuildDirChooser.Decide | projectmanagers/cmake/cmakebuilddirchooser.cpp:143-245 | without CMake the status is need-CMake and cannot be applied; without a folder it is need-a-build-directory and cannot be applied; otherwise the folder decision |
| CMakeBuildDirChooser.DecideFolder | projectmanagers/cmake/cmakebuilddirchooser.cpp:163-244 | a folder already used is already configured and cannot be applied; a cache for this project is used as it is with prefix and build type disabled; otherwise it can be applied iff the folder is empty or missing, not already used and absolute; prefix and build type are taken from a cache read |
| CMakeBuildDirChooser.ErrorPriority | projectmanagers/cmake/cmakebuilddirchooser.cpp:228-240 | when the folder cannot be used the message is, by priority, already configured, another source directory, relative, not empty |
| CMakeBuildDirChooser.Chooser.Updated | projectmanagers/cmake/cmakebuilddirchooser.cpp:143-245 | the widgets and the status line become those of Decide for the folder and the cache values read from it |
| CMakeBuildDirChooser.Chooser.ReadCache | projectmanagers/cmake/cmakebuilddirchooser.cpp:175-198 | the source directory is read, recognised as this project's by canonical path, an existing install prefix and the build type are put into the widgets |
| CMakeBuildDirChooser.Chooser.CheckFolder | projectmanagers/cmake/cmakebuilddirchooser.cpp:163-244 | the widgets and status become those of DecideFolder |
| CTestFindJob.FindEvents | projectmanagers/cmake/testing/ctestfindjob.cpp:46-76 | a suite with arguments, or whose executable is missing or may not run, is registered at once; otherwise the executable is started with `-functions` |
| CTestFindJob.CaseNames | projectmanagers/cmake/testing/ctestfindjob.cpp:80-93 | never more names than lines, and no name is empty |
| CTestFindJob.CaseNamesAppend | projectmanagers/cmake/testing/ctestfindjob.cpp:80-93 | reading the output in two pieces yields the names of each piece, in order |
| CTestFindJob.CaseNamesMembers | projectmanagers/cmake/testing/ctestfindjob.cpp:80-93 | a name is listed exactly when it is non-empty and some line cleans up to it |
| CTestFindJob.SignatureLine | projectmanagers/cmake/testing/ctestfindjob.cpp:84-86 | `run()` followed by a carriage return becomes `run` |
| CTestFindJob.NestedParenthesesRemain | projectmanagers/cmake/testing/ctestfindjob.cpp:84-86 | removing `()` resumes after each removal, so `(())` leaves `()` |
| CTestFindJob.UpdateRequests | projectmanagers/cmake/testing/ctestfindjob.cpp:107-110 | one update request per source file, in order |
| CTestFindJob.PendingAfterMembers | projectmanagers/cmake/testing/ctestfindjob.cpp:113-118 | a file stays pending exactly when it was pending and has not been reported ready |
| CTestFindJob.AllReadyEmpties | projectmanagers/cmake/testing/ctestfindjob.cpp:113-124 | once every pending file has been reported, in any order and with repeats, none is left |
| CTestFindJob.ParseCases | projectmanagers/cmake/testing/ctestfindjob.cpp:80-93 | the loop yields the case names of the output's lines |
| CTestFindJob.FindJob.FindTestCases | projectmanagers/cmake/testing/ctestfindjob.cpp:46-76 | the events are those FindEvents gives |
| CTestFindJob.FindJob.ProcessFinished | projectmanagers/cmake/testing/ctestfindjob.cpp:78-111 | on a normal exit the output's case names replace the test cases; the source files become pending and are each sent for an update, or with none the suite is registered |
| CTestFindJob.FindJob.RequestUpdates | projectmanagers/cmake/testing/ctestfindjob.cpp:107-110 | one update request per file, in order |
| CTestFindJob.FindJob.UpdateReady | projectmanagers/cmake/testing/ctestfindjob.cpp:113-124 | every copy of the document leaves the pending list, its declarations are loaded, and the suite is registered exactly when nothing is pending any more |

## Left out

- Processes and sockets are left out. These are KProcess, QProcess, QLocalSocket, `executeCommand`, the compiler runs and `qmake -query`. Their output, exit status and errors are parameters, and what the code asks of them is recorded in an event log or a `written` buffer.
- The MI record parser and the MI value grammar are left out. micommand.cpp and mi.h are not part of this model. `parse` is a function parameter, and reply records are typed views of the fields the handlers read. A missing integer field is read as 0, because the semantics of the source's `operator[]` for missing fields are not visible.
- MIDebugger.interrupt, MIDebugger.kill and MIDebugger.currentCommand are left out. The first two send signals to or kill the process. The last is an accessor of the command in flight, which the model keeps as a field.
- Qt signals, KMessageBox dialogs and i18n message text are left out. Signals and dialogs become events. A dialog is represented by its kind and, for the internal-error dialog, the cause and the line; the executable a process-error dialog names is left out.
- Regular expressions are left out where they scan text. Each one is given as the list of its matches. The few fixed patterns written out instead are these: `(c|gnu)\d` is the predicate GccLikeCompiler.NamesCStandard, an unanchored match; an ASCII rendering of `\bmake\s` is MakefileResolver.MakeCallAt; and `set prompt \032.\n` is MIDebugger.PromptSettingAt.
- File-system queries are left out. These are QFileInfo, QDir::exists, QDir::entryInfoList, QDir::canonicalPath, QStandardPaths::findExecutable and QFile. They are functions or values given to the operation. QDir::cleanPath and Path normalisation are one function parameter, `clean`.
- The MakefileResolver cache is left out: its validity time, its mutex and ModificationRevision. The model behaves as if every request misses the cache.
- MakefileResolver's `resultOnFail` is never assigned, so every branch returning it returns an empty failure. The model returns that failure directly.
- JSON is left out. CMake server payloads are opaque compact JSON texts.
- CMakeServer's Q_ASSERTs are left out. The release behaviour is modelled.
- The initial value of `m_connected` comes from cmakeserver.h, which is not part of this model. The model starts disconnected.
- Windows is left out: the list separator is `:`, and the MSVC compiler factory is not modelled.
- QMakeProjectFile's static cache of qmake query results is left out. The query result is a parameter.
- Parsing of qmake files (QMakeFile) is not part of this model, and neither is variable resolution (`resolveVariable`). The project file's variables are a map from names to values.
- QMakeProjectFile.subProjects, hasSubProject, files and filesForTarget are not modelled. They walk further parsed files.
- CompilerProvider.compilerForItem, frameworkDirectories, type, compilers and compilerFactories are not modelled. They are accessors with no logic of their own.
- The widgets and colours of the CMake build-directory dialog are left out. The widgets are fields holding their texts and states.
- `Variable::setFormat` comes from the base class, which is not part of this model. It is taken to store the format and call `formatChanged` when the format differs.
- `fetchStep` is declared in mivariable.h, which is not part of this model, so it is a constructor parameter.
- The number of children in an MI update reply is a `nat`. A negative count would make the source ask for child -1.
- CompilerProvider.SearchedClosest requires every entry path to be non-empty. An entry for the project root has an empty path, and it leaves `config.path` empty, so any later ancestor entry replaces it whatever its depth. The lemma does not describe that case.
- MakefileResolver.ResolveWithMakefile reads the empty cache, as the missing cache implies. A result without include paths therefore loses its defines and gains no cached paths or framework directories. The include-path dependency stored on the result is not modelled.
- QMakeProjectFile.ProjectFile.AddPathsForVariables and QMakeProjectFile.ProjectFile.IncludeDirectories model the corrected duplicate test of the finding below. They test the resolved path, where the code tests the raw value. So they do not reproduce the duplicates the code produces; QMakeProjectFile.ProjectFile.AddPathsForVariableAsWritten and QMakeProjectFile.AsWrittenDuplicates do.
- Text.Trim, Text.IsSpace, MakefileResolver.IsWordChar and MakefileResolver.MakeCallAt take only ASCII characters as white space and as word characters. QString::trimmed and QRegExp's `\s` and `\b` also accept non-ASCII spaces (U+0085, U+00A0 and the Unicode space separators) and non-ASCII letters and digits. So for such text the model differs from the code: the `make` call of makefileresolver.cpp:454, the trims of makefileresolver.cpp:457 and 473, and the trims of gcclikecompiler.cpp:135 and 209. The CMake cache reader and the CTest job trim with QByteArray::trimmed, which is ASCII, and are modelled exactly.
- MIDebugger.Dispatch lets only the command's reply handler throw. An exception from `newOutput` or from a receiver of a signal is not modelled.
- CMakeServer's round-trip lemmas require a payload without a newline, as compact JSON has. Without a close tag in the payload the round trip can still fail, as CMakeServer.ClosePrefixPayload shows.

## Findings

| source | as written | input that shows it | evidently intended | confidence | as-written member | corrected member |
|---|---|---|---|---|---|---|
| projectmanagers/custommake/makefileresolver/makefileresolver.cpp:608-617 | `m_build` is set to the cleaned old `m_build`, so the `build` argument is never stored | a fresh resolver given source `/src` and build `/build`: mapToBuild then never moves a path out of the source tree | store the cleaned `build` argument | not executed | MakefileResolver.AsWrittenNeverMoves | MakefileResolver.IntendedMovesToBuild |
| projectmanagers/qmake/qmakeprojectfile.cpp:165-175 | the duplicate test compares the raw value with the list, but the resolved path is what is appended | INCLUDEPATH `inc inc` in project `/project`: `/project/inc` is appended twice | test the resolved path, so each directory is listed once | not executed | QMakeProjectFile.AsWrittenDuplicates | QMakeProjectFile.PathsAddedMembers |
