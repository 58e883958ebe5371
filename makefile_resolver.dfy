/**
 * Include-path resolution for custom-make projects
 * (projectmanagers/custommake/makefileresolver/makefileresolver.cpp):
 * `make -n` is asked how it would build a file, the first output line is
 * followed through recursive `cd dir && make ...` calls, and the include
 * and define flags of the final command line are collected.
 *
 * Everything outside the string logic is a parameter of `Env`: the current
 * directory, QDir::cleanPath (which also stands for the normalisation done
 * by constructing a Path), the file-system queries, the `make` run, and
 * the two regular expressions, each given as the list of its matches.
 */
module MakefileResolver {
  import opened Text

  /** maximumInternalResolutionDepth */
  const MaximumInternalResolutionDepth: int := 3
  /** Default of resolveIncludePath's maxStepsUp. */
  const DefaultMaxStepsUp: int := 20

  /** One match of includeRegularExpression: capture 1 (the flag) and capture 2 (the value). */
  datatype IncludeMatch = IncludeMatch(flag: string, value: string)

  /**
   * One match of defineRegularExpression: capture 1 and, when capture 2
   * or 3 took part, the last captured group.
   */
  datatype DefineMatch = DefineMatch(name: string, value: Option<string>)

  datatype Env = Env(
    cwd: string,                                 // QDir::currentPath()
    clean: string -> string,                     // QDir::cleanPath
    relativePath: (string, string) -> string,    // Path(dir).relativePath(Path(file))
    fileExists: string -> bool,                     // QFileInfo::exists
    dirName: string -> string,                   // QDir::dirName
    cdUp: string -> Option<string>,              // QDir::cdUp, giving the parent's path
    fileName: string -> string,                  // QFileInfo::fileName
    absolutePath: string -> string,              // QFileInfo::absolutePath
    run: (string, string) -> string,             // the output of executeCommand(command, dir)
    includeMatches: string -> seq<IncludeMatch>, // includeRegularExpression().globalMatch
    defineMatches: string -> seq<DefineMatch>)   // defineRegularExpression().globalMatch

  datatype PathResolutionResult = PathResolutionResult(
    success: bool, errorMessage: string, longErrorMessage: string,
    paths: seq<string>, frameworkDirectories: seq<string>, defines: map<string, string>)

  /** PathResolutionResult(false, message, long). */
  function Failure(message: string, long: string): PathResolutionResult {
    PathResolutionResult(false, message, long, [], [], map[])
  }

  /** The default-constructed result. */
  const Default: PathResolutionResult := Failure("", "")

  /** QFileInfo::isRelative / QDir::isRelativePath for Unix paths. */
  predicate IsRelative(path: string) {
    path == [] || path[0] != '/'
  }

  /** `dir + '/' + path` for a relative `path`, `path` itself otherwise. */
  function Anchor(path: string, dir: string): (r: string)
    ensures IsRelative(path) ==> r == dir + "/" + path
    ensures !IsRelative(path) ==> r == path
  {
    if IsRelative(path) then dir + "/" + path else path
  }

  // ---------------------------------------------------------------------
  // mergePaths / mergeWith

  /** destList after the first `n` elements of srcList went through mergePaths' loop. */
  function Merged(dest: seq<string>, src: seq<string>, n: nat): seq<string>
    requires n <= |src|
  {
    if n == 0 then dest
    else
      var d := Merged(dest, src, n - 1);
      if src[n - 1] in d then d else d + [src[n - 1]]
  }

  /** mergePaths: append each source path that destList does not yet contain. */
  method MergePaths(dest: seq<string>, src: seq<string>) returns (r: seq<string>)
    ensures r == Merged(dest, src, |src|)
  {
    r := dest;
    var i := 0;
    while i < |src|
      invariant 0 <= i <= |src|
      invariant r == Merged(dest, src, i)
    {
      if src[i] !in r {
        r := r + [src[i]];
      }
      i := i + 1;
    }
  }

  /** The destination comes first, unchanged and in order. */
  lemma {:induction false} MergedKeepsDestination(dest: seq<string>, src: seq<string>, n: nat)
    requires n <= |src|
    ensures StartsWith(Merged(dest, src, n), dest)
  {
    if n > 0 {
      MergedKeepsDestination(dest, src, n - 1);
    }
  }

  /** A path is in the merge exactly when it was in either list. */
  lemma {:induction false} MergedElements(dest: seq<string>, src: seq<string>, n: nat)
    requires n <= |src|
    ensures forall x :: x in Merged(dest, src, n) <==> x in dest || x in src[..n]
  {
    if n > 0 {
      MergedElements(dest, src, n - 1);
      assert src[..n] == src[..n - 1] + [src[n - 1]];
    }
  }

  /** Merging never introduces a duplicate. */
  lemma {:induction false} MergedNoDuplicates(dest: seq<string>, src: seq<string>, n: nat)
    requires n <= |src|
    requires NoDuplicates(dest)
    ensures NoDuplicates(Merged(dest, src, n))
  {
    if n > 0 {
      MergedNoDuplicates(dest, src, n - 1);
    }
  }

  /** Sources already present change nothing. */
  lemma {:induction false} MergedContained(dest: seq<string>, src: seq<string>, n: nat)
    requires n <= |src|
    requires forall x :: x in src ==> x in dest
    ensures Merged(dest, src, n) == dest
  {
    if n > 0 {
      MergedContained(dest, src, n - 1);
    }
  }

  /**
   * What mergeWith leaves in the left-hand result. The define hashes are
   * united with the right-hand value found first on lookup.
   */
  function MergedResult(lhs: PathResolutionResult, rhs: PathResolutionResult): PathResolutionResult {
    lhs.(paths := Merged(lhs.paths, rhs.paths, |rhs.paths|),
         frameworkDirectories := Merged(lhs.frameworkDirectories, rhs.frameworkDirectories, |rhs.frameworkDirectories|),
         defines := lhs.defines + rhs.defines)
  }

  /** PathResolutionResult::mergeWith */
  method MergeWith(lhs: PathResolutionResult, rhs: PathResolutionResult) returns (r: PathResolutionResult)
    ensures r == MergedResult(lhs, rhs)
  {
    var ps := MergePaths(lhs.paths, rhs.paths);
    var fs := MergePaths(lhs.frameworkDirectories, rhs.frameworkDirectories);
    r := lhs.(paths := ps, frameworkDirectories := fs, defines := lhs.defines + rhs.defines);
  }

  /** Merging a default-constructed result (the never-assigned resultOnFail) changes nothing. */
  lemma MergedWithDefault(r: PathResolutionResult)
    ensures MergedResult(r, Default) == r
  {
    assert r.defines + map[] == r.defines;
  }

  // ---------------------------------------------------------------------
  // unescape

  /** unescape from a state where `escaped` says whether the previous character was an unescaped backslash. */
  function Unescaped(s: string, escaped: bool): string
  {
    if s == [] then []
    else if !escaped && s[0] == '\\' then Unescaped(s[1..], true)
    else [s[0]] + Unescaped(s[1..], false)
  }

  /** unescape: the loop with the isEscaped flag. */
  method Unescape(input: string) returns (output: string)
    ensures output == Unescaped(input, false)
  {
    output := [];
    var isEscaped := false;
    var i := 0;
    while i < |input|
      invariant 0 <= i <= |input|
      invariant output + Unescaped(input[i..], isEscaped) == Unescaped(input, false)
    {
      var c := input[i];
      assert input[i..][1..] == input[i + 1..];
      if !isEscaped && c == '\\' {
        isEscaped := true;
      } else {
        output := output + [c];
        isEscaped := false;
      }
      i := i + 1;
    }
  }

  /** The output is never longer than the input. */
  lemma {:induction false} UnescapedShorter(s: string, escaped: bool)
    ensures |Unescaped(s, escaped)| <= |s|
  {
    if s != [] {
      UnescapedShorter(s[1..], !escaped && s[0] == '\\');
    }
  }

  /** A string without backslashes is kept as it is. */
  lemma {:induction false} UnescapedPlain(s: string)
    requires '\\' !in s
    ensures Unescaped(s, false) == s
  {
    if s != [] {
      assert s[0] in s;
      assert forall c :: c in s[1..] ==> c in s;
      UnescapedPlain(s[1..]);
    }
  }

  /** A backslash is dropped and the character after it kept literally, also a second backslash. */
  lemma UnescapedPair(c: char, rest: string)
    ensures Unescaped(['\\', c] + rest, false) == [c] + Unescaped(rest, false)
  {
    assert (['\\', c] + rest)[1..] == [c] + rest;
    assert ([c] + rest)[1..] == rest;
  }

  /** Quoting every backslash and double quote with a backslash. */
  function Escape(s: string): string
  {
    if s == [] then []
    else if s[0] == '\\' || s[0] == '"' then ['\\', s[0]] + Escape(s[1..])
    else [s[0]] + Escape(s[1..])
  }

  /** unescape undoes Escape. */
  lemma {:induction false} UnescapeEscape(s: string)
    ensures Unescaped(Escape(s), false) == s
  {
    if s != [] {
      UnescapeEscape(s[1..]);
      if s[0] == '\\' || s[0] == '"' {
        UnescapedPair(s[0], Escape(s[1..]));
      } else {
        assert ([s[0]] + Escape(s[1..]))[1..] == Escape(s[1..]);
      }
    }
  }

  // ---------------------------------------------------------------------
  // processOutput

  /** The quote test of processOutput: a `"`-value, or a `'`-value longer than 2, ending with its first character. */
  predicate Quoted(path: string) {
    (StartsWith(path, "\"") || (StartsWith(path, "'") && |path| > 2)) && EndsWith(path, path[..1])
  }

  /** `path.mid(1, path.length() - 2)` on a quoted value, which for the single `"` is empty. */
  function StripQuotes(path: string): (r: string)
    ensures Quoted(path) && |path| >= 2 ==> path == [path[0]] + r + [path[0]]
    ensures Quoted(path) && |path| < 2 ==> path == "\"" && r == []
    ensures !Quoted(path) ==> r == path
  {
    if Quoted(path) then (if |path| >= 2 then path[1..|path| - 1] else []) else path
  }

  /** A double-quoted value loses its quotes whatever it holds. */
  lemma StripDoubleQuotes(v: string)
    ensures StripQuotes("\"" + v + "\"") == v
  {
    var p := "\"" + v + "\"";
    assert p[..1] == "\"" && p[|p| - 1..] == "\"";
    assert p[1..|p| - 1] == v;
  }

  /** A single-quoted value loses its quotes only when it is not empty. */
  lemma StripSingleQuotes(v: string)
    ensures StripQuotes("'" + v + "'") == (if v == [] then "''" else v)
  {
    var p := "'" + v + "'";
    assert p[..1] == "'" && p[|p| - 1..] == "'";
    assert p[1..|p| - 1] == v;
  }

  /** Framework directories are given by `-iframework` or `-F`. */
  predicate IsFramework(flag: string) {
    StartsWith(flag, "-iframework") || StartsWith(flag, "-F")
  }

  /** The path a match contributes: unquoted, anchored at the working directory and normalised. */
  function IncludePath(m: IncludeMatch, wd: string, clean: string -> string): string {
    clean(Anchor(StripQuotes(m.value), wd))
  }

  /** The paths of the first `n` matches whose flag is (`framework`) or is not a framework flag, in order. */
  function PathsOf(ms: seq<IncludeMatch>, n: nat, wd: string, clean: string -> string, framework: bool): seq<string>
    requires n <= |ms|
  {
    if n == 0 then []
    else
      var before := PathsOf(ms, n - 1, wd, clean, framework);
      if IsFramework(ms[n - 1].flag) == framework then before + [IncludePath(ms[n - 1], wd, clean)] else before
  }

  /** Every match goes to exactly one of the two lists. */
  lemma PathsPartition(ms: seq<IncludeMatch>, n: nat, wd: string, clean: string -> string)
    requires n <= |ms|
    ensures |PathsOf(ms, n, wd, clean, false)| + |PathsOf(ms, n, wd, clean, true)| == n
  {
    PathsCollected(ms, n, wd, clean, false);
    PathsCollected(ms, n, wd, clean, true);
    CollectedPartition(ms, n, Contribution(wd, clean, false), Contribution(wd, clean, true));
  }

  /** Two contributions of which each match makes exactly one collect `n` values in all. */
  lemma {:induction false} CollectedPartition(ms: seq<IncludeMatch>, n: nat, c: IncludeMatch -> Option<string>, d: IncludeMatch -> Option<string>)
    requires n <= |ms|
    requires forall m :: c(m).Some? != d(m).Some?
    ensures |Collected(ms, n, c)| + |Collected(ms, n, d)| == n
  {
    if n > 0 {
      CollectedPartition(ms, n - 1, c, d);
      assert c(ms[n - 1]).Some? != d(ms[n - 1]).Some?;
    }
  }

  /** A path is listed exactly when a match of the right kind produced it. */
  lemma PathsMembers(ms: seq<IncludeMatch>, n: nat, wd: string, clean: string -> string, framework: bool)
    requires n <= |ms|
    ensures forall x :: x in PathsOf(ms, n, wd, clean, framework) <==>
      exists i :: 0 <= i < n && IsFramework(ms[i].flag) == framework && IncludePath(ms[i], wd, clean) == x
  {
    forall x
      ensures x in PathsOf(ms, n, wd, clean, framework) <==>
        exists i :: 0 <= i < n && IsFramework(ms[i].flag) == framework && IncludePath(ms[i], wd, clean) == x
    {
      PathsMember(ms, n, wd, clean, framework, x);
    }
  }

  /** The same for one path. */
  lemma PathsMember(ms: seq<IncludeMatch>, n: nat, wd: string, clean: string -> string, framework: bool, x: string)
    requires n <= |ms|
    ensures x in PathsOf(ms, n, wd, clean, framework) <==>
      exists i :: 0 <= i < n && IsFramework(ms[i].flag) == framework && IncludePath(ms[i], wd, clean) == x
  {
    var c := Contribution(wd, clean, framework);
    PathsCollected(ms, n, wd, clean, framework);
    CollectedMember(ms, n, c, x);
    if exists i :: 0 <= i < n && IsFramework(ms[i].flag) == framework && IncludePath(ms[i], wd, clean) == x {
      var i :| 0 <= i < n && IsFramework(ms[i].flag) == framework && IncludePath(ms[i], wd, clean) == x;
      assert c(ms[i]) == Some(x);
    }
  }

  /** What one match contributes to the list of the given kind, if anything. */
  function Contribution(wd: string, clean: string -> string, framework: bool): (c: IncludeMatch -> Option<string>)
    ensures forall m :: c(m) == if IsFramework(m.flag) == framework then Some(IncludePath(m, wd, clean)) else None
  {
    (m: IncludeMatch) => if IsFramework(m.flag) == framework then Some(IncludePath(m, wd, clean)) else None
  }

  /** The contributions of the first `n` matches, in order. */
  function Collected(ms: seq<IncludeMatch>, n: nat, c: IncludeMatch -> Option<string>): seq<string>
    requires n <= |ms|
  {
    if n == 0 then []
    else
      var before := Collected(ms, n - 1, c);
      if c(ms[n - 1]).Some? then before + [c(ms[n - 1]).value] else before
  }

  lemma {:induction false} PathsCollected(ms: seq<IncludeMatch>, n: nat, wd: string, clean: string -> string, framework: bool)
    requires n <= |ms|
    ensures PathsOf(ms, n, wd, clean, framework) == Collected(ms, n, Contribution(wd, clean, framework))
  {
    if n > 0 {
      PathsCollected(ms, n - 1, wd, clean, framework);
    }
  }

  /** A value is collected exactly when one of the first `n` matches contributes it. */
  lemma {:induction false} CollectedMember(ms: seq<IncludeMatch>, n: nat, c: IncludeMatch -> Option<string>, x: string)
    requires n <= |ms|
    ensures x in Collected(ms, n, c) <==> exists i :: 0 <= i < n && c(ms[i]) == Some(x)
  {
    if n > 0 {
      CollectedMember(ms, n - 1, c, x);
      if c(ms[n - 1]) != Some(x) && exists i :: 0 <= i < n && c(ms[i]) == Some(x) {
        var i :| 0 <= i < n && c(ms[i]) == Some(x);
        assert i < n - 1;
      }
    }
  }

  /** The value stored for one define match. */
  function DefineValue(d: DefineMatch): string {
    match d.value
    case None => ""
    case Some(v) => Unescaped(v, false)
  }

  /** ret.defines after the first `n` define matches. */
  function DefinesOf(ds: seq<DefineMatch>, n: nat): map<string, string>
    requires n <= |ds|
  {
    if n == 0 then map[] else DefinesOf(ds, n - 1)[ds[n - 1].name := DefineValue(ds[n - 1])]
  }

  /** A name is defined exactly when some match carries it. */
  lemma {:induction false} DefinesKeys(ds: seq<DefineMatch>, n: nat)
    requires n <= |ds|
    ensures forall k :: k in DefinesOf(ds, n) <==> exists i :: 0 <= i < n && ds[i].name == k
  {
    if n > 0 {
      DefinesKeys(ds, n - 1);
      assert ds[n - 1].name in DefinesOf(ds, n);
    }
  }

  /** A name's value is the one of its last match. */
  lemma {:induction false} DefinesLastWins(ds: seq<DefineMatch>, n: nat, i: nat)
    requires i < n <= |ds|
    requires forall j :: i < j < n ==> ds[j].name != ds[i].name
    ensures ds[i].name in DefinesOf(ds, n) && DefinesOf(ds, n)[ds[i].name] == DefineValue(ds[i])
  {
    if i < n - 1 {
      DefinesLastWins(ds, n - 1, i);
    }
  }

  /** processOutput's result. */
  function ProcessedOutput(fullOutput: string, wd: string, env: Env): PathResolutionResult {
    var ms := env.includeMatches(fullOutput);
    var ds := env.defineMatches(fullOutput);
    PathResolutionResult(true, "", fullOutput,
      PathsOf(ms, |ms|, wd, env.clean, false), PathsOf(ms, |ms|, wd, env.clean, true), DefinesOf(ds, |ds|))
  }

  /** One more match extends exactly one of the two lists. */
  lemma PathsStep(ms: seq<IncludeMatch>, i: nat, wd: string, clean: string -> string)
    requires i < |ms|
    ensures IsFramework(ms[i].flag) ==>
      PathsOf(ms, i + 1, wd, clean, true) == PathsOf(ms, i, wd, clean, true) + [IncludePath(ms[i], wd, clean)] &&
      PathsOf(ms, i + 1, wd, clean, false) == PathsOf(ms, i, wd, clean, false)
    ensures !IsFramework(ms[i].flag) ==>
      PathsOf(ms, i + 1, wd, clean, false) == PathsOf(ms, i, wd, clean, false) + [IncludePath(ms[i], wd, clean)] &&
      PathsOf(ms, i + 1, wd, clean, true) == PathsOf(ms, i, wd, clean, true)
  {
  }

  /** processOutput's first loop: each include match goes to the paths or the framework directories. */
  method CollectIncludes(ms: seq<IncludeMatch>, wd: string, clean: string -> string)
    returns (paths: seq<string>, frameworks: seq<string>)
    ensures paths == PathsOf(ms, |ms|, wd, clean, false)
    ensures frameworks == PathsOf(ms, |ms|, wd, clean, true)
  {
    paths, frameworks := [], [];
    var i := 0;
    while i < |ms|
      invariant 0 <= i <= |ms|
      invariant paths == PathsOf(ms, i, wd, clean, false)
      invariant frameworks == PathsOf(ms, i, wd, clean, true)
    {
      paths, frameworks := AddInclude(ms, i, wd, clean, paths, frameworks);
      i := i + 1;
    }
  }

  /** One include match of processOutput's first loop. */
  method AddInclude(ms: seq<IncludeMatch>, i: nat, wd: string, clean: string -> string,
                    paths: seq<string>, frameworks: seq<string>)
    returns (paths': seq<string>, frameworks': seq<string>)
    requires i < |ms|
    requires paths == PathsOf(ms, i, wd, clean, false) && frameworks == PathsOf(ms, i, wd, clean, true)
    ensures paths' == PathsOf(ms, i + 1, wd, clean, false)
    ensures frameworks' == PathsOf(ms, i + 1, wd, clean, true)
  {
    var path := IncludePath(ms[i], wd, clean);
    PathsStep(ms, i, wd, clean);
    if IsFramework(ms[i].flag) {
      paths', frameworks' := paths, frameworks + [path];
    } else {
      paths', frameworks' := paths + [path], frameworks;
    }
  }

  /** processOutput's second loop: each define match stores its unescaped value. */
  method CollectDefines(ds: seq<DefineMatch>) returns (defines: map<string, string>)
    ensures defines == DefinesOf(ds, |ds|)
  {
    defines := map[];
    var j := 0;
    while j < |ds|
      invariant 0 <= j <= |ds|
      invariant defines == DefinesOf(ds, j)
    {
      var value := "";
      if ds[j].value.Some? {
        value := Unescape(ds[j].value.value);
      }
      defines := defines[ds[j].name := value];
      j := j + 1;
    }
  }

  /** processOutput */
  method ProcessOutput(fullOutput: string, wd: string, env: Env) returns (ret: PathResolutionResult)
    ensures ret == ProcessedOutput(fullOutput, wd, env)
  {
    var paths, frameworks := CollectIncludes(env.includeMatches(fullOutput), wd, env.clean);
    var defines := CollectDefines(env.defineMatches(fullOutput));
    ret := PathResolutionResult(true, "", fullOutput, paths, frameworks, defines);
  }

  // ---------------------------------------------------------------------
  // SourcePathInformation

  /** SourcePathInformation::getCommand */
  function GetCommand(absoluteFile: string, wd: string, makeParameters: string,
                      relativePath: (string, string) -> string): (r: string)
    ensures StartsWith(r, "make -k --no-print-directory -W '" + absoluteFile + "' -W '")
    ensures EndsWith(r, relativePath(wd, absoluteFile) + "' -n " + makeParameters)
  {
    var head := "make -k --no-print-directory -W '" + absoluteFile + "' -W '";
    var tail := relativePath(wd, absoluteFile) + "' -n " + makeParameters;
    assert head + tail == "make -k --no-print-directory -W '" + absoluteFile + "' -W '" + relativePath(wd, absoluteFile) + "' -n " + makeParameters;
    assert (head + tail)[..|head|] == head;
    assert (head + tail)[|head + tail| - |tail|..] == tail;
    head + tail
  }

  /** SourcePathInformation::possibleTargets */
  function PossibleTargets(base: string): (r: seq<string>)
    ensures |r| == 3 && NoDuplicates(r)
    ensures forall k :: 0 <= k < 3 ==> StartsWith(r[k], base) && r[k][|base|..] == [".o", ".lo", ".ko"][k]
  {
    var r := [base + ".o", base + ".lo", base + ".ko"];
    assert forall k :: 0 <= k < 3 ==> r[k][..|base|] == base && r[k][|base|..] == [".o", ".lo", ".ko"][k];
    assert |r[0]| != |r[1]| && |r[1]| == |r[2]| && r[1][|r[1]| - 2] != r[2][|r[2]| - 2];
    r
  }

  // ---------------------------------------------------------------------
  // mapToBuild and the out-of-source layout

  /** m_outOfSource, m_source and m_build. */
  datatype BuildLayout = BuildLayout(outOfSource: bool, source: string, build: string)

  /** A path below `dir` joined with '/'. */
  function JoinPath(dir: string, rest: string): string {
    dir + "/" + rest
  }

  /** mapToBuild */
  function MappedToBuild(layout: BuildLayout, path: string, clean: string -> string): (r: string)
    ensures !layout.outOfSource ==> r == clean(path)
    ensures StartsWith(clean(path), layout.build) ==> r == clean(path)
    ensures layout.outOfSource && StartsWith(clean(path), layout.source) && !StartsWith(clean(path), layout.build) ==>
      r == clean(JoinPath(layout.build, clean(path)[|layout.source|..]))
  {
    var wd := clean(path);
    if layout.outOfSource && StartsWith(wd, layout.source) && !StartsWith(wd, layout.build) then
      clean(JoinPath(layout.build, wd[|layout.source|..]))
    else wd
  }

  /**
   * resolveIncludePath maps its directory twice; the second mapping changes
   * nothing when cleaning is idempotent and a cleaned path below the build
   * directory still starts with it.
   */
  lemma MapToBuildTwice(layout: BuildLayout, path: string, clean: string -> string)
    requires forall p :: clean(clean(p)) == clean(p)
    requires forall x :: StartsWith(clean(JoinPath(layout.build, x)), layout.build)
    ensures MappedToBuild(layout, MappedToBuild(layout, path, clean), clean) == MappedToBuild(layout, path, clean)
  {
    var wd := clean(path);
    if layout.outOfSource && StartsWith(wd, layout.source) && !StartsWith(wd, layout.build) {
      var moved := clean(JoinPath(layout.build, wd[|layout.source|..]));
      assert clean(moved) == moved;
      assert StartsWith(moved, layout.build);
    } else {
      assert clean(wd) == wd;
    }
  }

  /** The layout of a newly constructed resolver. */
  const FreshLayout: BuildLayout := BuildLayout(false, "", "")

  /** resetOutOfSourceBuild */
  function ResetOutOfSource(layout: BuildLayout): (r: BuildLayout)
    ensures !r.outOfSource && r.source == layout.source && r.build == layout.build
  {
    layout.(outOfSource := false)
  }

  /** setOutOfSourceBuildSystem as written: the build argument is never stored. */
  function OutOfSourceAsWritten(layout: BuildLayout, source: string, build: string, clean: string -> string): (r: BuildLayout)
    ensures source == build ==> r == ResetOutOfSource(layout)
    ensures source != build ==> r.outOfSource && r.source == clean(source) && r.build == clean(layout.build)
  {
    if source == build then ResetOutOfSource(layout)
    else BuildLayout(true, clean(source), clean(layout.build))
  }

  /** setOutOfSourceBuildSystem as evidently intended: the cleaned build argument is stored. */
  function OutOfSourceIntended(layout: BuildLayout, source: string, build: string, clean: string -> string): (r: BuildLayout)
    ensures source == build ==> r == ResetOutOfSource(layout)
    ensures source != build ==> r.outOfSource && r.source == clean(source) && r.build == clean(build)
  {
    if source == build then ResetOutOfSource(layout)
    else BuildLayout(true, clean(source), clean(build))
  }

  /**
   * As written, a fresh resolver keeps an empty build directory, every path
   * starts with it, and mapToBuild never moves a path out of the source tree.
   */
  lemma AsWrittenNeverMoves(source: string, build: string, path: string, clean: string -> string)
    requires clean("") == ""
    ensures MappedToBuild(OutOfSourceAsWritten(FreshLayout, source, build, clean), path, clean) == clean(path)
  {
    assert StartsWith(clean(path), "");
  }

  /** With the build directory stored, a path in the source tree but outside the build tree is moved below it. */
  lemma IntendedMovesToBuild(layout: BuildLayout, source: string, build: string, path: string, clean: string -> string)
    requires source != build
    requires forall x :: StartsWith(clean(JoinPath(clean(build), x)), clean(build))
    requires StartsWith(clean(path), clean(source)) && !StartsWith(clean(path), clean(build))
    ensures StartsWith(MappedToBuild(OutOfSourceIntended(layout, source, build, clean), path, clean), clean(build))
  {
    var l := OutOfSourceIntended(layout, source, build, clean);
    assert MappedToBuild(l, path, clean) == clean(JoinPath(clean(build), clean(path)[|clean(source)|..]));
  }

  // ---------------------------------------------------------------------
  // resolveIncludePathInternal

  /** The escaped line break removed from make's output. */
  const LineContinuation: string := "\\\n"

  /** The output up to its first '\n'. */
  function FirstLine(s: string): (r: string)
    ensures '\n' !in r && StartsWith(s, r)
    ensures r == s || (|r| < |s| && s[|r|] == '\n')
  {
    match IndexOf(s, '\n')
    case None => s
    case Some(k) => s[..k]
  }

  /** Word characters of a regular expression's `\b`. */
  predicate IsWordChar(c: char) {
    ('a' <= c <= 'z') || ('A' <= c <= 'Z') || IsDigit(c) || c == '_'
  }

  /** `\bmake\s` matches at `i`. */
  predicate MakeCallAt(s: string, i: nat) {
    i + 5 <= |s| && s[i..i + 4] == "make" && IsSpace(s[i + 4]) && (i == 0 || !IsWordChar(s[i - 1]))
  }

  /** The first match of `\bmake\s` at or after `from`. */
  function FirstMakeCallFrom(s: string, from: nat): (r: Option<nat>)
    ensures r.Some? ==> from <= r.value && MakeCallAt(s, r.value)
    ensures r.Some? ==> forall j: nat :: from <= j < r.value ==> !MakeCallAt(s, j)
    ensures r.None? ==> forall j: nat :: from <= j ==> !MakeCallAt(s, j)
    decreases |s| - from
  {
    if from + 5 > |s| then None
    else if MakeCallAt(s, from) then Some(from)
    else FirstMakeCallFrom(s, from + 1)
  }

  /** What precedes a recursive make: nothing, or a command ending in `&&` or `;`. */
  predicate ChainsIntoMake(prefix: string) {
    prefix == [] || EndsWith(prefix, "&&") || EndsWith(prefix, ";")
  }

  /** The prefix without its `&&` or `;`. */
  function WithoutSeparator(prefix: string): string
    requires prefix != []
  {
    if EndsWith(prefix, "&&") then prefix[..|prefix| - 2]
    else if EndsWith(prefix, ";") then prefix[..|prefix| - 1]
    else prefix
  }

  /** The working directory after the prefix: the target of its last `cd `, or `wd`. */
  function NewWorkingDirectory(prefix: string, wd: string, clean: string -> string): (r: string)
    ensures prefix == [] ==> r == wd
    ensures prefix != [] && (forall j: nat :: !OccursAt(WithoutSeparator(prefix), "cd ", j)) ==> r == wd
    ensures prefix != [] && r != wd ==> exists i: nat ::
      OccursAt(WithoutSeparator(prefix), "cd ", i) &&
      (forall j: nat :: i < j ==> !OccursAt(WithoutSeparator(prefix), "cd ", j)) &&
      r == clean(Anchor(Trim(WithoutSeparator(prefix)[i + 3..]), wd))
  {
    if prefix == [] then wd
    else
      var p := WithoutSeparator(prefix);
      match LastIndexOf(p, "cd ")
      case None => wd
      case Some(cd) => clean(Anchor(Trim(p[cd + 3..]), wd))
  }

  /** Parameters of a recursive make that contain neither `;` nor `&&`. */
  predicate ValidMakeParameters(params: string) {
    !Contains(params, ";") && !Contains(params, "&&")
  }

  /** make's output for the file, with escaped line breaks removed. */
  function MakeOutput(file: string, wd: string, makeParameters: string, env: Env): string {
    RemoveAll(env.run(GetCommand(file, wd, makeParameters, env.relativePath), wd), LineContinuation)
  }

  /** The offset of the recursive make call that is followed, if any. */
  function RecursiveCall(fullOutput: string, env: Env): (r: Option<nat>)
    ensures r.Some? ==> env.includeMatches(fullOutput) == [] && MakeCallAt(FirstLine(fullOutput), r.value)
  {
    if env.includeMatches(fullOutput) == [] then FirstMakeCallFrom(FirstLine(fullOutput), 0) else None
  }

  /** resolveIncludePathInternal */
  function ResolveInternal(file: string, wd: string, makeParameters: string, maxDepth: int, env: Env): (r: PathResolutionResult)
    ensures maxDepth <= 0 ==> r == Default
    ensures r.success ==> r.paths != [] || r.frameworkDirectories != []
    ensures maxDepth > 0 && RecursiveCall(MakeOutput(file, wd, makeParameters, env), env).None? ==>
      var out := MakeOutput(file, wd, makeParameters, env);
      var ret := ProcessedOutput(out, wd, env);
      (r.success <==> ret.paths != [] || ret.frameworkDirectories != []) && (r.success ==> r == ret)
    ensures maxDepth > 0 ==>
      var out := MakeOutput(file, wd, makeParameters, env);
      match RecursiveCall(out, env)
      case None => true
      case Some(offset) =>
        var line := FirstLine(out);
        var prefix := Trim(line[..offset]);
        if !ChainsIntoMake(prefix) then r == Failure("Malformed recursive make call", "Output was: " + out)
        else if NewWorkingDirectory(prefix, wd, env.clean) == wd then
          r == Failure("Failed to extract new working directory", "Output was: " + out)
        else if !env.fileExists(NewWorkingDirectory(prefix, wd, env.clean)) then
          !r.success && r.errorMessage == "Recursive make call failed"
        else if !ValidMakeParameters(line[offset + 5..]) then
          !r.success && r.errorMessage == "Recursive make call failed"
        else
          // the absolute file name is tried in the new directory first, the relative one only if that fails
          var newWd := NewWorkingDirectory(prefix, wd, env.clean);
          var absolutePath := env.clean(Anchor(file, wd));
          var absolute := ResolveInternal(absolutePath, newWd, line[offset + 5..], maxDepth - 1, env);
          (absolute.success ==> r == absolute) &&
          (!absolute.success ==>
             r == ResolveInternal(env.relativePath(newWd, absolutePath), newWd, line[offset + 5..], maxDepth - 1, env))
    decreases maxDepth
  {
    var depth := maxDepth - 1;
    if depth < 0 then Default
    else
      var command := GetCommand(file, wd, makeParameters, env.relativePath);
      var fullOutput := MakeOutput(file, wd, makeParameters, env);
      var firstLine := FirstLine(fullOutput);
      match RecursiveCall(fullOutput, env)
      case Some(offset) =>
        var prefix := Trim(firstLine[..offset]);
        if ChainsIntoMake(prefix) then
          var newWd := NewWorkingDirectory(prefix, wd, env.clean);
          if newWd == wd then
            Failure("Failed to extract new working directory", "Output was: " + fullOutput)
          else if env.fileExists(newWd) then
            var makeParams := firstLine[offset + 5..];
            if ValidMakeParameters(makeParams) then
              var absolutePath := env.clean(Anchor(file, wd));
              var res := ResolveInternal(absolutePath, newWd, makeParams, depth, env);
              if res.success then res
              else ResolveInternal(env.relativePath(newWd, absolutePath), newWd, makeParams, depth, env)
            else
              Failure("Recursive make call failed", "The parameter string \"" + makeParams
                      + "\" does not seem to be valid. Output was: " + fullOutput + ".")
          else
            Failure("Recursive make call failed", "The directory \"" + newWd
                    + "\" does not exist. Output was: " + fullOutput + ".")
        else
          Failure("Malformed recursive make call", "Output was: " + fullOutput)
      case None =>
        var ret := ProcessedOutput(fullOutput, wd, env);
        if ret.paths == [] && ret.frameworkDirectories == [] then
          Failure("Could not extract include paths from make output",
                  "Folder: \"" + wd + "\"  Command: \"" + command + "\"  Output: \"" + fullOutput + "\"")
        else ret
  }

  // ---------------------------------------------------------------------
  // resolveIncludePath

  /** The trailing slashes QUrl::StripTrailingSlash removes, keeping a lone "/". */
  function StripTrailingSlashes(p: string): (r: string)
    ensures StartsWith(p, r) && (|r| <= 1 || r[|r| - 1] != '/')
  {
    if |p| > 1 && p[|p| - 1] == '/' then StripTrailingSlashes(p[..|p| - 1]) else p
  }

  /** The working directory made absolute against the current directory. */
  function AbsoluteWorkingDirectory(wd: string, cwd: string): (r: string)
    ensures !IsRelative(wd) ==> r == wd
    ensures (wd == [] || wd == ".") ==> r == cwd
  {
    if IsRelative(wd) then
      var w := if wd == "." then [] else if StartsWith(wd, "./") then wd[2..] else wd;
      if w == [] then cwd else StripTrailingSlashes(cwd) + "/" + w
    else wd
  }

  const BusyMessage: string := "Tried include path resolution while another resolution process was still running"

  /** The failure for a directory without a Makefile. */
  function MissingMakefile(dir: string, file: string): PathResolutionResult {
    Failure("Makefile is missing in folder \"" + dir + "\"", "Problem while trying to resolve include paths for " + file)
  }

  /** The mapped directory resolveIncludePath looks for a Makefile in. */
  function BuildDirectory(layout: BuildLayout, workingDirectory: string, env: Env): string {
    MappedToBuild(layout, env.clean(workingDirectory), env.clean)
  }

  /** A name holding a dot has a last dot. */
  lemma DotFound(file: string)
    requires '.' in file
    ensures LastIndexOf(file, ".").Some?
  {
    var i :| 0 <= i < |file| && file[i] == '.';
    assert file[i..i + 1] == ".";
    assert OccursAt(file, ".", i);
  }

  /** The internal resolution of a file with a dot, for its possible targets in the mapped Makefile directory. */
  function MakefileAttempt(layout: BuildLayout, file: string, workingDirectory: string, env: Env): PathResolutionResult
    requires '.' in file
  {
    DotFound(file);
    var absoluteFile := env.clean(Anchor(file, workingDirectory));
    var dot := LastIndexOf(file, ".").value;
    var targetName := file[..dot];
    var dirPath := BuildDirectory(layout, workingDirectory, env);
    var wd := MappedToBuild(layout, if IsRelative(dirPath) then env.clean(env.cwd + "/" + dirPath) else dirPath, env.clean);
    ResolveInternal(absoluteFile, wd, Join(PossibleTargets(targetName), ' '), MaximumInternalResolutionDepth, env)
  }

  /**
   * resolveIncludePath once the directory has a Makefile: the target names
   * and the internal resolution. With nothing cached for the directory, a
   * result without include paths takes the cached paths and defines, which
   * are empty, so its defines are dropped; the cached framework directories
   * it would take when it has none are empty as well.
   */
  function ResolveWithMakefile(layout: BuildLayout, file: string, workingDirectory: string, env: Env): (r: PathResolutionResult)
    ensures '.' !in file ==> r == Failure("Filename " + file + " seems to be malformed", "")
    ensures '.' in file ==>
      var res := MakefileAttempt(layout, file, workingDirectory, env);
      r.success == res.success && r.errorMessage == res.errorMessage && r.longErrorMessage == res.longErrorMessage &&
      r.paths == res.paths && r.frameworkDirectories == res.frameworkDirectories &&
      (res.paths != [] ==> r.defines == res.defines) && (res.paths == [] ==> r.defines == map[])
    ensures r.success ==> r.paths != [] || r.frameworkDirectories != []
  {
    match LastIndexOf(file, ".")
    case None =>
      assert '.' !in file by {
        if '.' in file {
          DotFound(file);
        }
      }
      Failure("Filename " + file + " seems to be malformed", "")
    case Some(dot) =>
      assert file[dot] == '.' by {
        assert file[dot..dot + 1] == ".";
      }
      var res := MakefileAttempt(layout, file, workingDirectory, env);
      if res.paths == [] then res.(defines := map[]) else res
  }

  /** resolveIncludePath(file, workingDirectory, maxStepsUp) when no other resolution is running. */
  function ResolveFrom(layout: BuildLayout, file: string, wd0: string, maxStepsUp: int, env: Env): (r: PathResolutionResult)
    ensures r.success ==> r.paths != [] || r.frameworkDirectories != []
    // a directory with a Makefile is resolved there
    ensures var wd := AbsoluteWorkingDirectory(wd0, env.cwd);
      env.fileExists(BuildDirectory(layout, wd, env) + "/Makefile") ==> r == ResolveWithMakefile(layout, file, wd, env)
    // without one, a relative file is looked for one directory up, and only a success from there is kept
    ensures var wd := AbsoluteWorkingDirectory(wd0, env.cwd);
      var dir := BuildDirectory(layout, wd, env);
      !env.fileExists(dir + "/Makefile") && maxStepsUp > 0 && IsRelative(file) && env.cdUp(wd).Some? ==>
        var oneUp := ResolveFrom(layout, env.dirName(wd) + "/" + file, env.cdUp(wd).value, maxStepsUp - 1, env);
        r == if oneUp.success then oneUp else MissingMakefile(dir, file)
    // with no step left, an absolute file or no parent directory, the Makefile is reported missing
    ensures var wd := AbsoluteWorkingDirectory(wd0, env.cwd);
      var dir := BuildDirectory(layout, wd, env);
      !env.fileExists(dir + "/Makefile") && !(maxStepsUp > 0 && IsRelative(file) && env.cdUp(wd).Some?) ==>
        r == MissingMakefile(dir, file)
    decreases if maxStepsUp > 0 then maxStepsUp else 0
  {
    var workingDirectory := AbsoluteWorkingDirectory(wd0, env.cwd);
    var dir := BuildDirectory(layout, workingDirectory, env);
    if !env.fileExists(dir + "/Makefile") then
      var up := if maxStepsUp > 0 && IsRelative(file) then env.cdUp(workingDirectory) else None;
      match up
      case Some(parent) =>
        var oneUp := ResolveFrom(layout, env.dirName(workingDirectory) + "/" + file, parent, maxStepsUp - 1, env);
        MergedWithDefault(oneUp);
        if oneUp.success then MergedResult(oneUp, Default) else MissingMakefile(dir, file)
      case None => MissingMakefile(dir, file)
    else
      ResolveWithMakefile(layout, file, workingDirectory, env)
  }

  /** The resolver's own state: the re-entrancy flag and the out-of-source layout. */
  class Resolver {
    var isResolving: bool
    var layout: BuildLayout

    constructor ()
      ensures !isResolving && layout == FreshLayout
    {
      isResolving := false;
      layout := FreshLayout;
    }

    /** resetOutOfSourceBuild */
    method ResetOutOfSourceBuild()
      modifies this
      ensures layout == ResetOutOfSource(old(layout)) && isResolving == old(isResolving)
    {
      layout := layout.(outOfSource := false);
    }

    /** setOutOfSourceBuildSystem, with the cleaned build directory stored as evidently intended. */
    method SetOutOfSourceBuildSystem(source: string, build: string, clean: string -> string)
      modifies this
      ensures layout == OutOfSourceIntended(old(layout), source, build, clean) && isResolving == old(isResolving)
    {
      if source == build {
        ResetOutOfSourceBuild();
        return;
      }
      layout := BuildLayout(true, clean(source), clean(build));
    }

    /** setOutOfSourceBuildSystem as written: the build directory is cleaned in place and the argument dropped. */
    method SetOutOfSourceBuildSystemAsWritten(source: string, build: string, clean: string -> string)
      modifies this
      ensures layout == OutOfSourceAsWritten(old(layout), source, build, clean) && isResolving == old(isResolving)
    {
      if source == build {
        ResetOutOfSourceBuild();
        return;
      }
      layout := BuildLayout(true, clean(source), clean(layout.build));
    }

    /** mapToBuild */
    function MapToBuild(path: string, clean: string -> string): (r: string)
      reads this
      ensures !layout.outOfSource ==> r == clean(path)
    {
      MappedToBuild(layout, path, clean)
    }

    /**
     * resolveIncludePath(file, workingDirectory, maxStepsUp): refused while
     * another resolution runs; the flag is raised around the internal
     * resolution and restored afterwards.
     */
    method ResolveIncludePath(file: string, workingDirectory: string, maxStepsUp: int, env: Env)
      returns (r: PathResolutionResult)
      modifies this
      ensures isResolving == old(isResolving) && layout == old(layout)
      ensures old(isResolving) ==> r == Failure(BusyMessage, "")
      ensures !old(isResolving) ==> r == ResolveFrom(layout, file, workingDirectory, maxStepsUp, env)
      decreases if maxStepsUp > 0 then maxStepsUp else 0
    {
      if isResolving {
        return Failure(BusyMessage, "");
      }
      var wd := AbsoluteWorkingDirectory(workingDirectory, env.cwd);
      var dir := BuildDirectory(layout, wd, env);
      if !env.fileExists(dir + "/Makefile") {
        if maxStepsUp > 0 && IsRelative(file) {
          var up := env.cdUp(wd);
          if up.Some? {
            var oneUp := ResolveIncludePath(env.dirName(wd) + "/" + file, up.value, maxStepsUp - 1, env);
            if oneUp.success {
              r := MergeWith(oneUp, Default);
              MergedWithDefault(oneUp);
              return;
            }
          }
        }
        return MissingMakefile(dir, file);
      }
      isResolving := true;
      r := ResolveWithMakefile(layout, file, wd, env);
      isResolving := false;
    }

    /** resolveIncludePath(file): an empty name gives the default result, otherwise its name and directory are used. */
    method ResolveIncludePathOfFile(file: string, env: Env) returns (r: PathResolutionResult)
      modifies this
      ensures isResolving == old(isResolving) && layout == old(layout)
      ensures file == [] ==> r == Default
      ensures file != [] && !old(isResolving) ==>
        r == ResolveFrom(layout, env.fileName(file), env.absolutePath(file), DefaultMaxStepsUp, env)
    {
      if file == [] {
        return Default;
      }
      r := ResolveIncludePath(env.fileName(file), env.absolutePath(file), DefaultMaxStepsUp, env);
    }
  }
}
