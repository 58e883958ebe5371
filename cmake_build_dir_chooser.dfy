/**
 * The CMake build-directory dialog's validation
 * (projectmanagers/cmake/cmakebuilddirchooser.cpp): reading the source
 * directory, install prefix and build type out of an existing
 * CMakeCache.txt, and deciding whether the chosen folder can be used.
 *
 * The file system is a parameter: a `Folder` says what QDir reports about
 * the chosen folder, the cache file is its lines (or nothing when it cannot
 * be opened), and QDir::canonicalPath and QDir::exists are functions.
 * The widgets are fields of `Chooser`.
 */
module CMakeBuildDirChooser {
  import opened Text

  const SrcLine: string := "CMAKE_HOME_DIRECTORY:INTERNAL="
  const InstallLine: string := "CMAKE_INSTALL_PREFIX:PATH="
  const BuildLine: string := "CMAKE_BUILD_TYPE:STRING="

  /** The three cache keys, in the order of the values they give. */
  const Keys: seq<string> := [SrcLine, InstallLine, BuildLine]

  // ---------------------------------------------------------------------
  // buildDirSettings

  /** The three values read so far (source dir, install dir, build type) and the number of matching lines. */
  datatype Scan = Scan(values: seq<string>, count: nat)

  const Start: Scan := Scan(["", "", ""], 0)

  /** The value a (trimmed) line gives for a key, or the one already read. */
  function Take(line: string, key: string, value: string): (r: string)
    ensures StartsWith(line, key) ==> r == line[|key|..]
    ensures !StartsWith(line, key) ==> r == value
  {
    if StartsWith(line, key) then line[|key|..] else value
  }

  function Matches(line: string, key: string): nat {
    if StartsWith(line, key) then 1 else 0
  }

  /** One loop iteration: the three independent tests, each counting its match. */
  function Step(scan: Scan, line: string): (r: Scan)
    requires |scan.values| == 3
    ensures |r.values| == 3
  {
    Scan([Take(line, SrcLine, scan.values[0]),
          Take(line, InstallLine, scan.values[1]),
          Take(line, BuildLine, scan.values[2])],
         scan.count + Matches(line, SrcLine) + Matches(line, InstallLine) + Matches(line, BuildLine))
  }

  /** The scan from line `i` on: it stops once three lines have matched, or at the end of the file. */
  function Scanned(lines: seq<string>, i: nat, scan: Scan): (r: Scan)
    requires |scan.values| == 3
    ensures |r.values| == 3
    decreases |lines| - i
  {
    if scan.count == 3 || i >= |lines| then scan
    else Scanned(lines, i + 1, Step(scan, Trim(lines[i])))
  }

  /** The three values buildDirSettings leaves, all empty when the cache file cannot be opened. */
  function CacheValues(readable: bool, lines: seq<string>): (r: seq<string>)
    ensures |r| == 3
    ensures !readable ==> r == ["", "", ""]
  {
    if readable then Scanned(lines, 0, Start).values else ["", "", ""]
  }

  /** No line matches two keys: the keys differ at their seventh character. */
  lemma AtMostOneKey(line: string)
    ensures Matches(line, SrcLine) + Matches(line, InstallLine) + Matches(line, BuildLine) <= 1
  {
    if StartsWith(line, SrcLine) {
      assert line[6] == SrcLine[6] == 'H';
      assert InstallLine[6] == 'I' && BuildLine[6] == 'B';
      assert !StartsWith(line, InstallLine) by { assert line[6] != InstallLine[6]; }
      assert !StartsWith(line, BuildLine) by { assert line[6] != BuildLine[6]; }
    } else if StartsWith(line, InstallLine) {
      assert line[6] == InstallLine[6] == 'I';
      assert !StartsWith(line, BuildLine) by { assert line[6] != BuildLine[6]; }
    }
  }

  /** So the counter never jumps past three, and the scan ends with at most three matches. */
  lemma {:induction false} CountAtMostThree(lines: seq<string>, i: nat, scan: Scan)
    requires |scan.values| == 3 && scan.count <= 3
    ensures Scanned(lines, i, scan).count <= 3
    decreases |lines| - i
  {
    if scan.count != 3 && i < |lines| {
      AtMostOneKey(Trim(lines[i]));
      CountAtMostThree(lines, i + 1, Step(scan, Trim(lines[i])));
    }
  }

  /**
   * Each value is the trimmed text after the key on some line, or the one
   * the scan started with when no line gave it.
   */
  lemma {:induction false} ValueFromLine(lines: seq<string>, i: nat, scan: Scan, k: nat)
    requires |scan.values| == 3 && k < 3
    ensures var v := Scanned(lines, i, scan).values[k];
      v == scan.values[k] ||
      exists j :: i <= j < |lines| && StartsWith(Trim(lines[j]), Keys[k]) && v == Trim(lines[j])[|Keys[k]|..]
    decreases |lines| - i
  {
    if scan.count != 3 && i < |lines| {
      var line := Trim(lines[i]);
      var next := Step(scan, line);
      ValueFromLine(lines, i + 1, next, k);
      assert next.values[k] == Take(line, Keys[k], scan.values[k]);
    }
  }

  /**
   * Conversely, a key line read before the third match gives the value,
   * and the last such line wins.
   */
  lemma {:induction false} LastReadLineWins(lines: seq<string>, i: nat, scan: Scan, k: nat, j: nat)
    requires |scan.values| == 3 && k < 3 && i <= j < |lines|
    requires StartsWith(Trim(lines[j]), Keys[k])
    requires Scanned(lines[..j], i, scan).count != 3
    requires forall j' :: j < j' < |lines| ==> !StartsWith(Trim(lines[j']), Keys[k])
    ensures Scanned(lines, i, scan).values[k] == Trim(lines[j])[|Keys[k]|..]
    decreases j - i
  {
    var line := Trim(lines[i]);
    var next := Step(scan, line);
    if i == j {
      assert Scanned(lines[..j], i, scan) == scan;
      assert next.values[k] == Take(line, Keys[k], scan.values[k]);
      ValueFromLine(lines, j + 1, next, k);
    } else {
      assert (lines[..j])[i] == lines[i];
      LastReadLineWins(lines, i + 1, next, k, j);
    }
  }

  /** So the cache value is the tail of the last key line the scan reads. */
  lemma CacheValueFromLastLine(lines: seq<string>, k: nat, j: nat)
    requires k < 3 && j < |lines|
    requires StartsWith(Trim(lines[j]), Keys[k])
    requires Scanned(lines[..j], 0, Start).count != 3
    requires forall j' :: j < j' < |lines| ==> !StartsWith(Trim(lines[j']), Keys[k])
    ensures CacheValues(true, lines)[k] == Trim(lines[j])[|Keys[k]|..]
  {
    LastReadLineWins(lines, 0, Start, k, j);
  }

  /** A key no line carries stays empty. */
  lemma KeyAbsentStaysEmpty(lines: seq<string>, k: nat)
    requires k < 3
    requires forall j :: 0 <= j < |lines| ==> !StartsWith(Trim(lines[j]), Keys[k])
    ensures CacheValues(true, lines)[k] == ""
  {
    ValueFromLine(lines, 0, Start, k);
  }

  /** Lines after the third matching one are never read. */
  lemma {:induction false} StopsAtThree(lines: seq<string>, rest: seq<string>, i: nat, scan: Scan)
    requires |scan.values| == 3 && i <= |lines|
    requires Scanned(lines, i, scan).count == 3
    ensures Scanned(lines + rest, i, scan) == Scanned(lines, i, scan)
    decreases |lines| - i
  {
    if scan.count != 3 {
      assert i < |lines|;
      assert (lines + rest)[i] == lines[i];
      StopsAtThree(lines, rest, i + 1, Step(scan, Trim(lines[i])));
    }
  }

  /**
   * The counter counts matching lines, not keys: three lines with the
   * source key end the scan with only the source directory read.
   */
  lemma CountsLinesNotKeys(lines: seq<string>)
    requires |lines| >= 3
    requires StartsWith(Trim(lines[0]), SrcLine) && StartsWith(Trim(lines[1]), SrcLine) &&
             StartsWith(Trim(lines[2]), SrcLine)
    ensures CacheValues(true, lines) == [Trim(lines[2])[|SrcLine|..], "", ""]
  {
    var s0 := Start;
    var s1 := Step(s0, Trim(lines[0]));
    var s2 := Step(s1, Trim(lines[1]));
    var s3 := Step(s2, Trim(lines[2]));
    forall j | 0 <= j < 3
      ensures Matches(Trim(lines[j]), SrcLine) == 1
      ensures Matches(Trim(lines[j]), InstallLine) + Matches(Trim(lines[j]), BuildLine) == 0
    {
      AtMostOneKey(Trim(lines[j]));
    }
    assert s1.count == 1 && s2.count == 2 && s3.count == 3;
    assert Scanned(lines, 3, s3) == s3;
    assert Scanned(lines, 0, s0) == Scanned(lines, 1, s1) == Scanned(lines, 2, s2) == Scanned(lines, 3, s3);
  }

  /** buildDirSettings: `readable` says whether CMakeCache.txt could be opened. */
  method BuildDirSettings(readable: bool, lines: seq<string>) returns (srcDir: string, installDir: string, buildType: string)
    ensures [srcDir, installDir, buildType] == CacheValues(readable, lines)
  {
    srcDir := "";
    installDir := "";
    buildType := "";
    if !readable {
      return;
    }
    var cnt := 0;
    var i := 0;
    while cnt != 3 && i < |lines|
      invariant Scanned(lines, i, Scan([srcDir, installDir, buildType], cnt)) == Scanned(lines, 0, Start)
      decreases |lines| - i
    {
      srcDir, installDir, buildType, cnt := ReadCacheLine(Trim(lines[i]), srcDir, installDir, buildType, cnt);
      i := i + 1;
    }
  }

  /** The body of buildDirSettings' loop, for one trimmed line. */
  method ReadCacheLine(line: string, srcDir: string, installDir: string, buildType: string, cnt: nat)
    returns (srcDir': string, installDir': string, buildType': string, cnt': nat)
    ensures Scan([srcDir', installDir', buildType'], cnt') == Step(Scan([srcDir, installDir, buildType], cnt), line)
  {
    srcDir', installDir', buildType', cnt' := srcDir, installDir, buildType, cnt;
    if StartsWith(line, SrcLine) {
      srcDir' := line[|SrcLine|..];
      cnt' := cnt' + 1;
    }
    if StartsWith(line, InstallLine) {
      installDir' := line[|InstallLine|..];
      cnt' := cnt' + 1;
    }
    if StartsWith(line, BuildLine) {
      buildType' := line[|BuildLine|..];
      cnt' := cnt' + 1;
    }
  }

  // ---------------------------------------------------------------------
  // updated

  datatype StatusType = BuildDirCreated | CorrectProject | BuildFolderEmpty | HaveCMake | CorrectBuildDir | DirAlreadyCreated

  datatype Message =
    | NeedCMake            // "You need to select a CMake executable."
    | NeedBuildDirectory   // "You need to specify a build directory."
    | UsingExisting        // "Using an already created build directory."
    | CreatingNew          // "Creating a new build directory."
    | AlreadyConfigured    // "Build directory already configured."
    | OtherSource(srcDir: string, project: string)  // "This build directory is for %1, but the project directory is %2."
    | RelativeDirectory    // "You may not select a relative build directory."
    | NotEmpty             // "The selected build directory is not empty."

  /** A status line and whether OK can be pressed. */
  datatype Status = Status(message: Message, canApply: bool)

  /** What QDir reports about the chosen folder: its entries include `.` and `..`. */
  datatype Folder = Folder(existing: bool, entryCount: nat, relative: bool, hasCache: bool)

  predicate DirEmpty(folder: Folder) {
    folder.existing && folder.entryCount <= 2
  }

  /** The cache is read only in an existing, non-empty, absolute folder that has one. */
  predicate ReadsCache(folder: Folder) {
    !DirEmpty(folder) && folder.existing && !folder.relative && folder.hasCache
  }

  /** The cache names the project's own source directory. */
  predicate SameSource(folder: Folder, cache: seq<string>, canonicalPath: string -> string, project: string)
    requires |cache| == 3
  {
    ReadsCache(folder) && cache[0] != "" && canonicalPath(cache[0]) == canonicalPath(project)
  }

  /**
   * The outcome of updated(): the status flags, the status line (None only
   * where no branch sets one), the enabled state of the install prefix and
   * build type widgets, and the values put into them.
   */
  datatype Outcome = Outcome(
    flags: set<StatusType>,
    status: Option<Status>,
    installPrefixEnabled: bool,
    buildTypeEnabled: bool,
    installPrefix: Option<string>,
    buildType: Option<string>)

  /**
   * The decision of updated(). `folderPath` is the chosen build folder
   * ("" when none), `cache` the three values buildDirSettings read (only
   * used when the cache is read), `alreadyUsed` whether the folder is one
   * of the project's build directories already.
   */
  function Decide(haveCMake: bool, folderPath: string, folder: Folder, cache: seq<string>, alreadyUsed: bool,
                  canonicalPath: string -> string, installExists: string -> bool, project: string): (r: Outcome)
    requires |cache| == 3
    ensures r.status.Some?
    ensures !haveCMake ==> r.status == Some(Status(NeedCMake, false)) && !r.installPrefixEnabled
    ensures haveCMake && folderPath == "" ==> r.status == Some(Status(NeedBuildDirectory, false))
    ensures haveCMake && folderPath != "" ==> r == DecideFolder(folder, cache, alreadyUsed, canonicalPath, installExists, project)
  {
    if !haveCMake then Outcome({}, Some(Status(NeedCMake, false)), false, false, None, None)
    else if folderPath == "" then
      Outcome({HaveCMake, BuildFolderEmpty}, Some(Status(NeedBuildDirectory, false)), true, true, None, None)
    else DecideFolder(folder, cache, alreadyUsed, canonicalPath, installExists, project)
  }

  /** The decision for a CMake executable that exists and a chosen folder. */
  function DecideFolder(folder: Folder, cache: seq<string>, alreadyUsed: bool,
                        canonicalPath: string -> string, installExists: string -> bool, project: string): (r: Outcome)
    requires |cache| == 3
    ensures r.status.Some?
    ensures alreadyUsed ==> r.flags == {DirAlreadyCreated} && r.status == Some(Status(AlreadyConfigured, false))
    ensures !alreadyUsed && SameSource(folder, cache, canonicalPath, project) ==>
      r.status == Some(Status(UsingExisting, true)) && !r.installPrefixEnabled && !r.buildTypeEnabled
    ensures !SameSource(folder, cache, canonicalPath, project) ==>
      (r.status.value.canApply <==> (DirEmpty(folder) || !folder.existing) && !alreadyUsed && !folder.relative) &&
      r.installPrefixEnabled == r.status.value.canApply && r.buildTypeEnabled == r.status.value.canApply
    ensures r.installPrefix.Some? <==> ReadsCache(folder) && cache[1] != "" && installExists(cache[1])
    ensures r.installPrefix.Some? ==> r.installPrefix.value == cache[1]
    ensures r.buildType == if ReadsCache(folder) then Some(cache[2]) else None
  {
    var dirExists := folder.existing;
    var dirEmpty := DirEmpty(folder);
    var dirRelative := folder.relative;
    var read := ReadsCache(folder);
    var srcDir := if read then cache[0] else "";
    var installDir := if read then cache[1] else "";
    var st1: set<StatusType> := if read && srcDir != "" && canonicalPath(srcDir) == canonicalPath(project)
               then {HaveCMake, CorrectBuildDir, BuildDirCreated} else {HaveCMake};
    var prefix := if read && installDir != "" && installExists(installDir) then Some(installDir) else None;
    var buildType := if read then Some(cache[2]) else None;
    var st := if alreadyUsed then {DirAlreadyCreated} else st1;
    if BuildDirCreated in st || CorrectBuildDir in st then
      Outcome(st, Some(Status(UsingExisting, true)), false, false, prefix, buildType)
    else
      var correct := (dirEmpty || !dirExists) && DirAlreadyCreated !in st && !dirRelative;
      var status :=
        if correct then Some(Status(CreatingNew, true))
        else if DirAlreadyCreated in st then Some(Status(AlreadyConfigured, false))
        else if srcDir != "" then Some(Status(OtherSource(srcDir, project), false))
        else if dirRelative then Some(Status(RelativeDirectory, false))
        else if !dirEmpty then Some(Status(NotEmpty, false))
        else None;
      Outcome(if correct then st + {CorrectBuildDir} else st, status, correct, correct, prefix, buildType)
  }

  /**
   * The explanation when a folder cannot be used, by priority: already
   * configured, then a cache for another source directory, then a relative
   * path, then a non-empty folder.
   */
  lemma ErrorPriority(folder: Folder, cache: seq<string>, alreadyUsed: bool,
                      canonicalPath: string -> string, installExists: string -> bool, project: string)
    requires |cache| == 3
    requires !SameSource(folder, cache, canonicalPath, project)
    ensures var r := DecideFolder(folder, cache, alreadyUsed, canonicalPath, installExists, project);
      !r.status.value.canApply ==>
        r.status.value.message ==
          if alreadyUsed then AlreadyConfigured
          else if ReadsCache(folder) && cache[0] != "" then OtherSource(cache[0], project)
          else if folder.relative then RelativeDirectory
          else NotEmpty
  {
  }

  class Chooser {
    /** The project's build directories already in use. */
    var alreadyUsed: seq<string>
    /** The project's source folder. */
    var srcFolder: string
    var status: Option<Status>
    var buildFolderEnabled: bool
    var installPrefixEnabled: bool
    var buildTypeEnabled: bool
    var installPrefix: string
    var buildType: string

    constructor(alreadyUsed: seq<string>, srcFolder: string)
      ensures this.alreadyUsed == alreadyUsed && this.srcFolder == srcFolder
      ensures status.None? && installPrefix == "" && buildType == ""
    {
      this.alreadyUsed := alreadyUsed;
      this.srcFolder := srcFolder;
      status := None;
      buildFolderEnabled := false;
      installPrefixEnabled := false;
      buildTypeEnabled := false;
      installPrefix := "";
      buildType := "";
    }

    /**
     * updated(): `haveCMake` says whether the CMake executable exists;
     * the cache lines are read only when the folder calls for it.
     */
    method Updated(haveCMake: bool, folderPath: string, folder: Folder, cacheOpened: bool, cacheLines: seq<string>,
                   canonicalPath: string -> string, installExists: string -> bool)
      modifies this
      ensures var r := Decide(haveCMake, folderPath, folder, CacheValues(cacheOpened, cacheLines),
                              folderPath in old(alreadyUsed), canonicalPath, installExists, old(srcFolder));
        status == r.status &&
        buildFolderEnabled == haveCMake &&
        installPrefixEnabled == r.installPrefixEnabled && buildTypeEnabled == r.buildTypeEnabled &&
        installPrefix == r.installPrefix.GetOr(old(installPrefix)) &&
        buildType == r.buildType.GetOr(old(buildType))
      ensures alreadyUsed == old(alreadyUsed) && srcFolder == old(srcFolder)
    {
      var st: set<StatusType> := {};
      if haveCMake {
        st := st + {HaveCMake};
      }
      buildFolderEnabled := haveCMake;
      installPrefixEnabled := haveCMake;
      buildTypeEnabled := haveCMake;
      if !haveCMake {
        status := Some(Status(NeedCMake, false));
        return;
      }
      if folderPath == "" {
        status := Some(Status(NeedBuildDirectory, false));
        return;
      }
      CheckFolder(folderPath, folder, cacheOpened, cacheLines, canonicalPath, installExists);
    }

    /**
     * The cache-reading part of updated(): fills the install prefix and
     * build type widgets and says whether the cache is for this project.
     */
    method ReadCache(cacheOpened: bool, cacheLines: seq<string>, canonicalPath: string -> string,
                     installExists: string -> bool)
      returns (srcDir: string, sameSource: bool)
      modifies this`installPrefix, this`buildType
      ensures var cache := CacheValues(cacheOpened, cacheLines);
        srcDir == cache[0] &&
        (sameSource <==> cache[0] != "" && canonicalPath(cache[0]) == canonicalPath(srcFolder)) &&
        installPrefix == (if cache[1] != "" && installExists(cache[1]) then cache[1] else old(installPrefix)) &&
        buildType == cache[2]
    {
      var installDir, cacheBuildType;
      srcDir, installDir, cacheBuildType := BuildDirSettings(cacheOpened, cacheLines);
      sameSource := false;
      if srcDir != "" && canonicalPath(srcDir) == canonicalPath(srcFolder) {
        sameSource := true;
      }
      if installDir != "" && installExists(installDir) {
        installPrefix := installDir;
      }
      buildType := cacheBuildType;
    }

    /** The part of updated() after the early returns. */
    method CheckFolder(folderPath: string, folder: Folder, cacheOpened: bool, cacheLines: seq<string>,
                       canonicalPath: string -> string, installExists: string -> bool)
      modifies this`status, this`installPrefixEnabled, this`buildTypeEnabled, this`installPrefix, this`buildType
      ensures var r := DecideFolder(folder, CacheValues(cacheOpened, cacheLines), folderPath in alreadyUsed,
                                    canonicalPath, installExists, srcFolder);
        status == r.status &&
        installPrefixEnabled == r.installPrefixEnabled && buildTypeEnabled == r.buildTypeEnabled &&
        installPrefix == r.installPrefix.GetOr(old(installPrefix)) &&
        buildType == r.buildType.GetOr(old(buildType))
    {
      var st: set<StatusType> := {HaveCMake};
      var dirExists := folder.existing;
      var dirEmpty := dirExists && folder.entryCount <= 2;
      var dirRelative := folder.relative;
      var srcDir := "";
      if !dirEmpty && dirExists && !dirRelative && folder.hasCache {
        var sameSource;
        srcDir, sameSource := ReadCache(cacheOpened, cacheLines, canonicalPath, installExists);
        if sameSource {
          st := st + {CorrectBuildDir, BuildDirCreated};
        }
      }
      if folderPath in alreadyUsed {
        st := {DirAlreadyCreated};
      }
      if BuildDirCreated in st || CorrectBuildDir in st {
        status := Some(Status(UsingExisting, true));
        installPrefixEnabled := false;
        buildTypeEnabled := false;
      } else {
        var correct := (dirEmpty || !dirExists) && DirAlreadyCreated !in st && !dirRelative;
        if correct {
          st := st + {CorrectBuildDir};
          status := Some(Status(CreatingNew, true));
        } else if DirAlreadyCreated in st {
          status := Some(Status(AlreadyConfigured, false));
        } else if srcDir != "" {
          status := Some(Status(OtherSource(srcDir, srcFolder), false));
        } else if dirRelative {
          status := Some(Status(RelativeDirectory, false));
        } else if !dirEmpty {
          status := Some(Status(NotEmpty, false));
        }
        installPrefixEnabled := correct;
        buildTypeEnabled := correct;
      }
    }
  }
}
