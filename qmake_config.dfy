/**
 * QMake configuration helpers (projectmanagers/qmake/qmakeconfig.cpp):
 * parsing `qmake -query` output, finding the basic mkspec, the build
 * directory of a source directory and the qmake executable to use.
 *
 * The process, the project configuration, QFileInfo and
 * QStandardPaths::findExecutable are parameters. The list separator is the
 * one of non-Windows systems, `:`.
 */
module QMakeConfig {
  import opened Text

  const ListSeparator: char := ':'

  /** QHash::value on a const hash: the value, or the empty string. */
  function Get(vars: map<string, string>, key: string): string {
    if key in vars then vars[key] else ""
  }

  // ---------------------------------------------------------------------
  // queryQMake

  /** The hash after the first `n` output lines: a line is split at its first colon, a line without one is skipped. */
  function Queried(lines: seq<string>, n: nat): map<string, string>
    requires n <= |lines|
  {
    if n == 0 then map[]
    else
      var hash := Queried(lines, n - 1);
      var line := lines[n - 1];
      match IndexOf(line, ':')
      case None => hash
      case Some(colon) => hash[line[..colon] := line[colon + 1..]]
  }

  /** The line at `i` gives a key and a value: the text before its first colon and the text after it. */
  predicate Gives(lines: seq<string>, i: nat, key: string, value: string)
    requires i < |lines|
  {
    exists colon :: 0 <= colon < |lines[i]| && lines[i][colon] == ':' && ':' !in lines[i][..colon] &&
      key == lines[i][..colon] && value == lines[i][colon + 1..]
  }

  /**
   * A key is in the hash exactly when some line gives it, and its value is
   * the one the last such line gives (QHash::insert replaces).
   */
  lemma {:induction false} QueriedKeys(lines: seq<string>, n: nat)
    requires n <= |lines|
    ensures forall key :: key in Queried(lines, n) ==> ':' !in key
    ensures forall key :: key in Queried(lines, n) <==> exists i, v :: 0 <= i < n && Gives(lines, i, key, v)
  {
    if n > 0 {
      QueriedKeys(lines, n - 1);
      var line := lines[n - 1];
      match IndexOf(line, ':')
      case None =>
        forall key, v {:trigger Gives(lines, n - 1, key, v)}
          ensures !Gives(lines, n - 1, key, v)
        {
          assert ':' !in line;
        }
      case Some(colon) =>
        forall key | key in Queried(lines, n)
          ensures exists i, v :: 0 <= i < n && Gives(lines, i, key, v)
        {
          if key == line[..colon] {
            assert Gives(lines, n - 1, key, line[colon + 1..]);
          }
        }
        forall key, v {:trigger Gives(lines, n - 1, key, v)} | Gives(lines, n - 1, key, v)
          ensures key == line[..colon]
        {
          var c :| 0 <= c < |line| && line[c] == ':' && ':' !in line[..c] && key == line[..c] && v == line[c + 1..];
          SameFirstColon(line, c, colon);
        }
    }
  }

  /** Two first colons are the same colon. */
  lemma SameFirstColon(line: string, a: nat, b: nat)
    requires a < |line| && line[a] == ':' && ':' !in line[..a]
    requires b < |line| && line[b] == ':' && ':' !in line[..b]
    ensures a == b
  {
    assert forall i :: 0 <= i < b ==> line[..b][i] == line[i];
    assert forall i :: 0 <= i < a ==> line[..a][i] == line[i];
  }

  /** The value of a key is the one its last line gives. */
  lemma {:induction false} QueriedLastWins(lines: seq<string>, n: nat, i: nat, key: string, value: string)
    requires i < n <= |lines|
    requires Gives(lines, i, key, value)
    requires forall j, v :: i < j < n ==> !Gives(lines, j, key, v)
    ensures key in Queried(lines, n) && Queried(lines, n)[key] == value
  {
    var line := lines[n - 1];
    if i == n - 1 {
      var c :| 0 <= c < |line| && line[c] == ':' && ':' !in line[..c] && key == line[..c] && value == line[c + 1..];
      var k := IndexOf(line, ':');
      SameFirstColon(line, c, k.value);
    } else {
      QueriedLastWins(lines, n - 1, i, key, value);
      match IndexOf(line, ':')
      case None =>
      case Some(colon) =>
        assert Gives(lines, n - 1, line[..colon], line[colon + 1..]);
    }
  }

  /** queryQMake: the exit code and the output lines of `qmake -query`. */
  method QueryQMake(rc: int, lines: seq<string>) returns (hash: map<string, string>)
    ensures rc != 0 ==> hash == map[]
    ensures rc == 0 ==> hash == Queried(lines, |lines|)
  {
    if rc != 0 {
      return map[];
    }
    hash := map[];
    var i := 0;
    while i < |lines|
      invariant 0 <= i <= |lines|
      invariant hash == Queried(lines, i)
    {
      var line := lines[i];
      var colon := IndexOf(line, ':');
      if colon.Some? {
        hash := hash[line[..colon.value] := line[colon.value + 1..]];
      }
      i := i + 1;
    }
  }

  // ---------------------------------------------------------------------
  // findBasicMkSpec

  /** Each list-separated QMAKE_MKSPECS directory with `/default/qmake.conf`. */
  function DefaultConfs(dirs: seq<string>): (r: seq<string>)
    ensures |r| == |dirs|
    ensures forall i :: 0 <= i < |dirs| ==> r[i] == dirs[i] + "/default/qmake.conf"
  {
    if dirs == [] then [] else [dirs[0] + "/default/qmake.conf"] + DefaultConfs(dirs[1..])
  }

  /** The base of the mkspecs directory: QT_HOST_DATA/src, else QT_HOST_DATA, else QT_INSTALL_PREFIX. */
  function MkspecBase(vars: map<string, string>): (r: string)
    ensures "QT_HOST_DATA/src" in vars ==> r == vars["QT_HOST_DATA/src"]
    ensures "QT_HOST_DATA/src" !in vars && "QT_HOST_DATA" in vars ==> r == vars["QT_HOST_DATA"]
    ensures "QT_HOST_DATA/src" !in vars && "QT_HOST_DATA" !in vars ==> r == Get(vars, "QT_INSTALL_PREFIX")
  {
    if "QT_HOST_DATA/src" in vars then vars["QT_HOST_DATA/src"]
    else if "QT_HOST_DATA" in vars then vars["QT_HOST_DATA"]
    else Get(vars, "QT_INSTALL_PREFIX")
  }

  /** The candidate qmake.conf files, in order. */
  function MkspecCandidates(vars: map<string, string>): (r: seq<string>)
    ensures "QMAKE_MKSPECS" in vars ==> r == DefaultConfs(Split(vars["QMAKE_MKSPECS"], ListSeparator))
    ensures "QMAKE_MKSPECS" !in vars && "QMAKE_SPEC" in vars ==>
      r == [MkspecBase(vars) + "/mkspecs/" + vars["QMAKE_SPEC"] + "/qmake.conf"]
    ensures "QMAKE_MKSPECS" !in vars && "QMAKE_SPEC" !in vars ==> r == []
  {
    if "QMAKE_MKSPECS" in vars then DefaultConfs(Split(vars["QMAKE_MKSPECS"], ListSeparator))
    else if "QMAKE_SPEC" in vars then [MkspecBase(vars) + "/mkspecs/" + vars["QMAKE_SPEC"] + "/qmake.conf"]
    else []
  }

  /** The first candidate that exists. */
  function FirstExisting(paths: seq<string>, fileExists: string -> bool): (r: Option<nat>)
    ensures r.Some? ==> r.value < |paths| && fileExists(paths[r.value]) &&
                        forall j :: 0 <= j < r.value ==> !fileExists(paths[j])
    ensures r.None? ==> forall j :: 0 <= j < |paths| ==> !fileExists(paths[j])
  {
    if paths == [] then None
    else if fileExists(paths[0]) then Some(0)
    else
      match FirstExisting(paths[1..], fileExists)
      case None => None
      case Some(i) => Some(i + 1)
  }

  /** findBasicMkSpec: the absolute path of the first existing candidate, or the empty string. */
  method FindBasicMkSpec(vars: map<string, string>, fileExists: string -> bool, absolutePath: string -> string)
    returns (r: string)
    ensures var found := FirstExisting(MkspecCandidates(vars), fileExists);
      r == if found.Some? then absolutePath(MkspecCandidates(vars)[found.value]) else ""
  {
    var paths: seq<string> := [];
    if "QMAKE_MKSPECS" in vars {
      var dirs := Split(vars["QMAKE_MKSPECS"], ListSeparator);
      var i := 0;
      while i < |dirs|
        invariant 0 <= i <= |dirs|
        invariant paths == DefaultConfs(dirs[..i])
      {
        assert dirs[..i + 1] == dirs[..i] + [dirs[i]];
        DefaultConfsAppend(dirs[..i], dirs[i]);
        paths := paths + [dirs[i] + "/default/qmake.conf"];
        i := i + 1;
      }
      assert dirs[..|dirs|] == dirs;
    } else if "QMAKE_SPEC" in vars {
      var path: string;
      if "QT_HOST_DATA/src" in vars {
        path := vars["QT_HOST_DATA/src"];
      } else if "QT_HOST_DATA" in vars {
        path := vars["QT_HOST_DATA"];
      } else {
        path := Get(vars, "QT_INSTALL_PREFIX");
      }
      path := path + "/mkspecs/" + vars["QMAKE_SPEC"] + "/qmake.conf";
      paths := paths + [path];
    }
    assert paths == MkspecCandidates(vars);
    r := FirstExistingPath(paths, fileExists, absolutePath);
  }

  /** The search loop of findBasicMkSpec. */
  method FirstExistingPath(paths: seq<string>, fileExists: string -> bool, absolutePath: string -> string)
    returns (r: string)
    ensures var found := FirstExisting(paths, fileExists);
      r == if found.Some? then absolutePath(paths[found.value]) else ""
  {
    var i := 0;
    while i < |paths|
      invariant 0 <= i <= |paths|
      invariant forall j :: 0 <= j < i ==> !fileExists(paths[j])
    {
      if fileExists(paths[i]) {
        return absolutePath(paths[i]);
      }
      i := i + 1;
    }
    return "";
  }

  lemma DefaultConfsAppend(dirs: seq<string>, dir: string)
    ensures DefaultConfs(dirs + [dir]) == DefaultConfs(dirs) + [dir + "/default/qmake.conf"]
  {
  }

  // ---------------------------------------------------------------------
  // buildDirFromSrc and qmakeExecutable

  /**
   * buildDirFromSrc: the configured build folder, extended by the source
   * directory relative to the project only when the folder is a valid path.
   */
  function BuildDirFromSrc(buildFolder: string, relativeSource: string, isValid: string -> bool,
                           addPath: (string, string) -> string): (r: string)
    ensures !isValid(buildFolder) ==> r == buildFolder
    ensures isValid(buildFolder) ==> r == addPath(buildFolder, relativeSource)
  {
    if isValid(buildFolder) then addPath(buildFolder, relativeSource) else buildFolder
  }

  /**
   * qmakeExecutable: `configured` is the project's QMake_Binary entry, when
   * there is a project with that key; `usable` is QFileInfo's exists and
   * isExecutable; `findExecutable` gives the empty string when not found.
   * The result is a usable configured executable, else the first of `qmake`,
   * `qmake-qt5` and `qmake-qt4` that is found.
   */
  function QMakeExecutable(configured: Option<string>, usable: string -> bool, findExecutable: string -> string): (r: string)
    ensures var configuredUsable := configured.Some? && configured.value != "" && usable(configured.value);
      (configuredUsable ==> r == configured.value) &&
      (!configuredUsable && findExecutable("qmake") != "" ==> r == findExecutable("qmake")) &&
      (!configuredUsable && findExecutable("qmake") == "" && findExecutable("qmake-qt5") != "" ==>
        r == findExecutable("qmake-qt5")) &&
      (!configuredUsable && findExecutable("qmake") == "" && findExecutable("qmake-qt5") == "" ==>
        r == findExecutable("qmake-qt4"))
  {
    var exe := if configured.Some? && usable(configured.value) then configured.value else "";
    var exe1 := if exe == "" then findExecutable("qmake") else exe;
    var exe2 := if exe1 == "" then findExecutable("qmake-qt5") else exe1;
    if exe2 == "" then findExecutable("qmake-qt4") else exe2
  }
}
