/**
 * What a parsed QMake project file yields from its variables
 * (projectmanagers/qmake/qmakeprojectfile.cpp): the defaults `read` puts in
 * place, DEFINES split into pairs, the template, the targets, the framework
 * directories found in the compiler and linker flags, and the include
 * directories with the Qt module directories.
 *
 * The variables are a map from name to values (m_variableValues); the
 * parser that fills it (QMakeFile) is not part of this model.
 * resolveToSingleFileName, QDir::entryInfoList and the qmake query result
 * are parameters.
 */
module QMakeProjectFile {
  import opened Text

  type Variables = map<string, seq<string>>

  /** variableValues: the values of a variable, none when it is not set. */
  function Values(vars: Variables, name: string): seq<string> {
    if name in vars then vars[name] else []
  }

  // ---------------------------------------------------------------------
  // read: the defaults

  /** The values of each variable in `names` that is not set yet are filled in from `values`. */
  function Filled(vars: Variables, names: seq<string>, values: string -> seq<string>, n: nat): Variables
    requires n <= |names|
  {
    if n == 0 then vars
    else
      var m := Filled(vars, names, values, n - 1);
      if names[n - 1] in m then m else m[names[n - 1] := values(names[n - 1])]
  }

  /** Filling never overwrites: a variable that was set keeps its values, one that was not gets the supplied ones. */
  lemma {:induction false} FilledOnlyAbsent(vars: Variables, names: seq<string>, values: string -> seq<string>, n: nat)
    requires n <= |names|
    ensures forall k :: k in Filled(vars, names, values, n) <==> k in vars || k in names[..n]
    ensures forall k :: k in vars ==> Filled(vars, names, values, n)[k] == vars[k]
    ensures forall k :: k in names[..n] && k !in vars ==> Filled(vars, names, values, n)[k] == values(k)
  {
    if n > 0 {
      FilledOnlyAbsent(vars, names, values, n - 1);
      assert names[..n] == names[..n - 1] + [names[n - 1]];
    }
  }

  /** QT and CONFIG get their defaults when absent. */
  function Builtins(vars: Variables): Variables {
    var withQt := if "QT" in vars then vars else vars["QT" := ["core", "gui"]];
    if "CONFIG" in withQt then withQt else withQt["CONFIG" := ["qt"]]
  }

  /** The four path variables `read` always sets. */
  predicate IsPathVariable(k: string) {
    k == "PWD" || k == "_PRO_FILE_" || k == "_PRO_FILE_PWD_" || k == "OUT_PWD"
  }

  function WithPaths(vars: Variables, pwd: string, proFile: string, proFilePwd: string, outPwd: string): Variables {
    vars["PWD" := [pwd]]["_PRO_FILE_" := [proFile]]["_PRO_FILE_PWD_" := [proFilePwd]]["OUT_PWD" := [outPwd]]
  }

  /** The variables after `read`'s defaults: QT and CONFIG when absent, mkspecs and cache for absent keys, the four paths always. */
  function ReadDefaults(vars: Variables, mkspecNames: seq<string>, mkspecValues: string -> seq<string>,
                        cacheNames: seq<string>, cacheValues: string -> seq<string>,
                        pwd: string, proFile: string, proFilePwd: string, outPwd: string): Variables
  {
    var specs := Filled(Builtins(vars), mkspecNames, mkspecValues, |mkspecNames|);
    WithPaths(Filled(specs, cacheNames, cacheValues, |cacheNames|), pwd, proFile, proFilePwd, outPwd)
  }

  /** The defaults never replace a value that is there, except for the four path variables. */
  lemma ReadKeepsValues(vars: Variables, mkspecNames: seq<string>, mkspecValues: string -> seq<string>,
                        cacheNames: seq<string>, cacheValues: string -> seq<string>,
                        pwd: string, proFile: string, proFilePwd: string, outPwd: string)
    ensures var r := ReadDefaults(vars, mkspecNames, mkspecValues, cacheNames, cacheValues, pwd, proFile, proFilePwd, outPwd);
      forall k :: k in vars && !IsPathVariable(k) ==> k in r && r[k] == vars[k]
  {
    FilledOnlyAbsent(Builtins(vars), mkspecNames, mkspecValues, |mkspecNames|);
    var specs := Filled(Builtins(vars), mkspecNames, mkspecValues, |mkspecNames|);
    FilledOnlyAbsent(specs, cacheNames, cacheValues, |cacheNames|);
  }

  /** The four path variables always get the file's paths. */
  lemma ReadSetsPaths(vars: Variables, mkspecNames: seq<string>, mkspecValues: string -> seq<string>,
                      cacheNames: seq<string>, cacheValues: string -> seq<string>,
                      pwd: string, proFile: string, proFilePwd: string, outPwd: string)
    ensures var r := ReadDefaults(vars, mkspecNames, mkspecValues, cacheNames, cacheValues, pwd, proFile, proFilePwd, outPwd);
      "PWD" in r && r["PWD"] == [pwd] && "_PRO_FILE_" in r && r["_PRO_FILE_"] == [proFile] &&
      "_PRO_FILE_PWD_" in r && r["_PRO_FILE_PWD_"] == [proFilePwd] && "OUT_PWD" in r && r["OUT_PWD"] == [outPwd]
  {
  }

  /** QT and CONFIG get their defaults when absent. */
  lemma ReadSetsBuiltins(vars: Variables, mkspecNames: seq<string>, mkspecValues: string -> seq<string>,
                         cacheNames: seq<string>, cacheValues: string -> seq<string>,
                         pwd: string, proFile: string, proFilePwd: string, outPwd: string)
    ensures var r := ReadDefaults(vars, mkspecNames, mkspecValues, cacheNames, cacheValues, pwd, proFile, proFilePwd, outPwd);
      ("QT" !in vars ==> "QT" in r && r["QT"] == ["core", "gui"]) &&
      ("CONFIG" !in vars ==> "CONFIG" in r && r["CONFIG"] == ["qt"])
  {
    var b := Builtins(vars);
    assert "QT" in b && "CONFIG" in b;
    assert "QT" !in vars ==> b["QT"] == ["core", "gui"];
    assert "CONFIG" !in vars ==> b["CONFIG"] == ["qt"];
    FilledOnlyAbsent(b, mkspecNames, mkspecValues, |mkspecNames|);
    var specs := Filled(b, mkspecNames, mkspecValues, |mkspecNames|);
    FilledOnlyAbsent(specs, cacheNames, cacheValues, |cacheNames|);
  }

  /** A variable the project does not set takes the mkspec's values, unless it is QT, CONFIG or a path variable. */
  lemma ReadTakesMkspec(vars: Variables, mkspecNames: seq<string>, mkspecValues: string -> seq<string>,
                        cacheNames: seq<string>, cacheValues: string -> seq<string>,
                        pwd: string, proFile: string, proFilePwd: string, outPwd: string, k: string)
    requires k in mkspecNames && k !in vars
    requires k != "QT" && k != "CONFIG" && !IsPathVariable(k)
    ensures var r := ReadDefaults(vars, mkspecNames, mkspecValues, cacheNames, cacheValues, pwd, proFile, proFilePwd, outPwd);
      k in r && r[k] == mkspecValues(k)
  {
    FilledOnlyAbsent(Builtins(vars), mkspecNames, mkspecValues, |mkspecNames|);
    assert mkspecNames[..|mkspecNames|] == mkspecNames;
    var specs := Filled(Builtins(vars), mkspecNames, mkspecValues, |mkspecNames|);
    FilledOnlyAbsent(specs, cacheNames, cacheValues, |cacheNames|);
  }

  // ---------------------------------------------------------------------
  // defines

  /** One DEFINES entry split at its first `=`; without one, the value is empty. */
  function DefinePair(def: string): (string, string) {
    match IndexOf(def, '=')
    case Some(pos) => (def[..pos], def[pos + 1..])
    case None => (def, "")
  }

  /** The split is at the first `=`: the name holds none, and name, `=` and value give back the entry. */
  lemma DefinePairSplits(def: string)
    ensures '=' !in DefinePair(def).0
    ensures '=' in def ==> DefinePair(def).0 + "=" + DefinePair(def).1 == def
    ensures '=' !in def ==> DefinePair(def) == (def, "")
  {
    match IndexOf(def, '=')
    case Some(pos) =>
      assert def == def[..pos] + [def[pos]] + def[pos + 1..];
    case None =>
  }

  // ---------------------------------------------------------------------
  // targets

  /** getTemplate: the first TEMPLATE value, "app" without one. */
  function Template(vars: Variables): (r: string)
    ensures Values(vars, "TEMPLATE") == [] ==> r == "app"
    ensures Values(vars, "TEMPLATE") != [] ==> r == Values(vars, "TEMPLATE")[0]
  {
    if Values(vars, "TEMPLATE") == [] then "app" else Values(vars, "TEMPLATE")[0]
  }

  /** The INSTALLS entries that name a target: not empty and not `target`. */
  function InstallTargets(installs: seq<string>, n: nat): seq<string>
    requires n <= |installs|
  {
    if n == 0 then []
    else InstallTargets(installs, n - 1) + (if installs[n - 1] != "" && installs[n - 1] != "target" then [installs[n - 1]] else [])
  }

  lemma {:induction false} InstallTargetsMembers(installs: seq<string>, n: nat)
    requires n <= |installs|
    ensures forall t :: t in InstallTargets(installs, n) <==> t in installs[..n] && t != "" && t != "target"
  {
    if n > 0 {
      InstallTargetsMembers(installs, n - 1);
      assert installs[..n] == installs[..n - 1] + [installs[n - 1]];
    }
  }

  /** What `targets` collects before dropping empty entries. */
  function TargetsCollected(vars: Variables, baseName: string): seq<string> {
    var list := Values(vars, "TARGET");
    var withBase := if list == [] && Template(vars) != "subdirs" then list + [baseName] else list;
    withBase + InstallTargets(Values(vars, "INSTALLS"), |Values(vars, "INSTALLS")|)
  }

  /**
   * The targets: never an empty name; every non-empty TARGET value and every
   * INSTALLS entry other than `target`; the file's base name when TARGET is
   * empty and the template is not `subdirs`; and nothing else.
   */
  lemma TargetsMembers(vars: Variables, baseName: string)
    ensures var r := Without(TargetsCollected(vars, baseName), "");
      "" !in r &&
      (forall t :: t in Values(vars, "TARGET") && t != "" ==> t in r) &&
      (forall t :: t in Values(vars, "INSTALLS") && t != "" && t != "target" ==> t in r) &&
      (Values(vars, "TARGET") == [] && Template(vars) != "subdirs" && baseName != "" ==> baseName in r) &&
      (forall t :: t in r ==> (t in Values(vars, "TARGET") || t in Values(vars, "INSTALLS") ||
                               (t == baseName && Values(vars, "TARGET") == [] && Template(vars) != "subdirs")))
  {
    var installs := Values(vars, "INSTALLS");
    InstallTargetsMembers(installs, |installs|);
    assert installs[..|installs|] == installs;
  }

  // ---------------------------------------------------------------------
  // frameworkDirectories

  /** A detached `-F` or `-iframework`: its directory is the next argument. */
  predicate IsBareFrameworkOption(arg: string) {
    arg == "-F" || arg == "-iframework"
  }

  /** What the argument at `i` contributes, stated by position: a joined suffix, or itself right after a detached option. */
  function Contribution(args: seq<string>, i: nat): seq<string>
    requires i < |args|
  {
    var arg := args[i];
    if IsBareFrameworkOption(arg) then []
    else if StartsWith(arg, "-F") then [arg[2..]]
    else if StartsWith(arg, "-iframework") then [arg[11..]]
    else if i > 0 && IsBareFrameworkOption(args[i - 1]) then [arg]
    else []
  }

  /** The contributions of the first `n` arguments, in order. */
  function Contributions(args: seq<string>, n: nat): seq<string>
    requires n <= |args|
  {
    if n == 0 then [] else Contributions(args, n - 1) + Contribution(args, n - 1)
  }

  /** The loop over one variable's arguments: the directories so far and the storeArg flag. */
  function FrameworkScan(args: seq<string>, n: nat): (seq<string>, bool)
    requires n <= |args|
  {
    if n == 0 then ([], false)
    else
      var (dirs, storeArg) := FrameworkScan(args, n - 1);
      var arg := args[n - 1];
      if IsBareFrameworkOption(arg) then (dirs, true)
      else if StartsWith(arg, "-F") then (dirs + [arg[2..]], false)
      else if StartsWith(arg, "-iframework") then (dirs + [arg[11..]], false)
      else if storeArg then (dirs + [arg], false)
      else (dirs, false)
  }

  /** The storeArg flag arms exactly after a detached option, and the scan collects the positional contributions. */
  lemma {:induction false} FrameworkScanContributions(args: seq<string>, n: nat)
    requires n <= |args|
    ensures FrameworkScan(args, n).1 <==> n > 0 && IsBareFrameworkOption(args[n - 1])
    ensures FrameworkScan(args, n).0 == Contributions(args, n)
  {
    if n > 0 {
      FrameworkScanContributions(args, n - 1);
    }
  }

  /** The variables whose arguments are scanned, in order. */
  const FlagVariables: seq<string> := ["QMAKE_CFLAGS", "QMAKE_CXXFLAGS", "QMAKE_LFLAGS"]

  /** The directories found in the first `k` flag variables, each scanned with a fresh storeArg flag. */
  function FlagDirectories(vars: Variables, k: nat): seq<string>
    requires k <= |FlagVariables|
  {
    if k == 0 then []
    else FlagDirectories(vars, k - 1) + Contributions(Values(vars, FlagVariables[k - 1]), |Values(vars, FlagVariables[k - 1])|)
  }

  // ---------------------------------------------------------------------
  // includeDirectories

  /**
   * addPathsForVariable AS WRITTEN: the test for an existing entry looks at
   * the raw value, while the resolved path is what is appended.
   */
  function PathsAddedAsWritten(list: seq<string>, values: seq<string>, resolve: string -> string, n: nat): seq<string>
    requires n <= |values|
  {
    if n == 0 then list
    else
      var l := PathsAddedAsWritten(list, values, resolve, n - 1);
      var path := resolve(values[n - 1]);
      if path != "" && values[n - 1] !in l then l + [path] else l
  }

  /** A relative value given twice is appended twice once resolved: the as-written list holds a duplicate. */
  lemma AsWrittenDuplicates(resolve: string -> string)
    requires resolve("inc") == "/project/inc"
    ensures PathsAddedAsWritten([], ["inc", "inc"], resolve, 2) == ["/project/inc", "/project/inc"]
    ensures !NoDuplicates(PathsAddedAsWritten([], ["inc", "inc"], resolve, 2))
  {
    var values := ["inc", "inc"];
    assert PathsAddedAsWritten([], values, resolve, 0) == [];
    var one := PathsAddedAsWritten([], values, resolve, 1);
    assert one == ["/project/inc"];
    assert "inc" != "/project/inc";
    assert values[1] !in one;
    var two := PathsAddedAsWritten([], values, resolve, 2);
    assert two == one + ["/project/inc"];
    assert two[0] == two[1];
  }

  /** addPathsForVariable as intended: a resolved path is appended unless it is already there. */
  function PathsAdded(list: seq<string>, values: seq<string>, resolve: string -> string, n: nat): seq<string>
    requires n <= |values|
  {
    if n == 0 then list
    else
      var l := PathsAdded(list, values, resolve, n - 1);
      var path := resolve(values[n - 1]);
      if path != "" && path !in l then l + [path] else l
  }

  /**
   * The intended addition only appends, never duplicates, and adds exactly
   * the non-empty resolved paths.
   */
  lemma {:induction false} PathsAddedMembers(list: seq<string>, values: seq<string>, resolve: string -> string, n: nat)
    requires n <= |values|
    ensures NoDuplicates(list) ==> NoDuplicates(PathsAdded(list, values, resolve, n))
    ensures StartsWith(PathsAdded(list, values, resolve, n), list)
    ensures forall p :: p in PathsAdded(list, values, resolve, n) <==>
      p in list || exists i :: 0 <= i < n && resolve(values[i]) == p && p != ""
  {
    if n > 0 {
      PathsAddedMembers(list, values, resolve, n - 1);
      var l := PathsAdded(list, values, resolve, n - 1);
      var path := resolve(values[n - 1]);
      if path != "" && path !in l {
        assert (l + [path])[..|list|] == l[..|list|];
      }
    } else {
      assert list[..|list|] == list;
    }
  }

  /** A module name with its `-private` or `_private` suffix chopped, then the aliases mapped. */
  function ModulePattern(qtModule: string): (r: (string, bool))
    ensures r.1 <==> EndsWith(qtModule, "-private") || EndsWith(qtModule, "_private")
    ensures !r.1 ==> r.0 == Alias(qtModule)
    ensures r.1 ==> r.0 == Alias(qtModule[..|qtModule| - 8])
  {
    if EndsWith(qtModule, "-private") || EndsWith(qtModule, "_private") then (Alias(qtModule[..|qtModule| - 8]), true)
    else (Alias(qtModule), false)
  }

  /** qtestlib and testlib are QtTest; qaxcontainer and qaxserver are ActiveQt. */
  function Alias(pattern: string): string {
    if pattern == "qtestlib" || pattern == "testlib" then "QtTest"
    else if pattern == "qaxcontainer" || pattern == "qaxserver" then "ActiveQt"
    else pattern
  }

  lemma ModuleExamples()
    ensures ModulePattern("testlib") == ("QtTest", false)
    ensures ModulePattern("qaxserver-private") == ("ActiveQt", true)
    ensures ModulePattern("gui_private") == ("gui", true)
    ensures ModulePattern("core") == ("core", false)
  {
    assert "qaxserver-private"[..9] == "qaxserver";
    assert "gui_private"[..3] == "gui";
    assert !EndsWith("core", "-private") && !EndsWith("testlib", "-private") && !EndsWith("testlib", "_private");
  }

  /** The QT modules, with `core` added when there are some and it is not among them. */
  function Modules(qt: seq<string>): (r: seq<string>)
    ensures StartsWith(r, qt)
    ensures qt != [] ==> "core" in r
    ensures qt == [] ==> r == []
    ensures |r| <= |qt| + 1
  {
    if qt != [] && "core" !in qt then
      assert (qt + ["core"])[..|qt|] == qt;
      qt + ["core"]
    else
      assert qt[..|qt|] == qt;
      qt
  }

  /**
   * The include directory of a module: the first `Qt<pattern>` directory,
   * else the first `<pattern>` one; a private module adds the versioned
   * private directory. `findDir` is QDir::entryInfoList on the Qt include
   * directory, giving the canonical path and the file name of the first match.
   */
  function ModulePath(qtModule: string, qtVersion: string, findDir: string -> Option<(string, string)>): Option<string> {
    var (pattern, isPrivate) := ModulePattern(qtModule);
    var found := if findDir("Qt" + pattern).Some? then findDir("Qt" + pattern) else findDir(pattern);
    match found
    case None => None
    case Some((path, fileName)) =>
      Some(if isPrivate then path + "/" + qtVersion + "/" + fileName + "/private/" else path)
  }

  /** The paths of the variables `names[..k]` added in turn, as intended. */
  function PathsAddedFor(vars: Variables, names: seq<string>, list: seq<string>, resolve: string -> string, k: nat): seq<string>
    requires k <= |names|
  {
    if k == 0 then list
    else
      var values := Values(vars, names[k - 1]);
      PathsAdded(PathsAddedFor(vars, names, list, resolve, k - 1), values, resolve, |values|)
  }

  /** `p` is the non-empty resolved form of a value of one of `names[..k]`. */
  predicate ResolvedFrom(vars: Variables, names: seq<string>, resolve: string -> string, k: nat, p: string)
    requires k <= |names|
  {
    p != "" && exists j, v :: 0 <= j < k && v in Values(vars, names[j]) && resolve(v) == p
  }

  /**
   * Adding the paths of several variables only appends, never duplicates,
   * and adds exactly their non-empty resolved values.
   */
  lemma PathsAddedForMembers(vars: Variables, names: seq<string>, list: seq<string>, resolve: string -> string, k: nat)
    requires k <= |names|
    ensures StartsWith(PathsAddedFor(vars, names, list, resolve, k), list)
    ensures NoDuplicates(list) ==> NoDuplicates(PathsAddedFor(vars, names, list, resolve, k))
    ensures forall p :: p in PathsAddedFor(vars, names, list, resolve, k) <==> p in list || ResolvedFrom(vars, names, resolve, k, p)
  {
    PathsAddedForGrows(vars, names, list, resolve, k);
    forall p
      ensures p in PathsAddedFor(vars, names, list, resolve, k) <==> p in list || ResolvedFrom(vars, names, resolve, k, p)
    {
      PathsAddedForMember(vars, names, list, resolve, k, p);
    }
  }

  /** The list only grows at its end, and without duplicates when it had none. */
  lemma {:induction false} PathsAddedForGrows(vars: Variables, names: seq<string>, list: seq<string>, resolve: string -> string, k: nat)
    requires k <= |names|
    ensures StartsWith(PathsAddedFor(vars, names, list, resolve, k), list)
    ensures NoDuplicates(list) ==> NoDuplicates(PathsAddedFor(vars, names, list, resolve, k))
  {
    if k == 0 {
      assert list[..|list|] == list;
    } else {
      PathsAddedForGrows(vars, names, list, resolve, k - 1);
      var before := PathsAddedFor(vars, names, list, resolve, k - 1);
      var values := Values(vars, names[k - 1]);
      PathsAddedMembers(before, values, resolve, |values|);
      var after := PathsAddedFor(vars, names, list, resolve, k);
      assert after[..|list|] == before[..|list|];
    }
  }

  /** Membership of one path, by induction on the number of variables. */
  lemma {:induction false} PathsAddedForMember(vars: Variables, names: seq<string>, list: seq<string>, resolve: string -> string, k: nat, p: string)
    requires k <= |names|
    ensures p in PathsAddedFor(vars, names, list, resolve, k) <==> p in list || ResolvedFrom(vars, names, resolve, k, p)
  {
    if k > 0 {
      PathsAddedForMember(vars, names, list, resolve, k - 1, p);
      var values := Values(vars, names[k - 1]);
      PathsAddedMembers(PathsAddedFor(vars, names, list, resolve, k - 1), values, resolve, |values|);
      ResolvedFromStep(vars, names, resolve, k, values, p);
    }
  }

  /** A path resolved from `names[..k]` comes from the last of them or from those before. */
  lemma ResolvedFromStep(vars: Variables, names: seq<string>, resolve: string -> string, k: nat, values: seq<string>, p: string)
    requires 0 < k <= |names| && values == Values(vars, names[k - 1])
    ensures ResolvedFrom(vars, names, resolve, k, p) <==>
      ResolvedFrom(vars, names, resolve, k - 1, p) || exists i :: 0 <= i < |values| && resolve(values[i]) == p && p != ""
  {
    if exists i :: 0 <= i < |values| && resolve(values[i]) == p && p != "" {
      var i :| 0 <= i < |values| && resolve(values[i]) == p && p != "";
      assert values[i] in Values(vars, names[k - 1]);
    }
    if ResolvedFrom(vars, names, resolve, k, p) && !ResolvedFrom(vars, names, resolve, k - 1, p) {
      var j, v :| 0 <= j < k && v in Values(vars, names[j]) && resolve(v) == p;
      assert j == k - 1;
      var i :| 0 <= i < |values| && values[i] == v;
    }
  }

  /** The directory ModulePath finds for a module, as a function of the module alone. */
  function ModuleFinder(qtVersion: string, findDir: string -> Option<(string, string)>): (find: string -> Option<string>)
    ensures forall m :: find(m) == ModulePath(m, qtVersion, findDir)
  {
    m => ModulePath(m, qtVersion, findDir)
  }

  /**
   * The Qt include directory, then the directory `find` gives for each of
   * `modules[..i]`, each added unless it is already listed.
   */
  function QtAdded(list: seq<string>, qtIncludeDir: string, modules: seq<string>, find: string -> Option<string>, i: nat): seq<string>
    requires i <= |modules|
  {
    if i == 0 then (if qtIncludeDir in list then list else list + [qtIncludeDir])
    else
      var l := QtAdded(list, qtIncludeDir, modules, find, i - 1);
      var path := find(modules[i - 1]);
      if path.Some? && path.value !in l then l + [path.value] else l
  }

  /** One more module: its directory is appended when it was found and is not listed yet. */
  lemma QtAddedNext(list: seq<string>, qtIncludeDir: string, modules: seq<string>, find: string -> Option<string>, i: nat, path: Option<string>)
    requires i < |modules| && path == find(modules[i])
    ensures var l := QtAdded(list, qtIncludeDir, modules, find, i);
      QtAdded(list, qtIncludeDir, modules, find, i + 1) == if path.Some? && path.value !in l then l + [path.value] else l
  {
  }

  /** `p` is the directory `find` gives for one of `modules[..i]`. */
  predicate ModuleDirectory(modules: seq<string>, find: string -> Option<string>, i: nat, p: string)
    requires i <= |modules|
  {
    exists j :: 0 <= j < i && find(modules[j]) == Some(p)
  }

  /** Adding the Qt directories only appends, never duplicates, and adds exactly the include and module directories. */
  lemma QtAddedMembers(list: seq<string>, qtIncludeDir: string, modules: seq<string>, find: string -> Option<string>, i: nat)
    requires i <= |modules|
    ensures StartsWith(QtAdded(list, qtIncludeDir, modules, find, i), list)
    ensures NoDuplicates(list) ==> NoDuplicates(QtAdded(list, qtIncludeDir, modules, find, i))
    ensures forall p :: p in QtAdded(list, qtIncludeDir, modules, find, i) <==>
      p in list || p == qtIncludeDir || ModuleDirectory(modules, find, i, p)
  {
    QtAddedGrows(list, qtIncludeDir, modules, find, i);
    forall p
      ensures p in QtAdded(list, qtIncludeDir, modules, find, i) <==>
        p in list || p == qtIncludeDir || ModuleDirectory(modules, find, i, p)
    {
      QtAddedMember(list, qtIncludeDir, modules, find, i, p);
    }
  }

  /** The list only grows at its end, and without duplicates when it had none. */
  lemma {:induction false} QtAddedGrows(list: seq<string>, qtIncludeDir: string, modules: seq<string>, find: string -> Option<string>, i: nat)
    requires i <= |modules|
    ensures StartsWith(QtAdded(list, qtIncludeDir, modules, find, i), list)
    ensures NoDuplicates(list) ==> NoDuplicates(QtAdded(list, qtIncludeDir, modules, find, i))
  {
    if i == 0 {
      assert list[..|list|] == list;
      AppendIfNew(list, list, Some(qtIncludeDir));
    } else {
      QtAddedGrows(list, qtIncludeDir, modules, find, i - 1);
      var path := find(modules[i - 1]);
      AppendIfNew(QtAdded(list, qtIncludeDir, modules, find, i - 1), list, path);
      QtAddedNext(list, qtIncludeDir, modules, find, i - 1, path);
    }
  }

  /** Appending a directory that is not listed yet keeps the prefix and keeps the list free of duplicates. */
  lemma AppendIfNew(l: seq<string>, list: seq<string>, path: Option<string>)
    requires StartsWith(l, list)
    ensures var r := if path.Some? && path.value !in l then l + [path.value] else l;
      StartsWith(r, list) && (NoDuplicates(l) ==> NoDuplicates(r))
  {
    if path.Some? && path.value !in l {
      assert (l + [path.value])[..|list|] == l[..|list|];
    }
  }

  /** Membership of one directory, by induction on the number of modules. */
  lemma {:induction false} QtAddedMember(list: seq<string>, qtIncludeDir: string, modules: seq<string>, find: string -> Option<string>, i: nat, p: string)
    requires i <= |modules|
    ensures p in QtAdded(list, qtIncludeDir, modules, find, i) <==>
      p in list || p == qtIncludeDir || ModuleDirectory(modules, find, i, p)
  {
    if i > 0 {
      QtAddedMember(list, qtIncludeDir, modules, find, i - 1, p);
      QtAddedNext(list, qtIncludeDir, modules, find, i - 1, find(modules[i - 1]));
      ModuleDirectoryStep(modules, find, i, p);
    }
  }

  /** A directory found for one of `modules[..i]` is that of the last of them or of one before. */
  lemma ModuleDirectoryStep(modules: seq<string>, find: string -> Option<string>, i: nat, p: string)
    requires 0 < i <= |modules|
    ensures ModuleDirectory(modules, find, i, p) <==>
      ModuleDirectory(modules, find, i - 1, p) || find(modules[i - 1]) == Some(p)
  {
    if ModuleDirectory(modules, find, i, p) && !ModuleDirectory(modules, find, i - 1, p) {
      var j :| 0 <= j < i && find(modules[j]) == Some(p);
      assert j == i - 1;
    }
  }

  /** includeDirectories as intended: the earlier variables, the Qt directories with CONFIG `qt`, then the later variables. */
  function IncludeList(vars: Variables, qtIncludeDir: string, qtVersion: string, resolve: string -> string,
                       findDir: string -> Option<(string, string)>): seq<string>
  {
    var config := Values(vars, "CONFIG");
    var earlier := PathsAddedFor(vars, EarlierVariables(config), [], resolve, |EarlierVariables(config)|);
    var modules := Modules(Values(vars, "QT"));
    var withQt := if "qt" in config then QtAdded(earlier, qtIncludeDir, modules, ModuleFinder(qtVersion, findDir), |modules|) else earlier;
    PathsAddedFor(vars, LaterVariables(config), withQt, resolve, |LaterVariables(config)|)
  }

  /**
   * The include directories hold no directory twice, and a directory is
   * listed exactly when it is a resolved value of a variable consulted or,
   * with CONFIG `qt`, the Qt include directory or a module directory found.
   */
  lemma IncludeListMembers(vars: Variables, qtIncludeDir: string, qtVersion: string, resolve: string -> string,
                           findDir: string -> Option<(string, string)>, p: string)
    ensures NoDuplicates(IncludeList(vars, qtIncludeDir, qtVersion, resolve, findDir))
    ensures var config := Values(vars, "CONFIG");
      var modules := Modules(Values(vars, "QT"));
      p in IncludeList(vars, qtIncludeDir, qtVersion, resolve, findDir) <==>
        ResolvedFrom(vars, EarlierVariables(config), resolve, |EarlierVariables(config)|, p) ||
        ResolvedFrom(vars, LaterVariables(config), resolve, |LaterVariables(config)|, p) ||
        ("qt" in config && (p == qtIncludeDir || ModuleDirectory(modules, ModuleFinder(qtVersion, findDir), |modules|, p)))
  {
    var config := Values(vars, "CONFIG");
    var earlier := PathsAddedFor(vars, EarlierVariables(config), [], resolve, |EarlierVariables(config)|);
    var modules := Modules(Values(vars, "QT"));
    PathsAddedForMembers(vars, EarlierVariables(config), [], resolve, |EarlierVariables(config)|);
    var withQt := if "qt" in config then QtAdded(earlier, qtIncludeDir, modules, ModuleFinder(qtVersion, findDir), |modules|) else earlier;
    if "qt" in config {
      QtAddedMembers(earlier, qtIncludeDir, modules, ModuleFinder(qtVersion, findDir), |modules|);
    }
    PathsAddedForMembers(vars, LaterVariables(config), withQt, resolve, |LaterVariables(config)|);
  }

  /** The variables whose paths are added after the Qt directories. */
  function LaterVariables(config: seq<string>): seq<string> {
    (if "thread" in config then ["QMAKE_INCDIR_THREAD"] else []) +
    (if "x11" in config then ["QMAKE_INCDIR_X11"] else []) +
    ["MOC_DIR", "OBJECTS_DIR", "UI_DIR"]
  }

  /** The variables whose paths are added before the Qt directories. */
  function EarlierVariables(config: seq<string>): seq<string> {
    ["INCLUDEPATH", "QMAKE_INCDIR"] + (if "opengl" in config then ["QMAKE_INCDIR_OPENGL"] else [])
  }

  /** A QMake project file. */
  class ProjectFile {
    var variables: Variables
    var qtIncludeDir: string
    var qtVersion: string
    var qtLibDir: string
    const absoluteFile: string
    const absoluteDir: string
    const baseName: string

    /** A project file with the variables its parser holds. */
    constructor (absoluteFile: string, absoluteDir: string, baseName: string, variables: Variables)
      ensures this.absoluteFile == absoluteFile && this.absoluteDir == absoluteDir && this.baseName == baseName
      ensures this.variables == variables
      ensures qtIncludeDir == "" && qtVersion == "" && qtLibDir == ""
    {
      this.absoluteFile := absoluteFile;
      this.absoluteDir := absoluteDir;
      this.baseName := baseName;
      this.variables := variables;
      qtIncludeDir := "";
      qtVersion := "";
      qtLibDir := "";
    }

    /** Filling absent variables in turn. */
    method Fill(names: seq<string>, values: string -> seq<string>)
      modifies this
      ensures variables == Filled(old(variables), names, values, |names|)
      ensures qtIncludeDir == old(qtIncludeDir) && qtVersion == old(qtVersion) && qtLibDir == old(qtLibDir)
    {
      ghost var start := variables;
      var i := 0;
      while i < |names|
        invariant 0 <= i <= |names|
        invariant variables == Filled(start, names, values, i)
        invariant qtIncludeDir == old(qtIncludeDir) && qtVersion == old(qtVersion) && qtLibDir == old(qtLibDir)
      {
        if names[i] !in variables {
          variables := variables[names[i] := values(names[i])];
        }
        i := i + 1;
      }
    }

    /**
     * read, up to the parse of the file itself. `cache` is the optional
     * .qmake.cache, `outPwd` the build directory, `query` the answer of
     * `qmake -query` for the headers, version and libraries.
     */
    method Read(mkspecNames: seq<string>, mkspecValues: string -> seq<string>,
                cache: Option<(seq<string>, string -> seq<string>)>, outPwd: string, query: map<string, string>)
      modifies this
      ensures var cacheNames := if cache.Some? then cache.value.0 else [];
        var cacheValues := if cache.Some? then cache.value.1 else (_ => []);
        variables == ReadDefaults(old(variables), mkspecNames, mkspecValues, cacheNames, cacheValues,
                                  absoluteDir, absoluteFile, absoluteDir, outPwd)
      ensures qtIncludeDir == (if "QT_INSTALL_HEADERS" in query then query["QT_INSTALL_HEADERS"] else "")
      ensures qtVersion == (if "QT_VERSION" in query then query["QT_VERSION"] else "")
      ensures qtLibDir == (if "QT_INSTALL_LIBS" in query then query["QT_INSTALL_LIBS"] else "")
    {
      SetBuiltins();
      Fill(mkspecNames, mkspecValues);
      if cache.Some? {
        Fill(cache.value.0, cache.value.1);
      } else {
        Fill([], _ => []);
      }
      SetPaths(outPwd);
      qtIncludeDir := if "QT_INSTALL_HEADERS" in query then query["QT_INSTALL_HEADERS"] else "";
      qtVersion := if "QT_VERSION" in query then query["QT_VERSION"] else "";
      qtLibDir := if "QT_INSTALL_LIBS" in query then query["QT_INSTALL_LIBS"] else "";
    }

    /** QT and CONFIG when absent. */
    method SetBuiltins()
      modifies this
      ensures variables == Builtins(old(variables))
    {
      if "QT" !in variables {
        variables := variables["QT" := ["core", "gui"]];
      }
      if "CONFIG" !in variables {
        variables := variables["CONFIG" := ["qt"]];
      }
    }

    /** The four path variables. */
    method SetPaths(outPwd: string)
      modifies this
      ensures variables == WithPaths(old(variables), absoluteDir, absoluteFile, absoluteDir, outPwd)
    {
      variables := variables["PWD" := [absoluteDir]];
      variables := variables["_PRO_FILE_" := [absoluteFile]];
      variables := variables["_PRO_FILE_PWD_" := [absoluteDir]];
      variables := variables["OUT_PWD" := [outPwd]];
    }

    /** defines */
    method Defines() returns (d: seq<(string, string)>)
      ensures |d| == |Values(variables, "DEFINES")|
      ensures forall i :: 0 <= i < |d| ==> d[i] == DefinePair(Values(variables, "DEFINES")[i])
    {
      var defs := Values(variables, "DEFINES");
      d := [];
      var i := 0;
      while i < |defs|
        invariant 0 <= i <= |defs|
        invariant |d| == i
        invariant forall k :: 0 <= k < i ==> d[k] == DefinePair(defs[k])
      {
        var def := defs[i];
        var pos := IndexOf(def, '=');
        if pos.Some? {
          d := d + [(def[..pos.value], def[pos.value + 1..])];
        } else {
          d := d + [(def, "")];
        }
        i := i + 1;
      }
    }

    /** targets */
    method Targets() returns (list: seq<string>)
      ensures list == Without(TargetsCollected(variables, baseName), "")
    {
      list := Values(variables, "TARGET");
      if list == [] && Template(variables) != "subdirs" {
        list := list + [baseName];
      }
      ghost var start := list;
      var installs := Values(variables, "INSTALLS");
      var i := 0;
      while i < |installs|
        invariant 0 <= i <= |installs|
        invariant list == start + InstallTargets(installs, i)
      {
        var target := installs[i];
        if target != "" && target != "target" {
          list := list + [target];
        }
        i := i + 1;
      }
      list := Without(list, "");
    }

    /** One variable's arguments. */
    method ScanFrameworkArguments(args: seq<string>) returns (dirs: seq<string>)
      ensures dirs == FrameworkScan(args, |args|).0
    {
      dirs := [];
      var storeArg := false;
      var i := 0;
      while i < |args|
        invariant 0 <= i <= |args|
        invariant FrameworkScan(args, i) == (dirs, storeArg)
      {
        var arg := args[i];
        if arg == "-F" || arg == "-iframework" {
          storeArg := true;
        } else {
          if StartsWith(arg, "-F") {
            dirs := dirs + [arg[2..]];
          } else if StartsWith(arg, "-iframework") {
            dirs := dirs + [arg[11..]];
          } else if storeArg {
            dirs := dirs + [arg];
          }
          storeArg := false;
        }
        i := i + 1;
      }
    }

    /** frameworkDirectories; on macOS Qt's library directory is appended. */
    method FrameworkDirectories(onMacOS: bool) returns (fwDirs: seq<string>)
      ensures fwDirs == FlagDirectories(variables, |FlagVariables|) + (if onMacOS then [qtLibDir] else [])
    {
      fwDirs := [];
      var k := 0;
      while k < |FlagVariables|
        invariant 0 <= k <= |FlagVariables|
        invariant fwDirs == FlagDirectories(variables, k)
      {
        var args := Values(variables, FlagVariables[k]);
        var dirs := ScanFrameworkArguments(args);
        FrameworkScanContributions(args, |args|);
        fwDirs := fwDirs + dirs;
        k := k + 1;
      }
      if onMacOS {
        fwDirs := fwDirs + [qtLibDir];
      }
    }

    /** addPathsForVariable as intended. */
    method AddPathsForVariable(variable: string, list: seq<string>, resolve: string -> string) returns (r: seq<string>)
      ensures r == PathsAdded(list, Values(variables, variable), resolve, |Values(variables, variable)|)
    {
      var values := Values(variables, variable);
      r := list;
      var i := 0;
      while i < |values|
        invariant 0 <= i <= |values|
        invariant r == PathsAdded(list, values, resolve, i)
      {
        var path := resolve(values[i]);
        if path != "" && path !in r {
          r := r + [path];
        }
        i := i + 1;
      }
    }

    /** addPathsForVariable as written, testing the raw value. */
    method AddPathsForVariableAsWritten(variable: string, list: seq<string>, resolve: string -> string) returns (r: seq<string>)
      ensures r == PathsAddedAsWritten(list, Values(variables, variable), resolve, |Values(variables, variable)|)
    {
      var values := Values(variables, variable);
      r := list;
      var i := 0;
      while i < |values|
        invariant 0 <= i <= |values|
        invariant r == PathsAddedAsWritten(list, values, resolve, i)
      {
        var val := values[i];
        var path := resolve(val);
        if path != "" && val !in r {
          r := r + [path];
        }
        i := i + 1;
      }
    }

    /** The paths of each variable in `names`, added in turn, as intended. */
    method AddPathsForVariables(names: seq<string>, list: seq<string>, resolve: string -> string) returns (r: seq<string>)
      ensures r == PathsAddedFor(variables, names, list, resolve, |names|)
      ensures StartsWith(r, list)
      ensures NoDuplicates(list) ==> NoDuplicates(r)
      ensures forall p :: p in r <==> p in list || ResolvedFrom(variables, names, resolve, |names|, p)
    {
      r := list;
      var k := 0;
      while k < |names|
        invariant 0 <= k <= |names|
        invariant r == PathsAddedFor(variables, names, list, resolve, k)
      {
        r := AddPathsForVariable(names[k], r, resolve);
        k := k + 1;
      }
      PathsAddedForMembers(variables, names, list, resolve, |names|);
    }

    /** The Qt include directory and the directory of each module, each added unless it is there. */
    method AddQtDirectories(list: seq<string>, findDir: string -> Option<(string, string)>) returns (r: seq<string>)
      ensures r == QtAdded(list, qtIncludeDir, Modules(Values(variables, "QT")), ModuleFinder(qtVersion, findDir), |Modules(Values(variables, "QT"))|)
      ensures StartsWith(r, list)
      ensures NoDuplicates(list) ==> NoDuplicates(r)
      ensures forall p :: p in r <==>
        p in list || p == qtIncludeDir ||
        ModuleDirectory(Modules(Values(variables, "QT")), ModuleFinder(qtVersion, findDir), |Modules(Values(variables, "QT"))|, p)
    {
      r := list;
      if qtIncludeDir !in r {
        r := r + [qtIncludeDir];
      }
      var modules := Modules(Values(variables, "QT"));
      var i := 0;
      while i < |modules|
        invariant 0 <= i <= |modules|
        invariant r == QtAdded(list, qtIncludeDir, modules, ModuleFinder(qtVersion, findDir), i)
      {
        var path := ModulePath(modules[i], qtVersion, findDir);
        QtAddedNext(list, qtIncludeDir, modules, ModuleFinder(qtVersion, findDir), i, path);
        if path.Some? && path.value !in r {
          r := r + [path.value];
        }
        i := i + 1;
      }
      QtAddedMembers(list, qtIncludeDir, modules, ModuleFinder(qtVersion, findDir), |modules|);
    }

    /**
     * includeDirectories, with the intended duplicate test: the list of
     * IncludeList, in its order, with no directory twice.
     */
    method IncludeDirectories(resolve: string -> string, findDir: string -> Option<(string, string)>) returns (list: seq<string>)
      ensures list == IncludeList(variables, qtIncludeDir, qtVersion, resolve, findDir)
      ensures NoDuplicates(list)
    {
      var config := Values(variables, "CONFIG");
      var earlier := AddPathsForVariables(EarlierVariables(config), [], resolve);
      var withQt := earlier;
      if "qt" in config {
        withQt := AddQtDirectories(earlier, findDir);
      }
      list := AddPathsForVariables(LaterVariables(config), withQt, resolve);
      IncludeListMembers(variables, qtIncludeDir, qtVersion, resolve, findDir, "");
    }
  }
}
