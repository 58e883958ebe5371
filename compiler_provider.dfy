/**
 * The registry of compilers and the per-item configuration lookup
 * (languages/plugins/custom-definesandincludes/compilerprovider/compilerprovider.cpp).
 *
 * A compiler is a value compared by name, as the source compares
 * CompilerPointers; a null CompilerPointer is `None`. The project's
 * configuration entries (SettingsManager::readPaths), Path::addPath,
 * Utils::languageType, QStandardPaths::findExecutable and a real compiler's
 * defines and includes are parameters.
 */
module CompilerProvider {
  import opened Text

  /** The dummy NoCompiler, or a compiler some factory created. */
  datatype CompilerKind = NoCompiler | Created(factoryName: string)

  datatype Compiler = Compiler(name: string, path: string, editable: bool, kind: CompilerKind)

  /** NoCompiler: named "None", no path, not editable. */
  const Dummy: Compiler := Compiler("None", "", false, NoCompiler)

  /** A path as its list of segments (KDevelop::Path::segments). */
  datatype Path = Path(segments: seq<string>)

  /** Path::isParentOf: a proper ancestor. */
  predicate IsParentOf(p: Path, q: Path) {
    |p.segments| < |q.segments| && q.segments[..|p.segments|] == p.segments
  }

  datatype ParserArguments = ParserArguments(cArguments: string, cppArguments: string, parseAmbiguousAsCPP: bool)

  /** A ConfigEntry: the directory it applies to, relative to the project root, its compiler and its arguments. */
  datatype ConfigEntry = ConfigEntry(path: string, compiler: Compiler, parserArguments: ParserArguments)

  /** A project item: its path, its project's root and the configuration entries of its project. */
  datatype Item = Item(path: Path, root: Path, entries: seq<ConfigEntry>)

  datatype LanguageType = C | Cpp | OpenCl | ObjC | Other

  /**
   * What the lookup depends on but this file does not define.
   * `blank` is the default-constructed ConfigEntry (its path is empty).
   */
  datatype Env = Env(
    addPath: (Path, string) -> Path,
    languageType: (Path, bool) -> LanguageType,
    blankCompiler: Compiler,
    blankArguments: ParserArguments,
    definesOf: (Compiler, string) -> map<string, string>,
    includesOf: (Compiler, string) -> seq<Path>)

  function Blank(env: Env): ConfigEntry {
    ConfigEntry("", env.blankCompiler, env.blankArguments)
  }

  // ---------------------------------------------------------------------
  // configForItem

  /** The directory an entry applies to. */
  function Target(item: Item, e: ConfigEntry, env: Env): Path {
    env.addPath(item.root, e.path)
  }

  /** configForItem's loop variables; `done` once an entry targets the item itself. */
  datatype Search = Search(done: bool, config: ConfigEntry, closest: Path)

  /** One iteration of the loop over the entries. */
  function SearchStep(s: Search, item: Item, e: ConfigEntry, env: Env): Search {
    if s.done then s
    else
      var t := Target(item, e, env);
      if t == item.path then Search(true, e, s.closest)
      else if IsParentOf(t, item.path) && (s.config.path == "" || |t.segments| > |s.closest.segments|) then Search(false, e, t)
      else s
  }

  /** The loop variables after the first `n` entries. */
  function Searched(item: Item, n: nat, env: Env): Search
    requires n <= |item.entries|
  {
    if n == 0 then Search(false, Blank(env), Path([]))
    else SearchStep(Searched(item, n - 1, env), item, item.entries[n - 1], env)
  }

  /** The entry configForItem returns. */
  function ConfigFor(item: Option<Item>, env: Env): ConfigEntry {
    if item.None? then Blank(env) else Searched(item.value, |item.value.entries|, env).config
  }

  /** configForItem */
  method ConfigForItem(item: Option<Item>, env: Env) returns (config: ConfigEntry)
    ensures config == ConfigFor(item, env)
  {
    if item.None? {
      return Blank(env);
    }
    var it := item.value;
    config := Blank(env);
    var closestPath := Path([]);
    var i := 0;
    while i < |it.entries|
      invariant 0 <= i <= |it.entries|
      invariant Searched(it, i, env) == Search(false, config, closestPath)
    {
      var entry := it.entries[i];
      var targetDirectory := env.addPath(it.root, entry.path);
      if targetDirectory == it.path {
        ExactStays(it, i + 1, |it.entries|, env);
        return entry;
      }
      if IsParentOf(targetDirectory, it.path) {
        if config.path == "" || |targetDirectory.segments| > |closestPath.segments| {
          config := entry;
          closestPath := targetDirectory;
        }
      }
      i := i + 1;
    }
  }

  /** Once an exact entry was met, later entries change nothing. */
  lemma {:induction false} ExactStays(item: Item, k: nat, n: nat, env: Env)
    requires k <= n <= |item.entries|
    requires Searched(item, k, env).done
    ensures Searched(item, n, env) == Searched(item, k, env)
  {
    if k < n {
      ExactStays(item, k, n - 1, env);
    }
  }

  /** The lookup stops exactly at the first entry that targets the item, and returns that entry. */
  lemma {:induction false} SearchedExact(item: Item, n: nat, env: Env)
    requires n <= |item.entries|
    ensures Searched(item, n, env).done <==> exists i :: 0 <= i < n && Target(item, item.entries[i], env) == item.path
    ensures forall i :: (0 <= i < n && Target(item, item.entries[i], env) == item.path &&
                         (forall j :: 0 <= j < i ==> Target(item, item.entries[j], env) != item.path)) ==>
      Searched(item, n, env).config == item.entries[i]
  {
    if n > 0 {
      SearchedExact(item, n - 1, env);
      if Searched(item, n - 1, env).done {
        var i :| 0 <= i < n - 1 && Target(item, item.entries[i], env) == item.path;
      }
    }
  }

  /** An entry whose directory is a proper ancestor of the item. */
  predicate IsAncestorEntry(item: Item, i: nat, env: Env)
    requires i < |item.entries|
  {
    IsParentOf(Target(item, item.entries[i], env), item.path)
  }

  /** The number of segments of an entry's directory. */
  function Depth(item: Item, i: nat, env: Env): nat
    requires i < |item.entries|
  {
    |Target(item, item.entries[i], env).segments|
  }

  /** The ancestor entry the lookup picks: it is the deepest, and strictly deeper than every earlier ancestor. */
  predicate Closest(item: Item, n: nat, i: nat, env: Env)
    requires i < n <= |item.entries|
  {
    IsAncestorEntry(item, i, env) &&
    (forall j :: 0 <= j < n && IsAncestorEntry(item, j, env) ==> Depth(item, j, env) <= Depth(item, i, env)) &&
    (forall j :: 0 <= j < i && IsAncestorEntry(item, j, env) ==> Depth(item, j, env) < Depth(item, i, env))
  }

  /** Without an exact entry, the lookup is never done, and without an ancestor entry it stays blank. */
  lemma {:induction false} SearchedNoAncestor(item: Item, n: nat, env: Env)
    requires n <= |item.entries|
    requires forall i :: 0 <= i < n ==> Target(item, item.entries[i], env) != item.path
    ensures !Searched(item, n, env).done
    ensures (forall j :: 0 <= j < n ==> !IsAncestorEntry(item, j, env)) ==> Searched(item, n, env).config == Blank(env)
  {
    if n > 0 {
      SearchedNoAncestor(item, n - 1, env);
      if forall j :: 0 <= j < n ==> !IsAncestorEntry(item, j, env) {
        assert !IsAncestorEntry(item, n - 1, env);
      }
    }
  }

  /** A deeper ancestor entry takes over. */
  lemma ClosestReplaced(item: Item, n: nat, i: nat, env: Env)
    requires i < n < |item.entries|
    requires Closest(item, n, i, env)
    requires IsAncestorEntry(item, n, env) && Depth(item, n, env) > Depth(item, i, env)
    ensures Closest(item, n + 1, n, env)
  {
  }

  /** Any other entry leaves the pick alone. */
  lemma ClosestKept(item: Item, n: nat, i: nat, env: Env)
    requires i < n < |item.entries|
    requires Closest(item, n, i, env)
    requires !(IsAncestorEntry(item, n, env) && Depth(item, n, env) > Depth(item, i, env))
    ensures Closest(item, n + 1, i, env)
  {
  }

  /** The first ancestor entry is picked. */
  lemma ClosestFirst(item: Item, n: nat, env: Env)
    requires n < |item.entries|
    requires forall j :: 0 <= j < n ==> !IsAncestorEntry(item, j, env)
    requires IsAncestorEntry(item, n, env)
    ensures Closest(item, n + 1, n, env)
  {
  }

  /**
   * Without an exact entry, and with every entry naming a directory, the
   * lookup gives the first of the deepest ancestor entries when there is one.
   */
  lemma {:induction false} SearchedClosest(item: Item, n: nat, env: Env)
    requires n <= |item.entries|
    requires forall i :: 0 <= i < n ==> item.entries[i].path != ""
    requires forall i :: 0 <= i < n ==> Target(item, item.entries[i], env) != item.path
    requires exists j :: 0 <= j < n && IsAncestorEntry(item, j, env)
    ensures exists i :: (0 <= i < n && Closest(item, n, i, env) && Searched(item, n, env).config == item.entries[i] &&
                         Searched(item, n, env).closest == Target(item, item.entries[i], env))
  {
    var m := n - 1;
    SearchedNoAncestor(item, m, env);
    var s := Searched(item, m, env);
    if exists j :: 0 <= j < m && IsAncestorEntry(item, j, env) {
      SearchedClosest(item, m, env);
      var i :| 0 <= i < m && Closest(item, m, i, env) && s.config == item.entries[i] && s.closest == Target(item, item.entries[i], env);
      assert s.config.path != "";
      if IsAncestorEntry(item, m, env) && Depth(item, m, env) > Depth(item, i, env) {
        ClosestReplaced(item, m, i, env);
        assert Searched(item, n, env) == Search(false, item.entries[m], Target(item, item.entries[m], env));
      } else {
        ClosestKept(item, m, i, env);
        assert Searched(item, n, env) == s;
      }
    } else {
      ClosestFirst(item, m, env);
      assert Searched(item, n, env) == Search(false, item.entries[m], Target(item, item.entries[m], env));
    }
  }

  /** A null item gives the blank entry. */
  lemma NoItemBlank(env: Env)
    ensures ConfigFor(None, env) == Blank(env)
    ensures ConfigFor(None, env).path == ""
  {
  }

  // ---------------------------------------------------------------------
  // defines and includes

  /** The language of the item, Cpp without an item. */
  function LanguageOf(item: Option<Item>, config: ConfigEntry, env: Env): LanguageType {
    if item.None? then Cpp else env.languageType(item.value.path, config.parserArguments.parseAmbiguousAsCPP)
  }

  /** The arguments handed to the compiler: cArguments for C, cppArguments for everything else. */
  function ArgumentsFor(config: ConfigEntry, language: LanguageType): (r: string)
    ensures language == C ==> r == config.parserArguments.cArguments
    ensures language != C ==> r == config.parserArguments.cppArguments
  {
    if language == C then config.parserArguments.cArguments else config.parserArguments.cppArguments
  }

  /** ICompiler::defines: NoCompiler has none. */
  function CompilerDefines(c: Compiler, arguments: string, env: Env): map<string, string> {
    if c.kind == NoCompiler then map[] else env.definesOf(c, arguments)
  }

  /** ICompiler::includes: NoCompiler has none. */
  function CompilerIncludes(c: Compiler, arguments: string, env: Env): seq<Path> {
    if c.kind == NoCompiler then [] else env.includesOf(c, arguments)
  }

  /** The dummy yields no defines and no includes, whatever the arguments. */
  lemma DummyYieldsNothing(arguments: string, env: Env)
    ensures CompilerDefines(Dummy, arguments, env) == map[]
    ensures CompilerIncludes(Dummy, arguments, env) == []
  {
  }

  // ---------------------------------------------------------------------
  // the registry

  /** Some compiler in `cs` has the name. */
  predicate HasName(cs: seq<Compiler>, name: string) {
    exists i :: 0 <= i < |cs| && cs[i].name == name
  }

  /** No two registered compilers share a name. */
  predicate UniqueNames(cs: seq<Compiler>) {
    forall i, j :: 0 <= i < j < |cs| ==> cs[i].name != cs[j].name
  }

  /** registerCompiler on a list: the new list and whether the compiler was added. */
  function Registered(cs: seq<Compiler>, c: Option<Compiler>): (r: (seq<Compiler>, bool))
    ensures r.1 <==> c.Some? && !HasName(cs, c.value.name)
    ensures r.0 == if r.1 then cs + [c.value] else cs
  {
    if c.Some? && !HasName(cs, c.value.name) then (cs + [c.value], true) else (cs, false)
  }

  /** Registering keeps the names unique. */
  lemma RegisteredUnique(cs: seq<Compiler>, c: Option<Compiler>)
    requires UniqueNames(cs)
    ensures UniqueNames(Registered(cs, c).0)
    ensures c.Some? ==> HasName(Registered(cs, c).0, c.value.name)
  {
    if c.Some? && !HasName(cs, c.value.name) {
      var r := cs + [c.value];
      assert r[|cs|].name == c.value.name;
      forall i, j | 0 <= i < j < |r|
        ensures r[i].name != r[j].name
      {
        if j == |cs| {
          assert cs[i].name != c.value.name;
        }
      }
    } else if c.Some? {
      var i :| 0 <= i < |cs| && cs[i].name == c.value.name;
    }
  }

  /** Registering each compiler of `cs` in turn. */
  function RegisteredAll(start: seq<Compiler>, cs: seq<Option<Compiler>>, n: nat): seq<Compiler>
    requires n <= |cs|
  {
    if n == 0 then start else Registered(RegisteredAll(start, cs, n - 1), cs[n - 1]).0
  }

  /** A list built by registration only ever grows at its end. */
  lemma {:induction false} RegisteredAllExtends(start: seq<Compiler>, cs: seq<Option<Compiler>>, n: nat)
    requires n <= |cs|
    ensures |start| <= |RegisteredAll(start, cs, n)|
    ensures RegisteredAll(start, cs, n)[..|start|] == start
  {
    if n > 0 {
      RegisteredAllExtends(start, cs, n - 1);
      var prev := RegisteredAll(start, cs, n - 1);
      assert Registered(prev, cs[n - 1]).0[..|prev|] == prev;
    }
  }

  /** The index of the first compiler with the name. */
  function FirstNamed(cs: seq<Compiler>, name: string): (r: Option<nat>)
    ensures r.Some? <==> HasName(cs, name)
    ensures r.Some? ==> (r.value < |cs| && cs[r.value].name == name &&
                         forall j :: 0 <= j < r.value ==> cs[j].name != name)
  {
    if cs == [] then None
    else if cs[0].name == name then Some(0)
    else
      match FirstNamed(cs[1..], name)
      case None => None
      case Some(i) => Some(i + 1)
  }

  /** unregisterCompiler on a list: the first compiler with the name is removed. */
  function Unregistered(cs: seq<Compiler>, c: Compiler): seq<Compiler> {
    if !c.editable then cs
    else
      match FirstNamed(cs, c.name)
      case None => cs
      case Some(i) => cs[..i] + cs[i + 1..]
  }

  /** With unique names, unregistering removes exactly the compiler's name and keeps every other one in order. */
  lemma UnregisteredRemovesName(cs: seq<Compiler>, c: Compiler)
    requires UniqueNames(cs)
    requires c.editable
    ensures UniqueNames(Unregistered(cs, c))
    ensures !HasName(Unregistered(cs, c), c.name)
    ensures forall n :: n != c.name ==> (HasName(Unregistered(cs, c), n) <==> HasName(cs, n))
    ensures |Unregistered(cs, c)| == if HasName(cs, c.name) then |cs| - 1 else |cs|
  {
    var k := FirstNamed(cs, c.name);
    if k.Some? {
      var i := k.value;
      var r := cs[..i] + cs[i + 1..];
      assert forall j :: 0 <= j < |r| ==> r[j] == (if j < i then cs[j] else cs[j + 1]);
      forall n | n != c.name
        ensures HasName(r, n) <==> HasName(cs, n)
      {
        if HasName(cs, n) {
          var j :| 0 <= j < |cs| && cs[j].name == n;
          assert j != i;
          if j < i { assert r[j] == cs[j]; } else { assert r[j - 1] == cs[j]; }
        }
      }
      forall j | 0 <= j < |r|
        ensures r[j].name != c.name
      {
        if j < i { assert r[j] == cs[j]; } else { assert r[j] == cs[j + 1]; }
      }
    }
  }

  /** A non-editable compiler is never unregistered. */
  lemma ReadOnlyStays(cs: seq<Compiler>, c: Compiler)
    requires !c.editable
    ensures Unregistered(cs, c) == cs
  {
  }

  /** The first compiler whose executable can be found. */
  function FirstRunnable(cs: seq<Compiler>, findExecutable: string -> string): (r: Option<nat>)
    ensures r.Some? ==> (r.value < |cs| && findExecutable(cs[r.value].path) != "" &&
                         forall j :: 0 <= j < r.value ==> findExecutable(cs[j].path) == "")
    ensures r.None? ==> forall j :: 0 <= j < |cs| ==> findExecutable(cs[j].path) == ""
  {
    if cs == [] then None
    else if findExecutable(cs[0].path) != "" then Some(0)
    else
      match FirstRunnable(cs[1..], findExecutable)
      case None => None
      case Some(i) => Some(i + 1)
  }

  /** checkCompilerExists on a list. */
  function Existing(cs: seq<Compiler>, c: Option<Compiler>, findExecutable: string -> string): Compiler {
    var found := if c.None? then FirstRunnable(cs, findExecutable) else FirstNamed(cs, c.value.name);
    if found.Some? then cs[found.value] else Dummy
  }

  /** A named compiler is answered by the registered one of that name, or by the dummy when none is registered. */
  lemma ExistingNamed(cs: seq<Compiler>, c: Compiler, findExecutable: string -> string)
    ensures HasName(cs, c.name) ==> Existing(cs, Some(c), findExecutable) in cs && Existing(cs, Some(c), findExecutable).name == c.name
    ensures !HasName(cs, c.name) ==> Existing(cs, Some(c), findExecutable) == Dummy
  {
  }

  /** Without a compiler, the first registered one whose executable is found is used, else the dummy. */
  lemma ExistingUnnamed(cs: seq<Compiler>, findExecutable: string -> string)
    ensures var r := Existing(cs, None, findExecutable);
      r == Dummy || (r in cs && findExecutable(r.path) != "")
    ensures (forall j :: 0 <= j < |cs| ==> findExecutable(cs[j].path) == "") ==> Existing(cs, None, findExecutable) == Dummy
  {
  }

  /** The default compilers the factories register: Clang first, then GCC, each only when its executable is found. */
  function DefaultCompilers(findExecutable: string -> string): seq<Option<Compiler>> {
    var clang := findExecutable("clang");
    var gcc := findExecutable("gcc");
    [if clang != "" then Some(Compiler("Clang", clang, false, Created("Clang"))) else None,
     if gcc != "" then Some(Compiler("GCC", gcc, false, Created("GCC"))) else None]
  }

  /** The registry the constructor builds: the defaults, the dummy, then the user-defined compilers. */
  function Initial(findExecutable: string -> string, userDefined: seq<Option<Compiler>>): seq<Compiler> {
    var defaults := RegisteredAll([], DefaultCompilers(findExecutable), 2);
    RegisteredAll(Registered(defaults, Some(Dummy)).0, userDefined, |userDefined|)
  }

  /** Registration only adds names that some registered compiler carries. */
  lemma {:induction false} RegisteredAllLacks(start: seq<Compiler>, cs: seq<Option<Compiler>>, n: nat, name: string)
    requires n <= |cs|
    requires !HasName(start, name)
    requires forall k :: 0 <= k < n && cs[k].Some? ==> cs[k].value.name != name
    ensures !HasName(RegisteredAll(start, cs, n), name)
  {
    if n > 0 {
      RegisteredAllLacks(start, cs, n - 1, name);
      var prev := RegisteredAll(start, cs, n - 1);
      var next := Registered(prev, cs[n - 1]).0;
      if next != prev {
        assert next == prev + [cs[n - 1].value];
        assert forall i :: 0 <= i < |prev| ==> next[i] == prev[i];
      }
    }
  }

  /** The factories only ever name their compilers Clang and GCC. */
  lemma DefaultsLackDummy(findExecutable: string -> string)
    ensures !HasName(RegisteredAll([], DefaultCompilers(findExecutable), 2), Dummy.name)
  {
    var ds := DefaultCompilers(findExecutable);
    assert ds[0].Some? ==> ds[0].value.name == "Clang";
    assert ds[1].Some? ==> ds[1].value.name == "GCC";
    RegisteredAllLacks([], ds, 2, Dummy.name);
  }

  /** The dummy is always registered, right after the defaults and before every user-defined compiler. */
  lemma DummyBeforeUserDefined(findExecutable: string -> string, userDefined: seq<Option<Compiler>>)
    ensures var defaults := RegisteredAll([], DefaultCompilers(findExecutable), 2);
      |defaults| < |Initial(findExecutable, userDefined)| &&
      Initial(findExecutable, userDefined)[..|defaults|] == defaults &&
      Initial(findExecutable, userDefined)[|defaults|] == Dummy
  {
    var defaults := RegisteredAll([], DefaultCompilers(findExecutable), 2);
    DefaultsLackDummy(findExecutable);
    var start := defaults + [Dummy];
    assert Registered(defaults, Some(Dummy)).0 == start;
    var all := RegisteredAll(start, userDefined, |userDefined|);
    assert Initial(findExecutable, userDefined) == all;
    RegisteredAllExtends(start, userDefined, |userDefined|);
    assert all[..|start|] == start;
    assert all[|defaults|] == all[..|start|][|defaults|] == Dummy;
    assert all[..|defaults|] == start[..|defaults|] == defaults;
  }

  /** The registry of compilers. */
  class Provider {
    var compilers: seq<Compiler>

    predicate Valid()
      reads this
    {
      UniqueNames(compilers)
    }

    /** The constructor: the defaults the factories found, the dummy, then the user-defined compilers. */
    constructor (findExecutable: string -> string, userDefined: seq<Option<Compiler>>)
      ensures Valid()
      ensures compilers == Initial(findExecutable, userDefined)
    {
      compilers := [];
      var defaults := DefaultCompilers(findExecutable);
      new;
      RegisterEach(defaults);
      var _ := RegisterCompiler(Some(Dummy));
      RegisterEach(userDefined);
    }

    /** Registering a list of compilers in turn (registerDefaultCompilers, retrieveUserDefinedCompilers). */
    method RegisterEach(cs: seq<Option<Compiler>>)
      requires Valid()
      modifies this
      ensures Valid()
      ensures compilers == RegisteredAll(old(compilers), cs, |cs|)
    {
      ghost var start := compilers;
      var i := 0;
      while i < |cs|
        invariant 0 <= i <= |cs|
        invariant Valid()
        invariant compilers == RegisteredAll(start, cs, i)
      {
        var _ := RegisterCompiler(cs[i]);
        i := i + 1;
      }
    }

    /** registerCompiler: false for a null compiler or a taken name, otherwise appended. */
    method RegisterCompiler(compiler: Option<Compiler>) returns (ok: bool)
      requires Valid()
      modifies this
      ensures Valid()
      ensures (compilers, ok) == Registered(old(compilers), compiler)
    {
      RegisteredUnique(compilers, compiler);
      if compiler.None? {
        return false;
      }
      var i := 0;
      while i < |compilers|
        invariant 0 <= i <= |compilers|
        invariant forall j :: 0 <= j < i ==> compilers[j].name != compiler.value.name
      {
        if compilers[i].name == compiler.value.name {
          return false;
        }
        i := i + 1;
      }
      compilers := compilers + [compiler.value];
      return true;
    }

    /** unregisterCompiler: only an editable compiler, and only the first entry with its name. */
    method UnregisterCompiler(compiler: Compiler)
      requires Valid()
      modifies this
      ensures Valid()
      ensures compilers == Unregistered(old(compilers), compiler)
    {
      if compiler.editable {
        UnregisteredRemovesName(compilers, compiler);
      }
      if !compiler.editable {
        return;
      }
      var i := 0;
      while i < |compilers|
        invariant 0 <= i <= |compilers|
        invariant forall j :: 0 <= j < i ==> compilers[j].name != compiler.name
      {
        if compilers[i].name == compiler.name {
          compilers := compilers[..i] + compilers[i + 1..];
          return;
        }
        i := i + 1;
      }
    }

    /** checkCompilerExists */
    method CheckCompilerExists(compiler: Option<Compiler>, findExecutable: string -> string) returns (r: Compiler)
      ensures r == Existing(compilers, compiler, findExecutable)
    {
      if compiler.None? {
        var i := 0;
        while i < |compilers|
          invariant 0 <= i <= |compilers|
          invariant forall j :: 0 <= j < i ==> findExecutable(compilers[j].path) == ""
        {
          if findExecutable(compilers[i].path) != "" {
            return compilers[i];
          }
          i := i + 1;
        }
      } else {
        var i := 0;
        while i < |compilers|
          invariant 0 <= i <= |compilers|
          invariant forall j :: 0 <= j < i ==> compilers[j].name != compiler.value.name
        {
          if compilers[i].name == compiler.value.name {
            return compilers[i];
          }
          i := i + 1;
        }
      }
      return Dummy;
    }

    /** CompilerProvider::defines(item) */
    method Defines(item: Option<Item>, env: Env) returns (r: map<string, string>)
      ensures var config := ConfigFor(item, env);
        r == CompilerDefines(config.compiler, ArgumentsFor(config, LanguageOf(item, config, env)), env)
    {
      var config := ConfigForItem(item, env);
      var languageType := Cpp;
      if item.Some? {
        languageType := env.languageType(item.value.path, config.parserArguments.parseAmbiguousAsCPP);
      }
      r := CompilerDefines(config.compiler, if languageType == C then config.parserArguments.cArguments else config.parserArguments.cppArguments, env);
    }

    /** CompilerProvider::includes(item) */
    method Includes(item: Option<Item>, env: Env) returns (r: seq<Path>)
      ensures var config := ConfigFor(item, env);
        r == CompilerIncludes(config.compiler, ArgumentsFor(config, LanguageOf(item, config, env)), env)
    {
      var config := ConfigForItem(item, env);
      var languageType := Cpp;
      if item.Some? {
        languageType := env.languageType(item.value.path, config.parserArguments.parseAmbiguousAsCPP);
      }
      r := CompilerIncludes(config.compiler, if languageType == C then config.parserArguments.cArguments else config.parserArguments.cppArguments, env);
    }
  }
}
