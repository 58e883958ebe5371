/**
 * GCC-like compilers as a source of standard defines and include paths
 * (languages/plugins/custom-definesandincludes/compilerprovider/gcclikecompiler.cpp):
 * the language and standard flags added to the user's arguments, the
 * parser of the `-E -v` include search list, and the per-argument cache.
 *
 * Running the compiler, KShell::splitArgs, QFileInfo::canonicalFilePath and
 * the `#define` regular expression are parameters.
 */
module GccLikeCompiler {
  import opened Text

  const MinusXC: string := "-xc"
  const MinusXCPlusPlus: string := "-xc++"
  const DefaultStandard: string := "-std=c++11"
  const NullDevice: string := "/dev/null"

  // ---------------------------------------------------------------------
  // languageOptions

  /** The unanchored match of `(c|gnu)\d.*`: a `c` or a `gnu` followed by a digit somewhere. */
  predicate NamesCStandard(version: string) {
    exists i: nat :: i < |version| && (
      (version[i] == 'c' && i + 1 < |version| && IsDigit(version[i + 1])) ||
      (OccursAt(version, "gnu", i) && i + 3 < |version| && IsDigit(version[i + 3])))
  }

  /** The language a `-std=` version implies, if it can be told. */
  function StandardLanguage(version: string): (r: Option<string>)
    ensures (StartsWith(version, "c++") || StartsWith(version, "gnu++")) ==> r == Some(MinusXCPlusPlus)
    ensures !(StartsWith(version, "c++") || StartsWith(version, "gnu++")) ==>
      (r == Some(MinusXC) <==> StartsWith(version, "iso9899:") || NamesCStandard(version)) &&
      (r.None? <==> !StartsWith(version, "iso9899:") && !NamesCStandard(version))
    ensures r.Some? ==> r.value == MinusXC || r.value == MinusXCPlusPlus
  {
    if StartsWith(version, "c++") || StartsWith(version, "gnu++") then Some(MinusXCPlusPlus)
    else if StartsWith(version, "iso9899:") then Some(MinusXC)
    else if NamesCStandard(version) then Some(MinusXC)
    else None
  }

  /** `-std=...` or `-ansi`: an argument that fixes the standard. */
  predicate IsStandardFlag(arg: string) {
    StartsWith(arg, "-std=") || arg == "-ansi"
  }

  /** An argument starting with `-x`: the language is given explicitly. */
  predicate IsLanguageFlag(arg: string) {
    StartsWith(arg, "-x")
  }

  /** The language a standard flag implies (`-ansi` implies none). */
  function FlagLanguage(arg: string): Option<string> {
    if StartsWith(arg, "-std=") then StandardLanguage(arg[5..]) else None
  }

  /** languageOptions' loop variables. */
  datatype LanguageScan = LanguageScan(language: string, languageDefined: bool, standardFlag: string)

  /** One iteration of languageOptions' loop. */
  function ScanArgument(st: LanguageScan, arguments: seq<string>, i: nat): LanguageScan
    requires i < |arguments|
  {
    var arg := arguments[i];
    if StartsWith(arg, "-std=") then
      st.(standardFlag := arg, language := FlagLanguage(arg).GetOr(st.language))
    else if arg == "-ansi" then st.(standardFlag := arg)
    else if StartsWith(arg, "-x") then
      if arg == "-x" then
        if i + 1 < |arguments| then st.(languageDefined := true, language := arg + arguments[i + 1])
        else st.(languageDefined := true)
      else st.(languageDefined := true, language := arg)
    else st
  }

  /** The loop variables after the first `n` arguments. */
  function Scanned(arguments: seq<string>, n: nat): LanguageScan
    requires n <= |arguments|
  {
    if n == 0 then LanguageScan("", false, "") else ScanArgument(Scanned(arguments, n - 1), arguments, n - 1)
  }

  /** What languageOptions appends after the loop. */
  function Appended(st: LanguageScan): seq<string> {
    if st.languageDefined then []
    else if st.language == [] then
      if st.standardFlag == [] then [DefaultStandard, MinusXCPlusPlus] else [MinusXCPlusPlus]
    else [st.language]
  }

  /** languageOptions */
  method LanguageOptions(arguments: seq<string>) returns (result: seq<string>)
    ensures result == arguments + Appended(Scanned(arguments, |arguments|))
    ensures StartsWith(result, arguments)
  {
    var language := "";
    var languageDefined := false;
    var standardFlag := "";
    result := arguments;
    var i := 0;
    while i < |arguments|
      invariant 0 <= i <= |arguments|
      invariant Scanned(arguments, i) == LanguageScan(language, languageDefined, standardFlag)
    {
      var arg := arguments[i];
      if StartsWith(arg, "-std=") {
        standardFlag := arg;
        var implied := StandardLanguage(arg[5..]);
        if implied.Some? {
          language := implied.value;
        }
      } else if arg == "-ansi" {
        standardFlag := arg;
      } else if StartsWith(arg, "-x") {
        languageDefined := true;
        if arg == "-x" {
          if i + 1 < |arguments| {
            language := arg + arguments[i + 1];
          }
        } else {
          language := arg;
        }
      }
      i := i + 1;
    }
    if !languageDefined {
      if language == [] {
        if standardFlag == [] {
          standardFlag := DefaultStandard;
          result := result + [standardFlag];
        }
        language := MinusXCPlusPlus;
      }
      result := result + [language];
    }
    assert result[..|arguments|] == arguments;
  }

  /** A `-x` argument and a standard flag are told apart by their second character. */
  lemma FlagKinds(arg: string)
    ensures IsLanguageFlag(arg) ==> !IsStandardFlag(arg)
  {
    if IsLanguageFlag(arg) {
      assert arg[1] == arg[..2][1] == 'x';
      if |arg| >= 5 {
        assert arg[..5][1] == 'x';
      }
    }
  }

  /** The language is defined exactly when some argument starts with `-x`. */
  lemma {:induction false} ScannedDefined(arguments: seq<string>, n: nat)
    requires n <= |arguments|
    ensures Scanned(arguments, n).languageDefined <==> exists i :: 0 <= i < n && IsLanguageFlag(arguments[i])
  {
    if n > 0 {
      ScannedDefined(arguments, n - 1);
      FlagKinds(arguments[n - 1]);
    }
  }

  /** Without `-std=` or `-ansi`, the standard flag stays empty. */
  lemma {:induction false} ScannedNoStandard(arguments: seq<string>, n: nat)
    requires n <= |arguments|
    requires forall i :: 0 <= i < n ==> !IsStandardFlag(arguments[i])
    ensures Scanned(arguments, n).standardFlag == []
  {
    if n > 0 {
      ScannedNoStandard(arguments, n - 1);
    }
  }

  /** The standard flag is the last `-std=` or `-ansi` argument. */
  lemma {:induction false} ScannedStandard(arguments: seq<string>, n: nat, k: nat)
    requires k < n <= |arguments| && IsStandardFlag(arguments[k])
    requires forall j :: k < j < n ==> !IsStandardFlag(arguments[j])
    ensures Scanned(arguments, n).standardFlag == arguments[k]
  {
    if k < n - 1 {
      ScannedStandard(arguments, n - 1, k);
      FlagKinds(arguments[n - 1]);
    } else {
      FlagKinds(arguments[k]);
    }
  }

  /** Without `-x` and without a language-implying standard flag, the language stays empty. */
  lemma {:induction false} ScannedNoLanguage(arguments: seq<string>, n: nat)
    requires n <= |arguments|
    requires forall i :: 0 <= i < n ==> !IsLanguageFlag(arguments[i]) && FlagLanguage(arguments[i]).None?
    ensures Scanned(arguments, n).language == []
  {
    if n > 0 {
      ScannedNoLanguage(arguments, n - 1);
    }
  }

  /** Without `-x`, the language is the one implied by the last standard flag that implies one. */
  lemma {:induction false} ScannedLanguage(arguments: seq<string>, n: nat, k: nat)
    requires k < n <= |arguments| && FlagLanguage(arguments[k]).Some?
    requires forall i :: 0 <= i < n ==> !IsLanguageFlag(arguments[i])
    requires forall j :: k < j < n ==> FlagLanguage(arguments[j]).None?
    ensures Scanned(arguments, n).language == FlagLanguage(arguments[k]).value
  {
    if k < n - 1 {
      ScannedLanguage(arguments, n - 1, k);
    }
  }

  /** An explicit `-x` language, joined or split, suppresses every addition. */
  lemma ExplicitLanguage(arguments: seq<string>)
    requires exists i :: 0 <= i < |arguments| && IsLanguageFlag(arguments[i])
    ensures Appended(Scanned(arguments, |arguments|)) == []
  {
    ScannedDefined(arguments, |arguments|);
  }

  /** No language and no standard at all: C++11 is assumed, then C++. */
  lemma AssumedCPlusPlus(arguments: seq<string>)
    requires forall i :: 0 <= i < |arguments| ==> !IsLanguageFlag(arguments[i]) && !IsStandardFlag(arguments[i])
    ensures Appended(Scanned(arguments, |arguments|)) == [DefaultStandard, MinusXCPlusPlus]
  {
    var n := |arguments|;
    ScannedDefined(arguments, n);
    ScannedNoStandard(arguments, n);
    ScannedNoLanguage(arguments, n);
  }

  /** A standard flag that implies no language (such as `-ansi`) keeps the standard and adds only `-xc++`. */
  lemma StandardWithoutLanguage(arguments: seq<string>, k: nat)
    requires k < |arguments| && IsStandardFlag(arguments[k])
    requires forall i :: 0 <= i < |arguments| ==> !IsLanguageFlag(arguments[i]) && FlagLanguage(arguments[i]).None?
    ensures Appended(Scanned(arguments, |arguments|)) == [MinusXCPlusPlus]
  {
    var n := |arguments|;
    ScannedDefined(arguments, n);
    ScannedNoLanguage(arguments, n);
    ScannedStandardNonEmpty(arguments, n, k);
  }

  /** Some standard flag was seen, so the standard flag is not empty. */
  lemma {:induction false} ScannedStandardNonEmpty(arguments: seq<string>, n: nat, k: nat)
    requires k < n <= |arguments| && IsStandardFlag(arguments[k])
    ensures Scanned(arguments, n).standardFlag != []
  {
    if k < n - 1 {
      ScannedStandardNonEmpty(arguments, n - 1, k);
      FlagKinds(arguments[n - 1]);
    } else {
      FlagKinds(arguments[k]);
    }
  }

  /** Without `-x`, the last language-implying standard flag decides: `-std=c++*` gives `-xc++`, a C standard `-xc`. */
  lemma LastStandardWins(arguments: seq<string>, k: nat)
    requires k < |arguments| && FlagLanguage(arguments[k]).Some?
    requires forall i :: 0 <= i < |arguments| ==> !IsLanguageFlag(arguments[i])
    requires forall j :: k < j < |arguments| ==> FlagLanguage(arguments[j]).None?
    ensures Appended(Scanned(arguments, |arguments|)) == [FlagLanguage(arguments[k]).value]
  {
    var n := |arguments|;
    ScannedDefined(arguments, n);
    ScannedLanguage(arguments, n, k);
  }

  /** `-std=c11`, `-std=gnu99` and `-std=iso9899:1999` name C. */
  lemma CStandards()
    ensures StandardLanguage("c11") == Some(MinusXC)
    ensures StandardLanguage("gnu99") == Some(MinusXC)
    ensures StandardLanguage("iso9899:1999") == Some(MinusXC)
  {
    assert "c11"[0] == 'c' && IsDigit("c11"[1]);
    assert NamesCStandard("c11");
    assert OccursAt("gnu99", "gnu", 0) && IsDigit("gnu99"[3]);
    assert NamesCStandard("gnu99");
    assert "iso9899:1999"[..8] == "iso9899:";
    assert "iso9899:1999"[0] != 'c' && "iso9899:1999"[0] != 'g';
  }

  // ---------------------------------------------------------------------
  // includes: the search-list parser

  const QuoteSearch: string := "#include \"...\""
  const AngleSearch: string := "#include <...>"

  datatype Status = Initial | FirstSearch | Includes | Finished

  /** The Includes case of the switch: a line led by a space is a path, any other line ends the list. */
  function Collect(mode: Status, line: string, canonical: string -> string): (Status, Option<string>) {
    if !StartsWith(line, " ") then (Finished, None) else (mode, Some(canonical(Trim(line))))
  }

  /** One iteration of the switch; FirstSearch falls through to Includes unless the line opens the `<...>` list. */
  function IncludeStep(mode: Status, line: string, canonical: string -> string): (r: (Status, Option<string>))
    ensures r.1.Some? ==> StartsWith(line, " ") && r.1.value == canonical(Trim(line)) && r.0 == mode
    ensures mode == FirstSearch && !Contains(line, AngleSearch) ==> r == Collect(mode, line, canonical)
  {
    match mode
    case Initial => (if Contains(line, QuoteSearch) then FirstSearch else Initial, None)
    case FirstSearch => if Contains(line, AngleSearch) then (Includes, None) else Collect(mode, line, canonical)
    case Includes => Collect(mode, line, canonical)
    case Finished => (Finished, None)
  }

  /** The mode and the collected paths after the first `n` lines. */
  function ScanIncludes(lines: seq<string>, n: nat, canonical: string -> string): (Status, seq<string>)
    requires n <= |lines|
  {
    if n == 0 then (Initial, [])
    else
      var (mode, paths) := ScanIncludes(lines, n - 1, canonical);
      var (next, path) := IncludeStep(mode, lines[n - 1], canonical);
      (next, if path.Some? then paths + [path.value] else paths)
  }

  /** One more line: the step is applied to the mode reached so far. */
  lemma ScanStep(lines: seq<string>, n: nat, canonical: string -> string)
    requires n < |lines|
    ensures var step := IncludeStep(ScanIncludes(lines, n, canonical).0, lines[n], canonical);
      ScanIncludes(lines, n + 1, canonical) ==
        (step.0, if step.1.Some? then ScanIncludes(lines, n, canonical).1 + [step.1.value] else ScanIncludes(lines, n, canonical).1)
  {
  }

  /** Once Finished, no later line changes anything. */
  lemma {:induction false} FinishedStays(lines: seq<string>, k: nat, n: nat, canonical: string -> string)
    requires k <= n <= |lines|
    requires ScanIncludes(lines, k, canonical).0 == Finished
    ensures ScanIncludes(lines, n, canonical) == ScanIncludes(lines, k, canonical)
  {
    if k < n {
      FinishedStays(lines, k, n - 1, canonical);
    }
  }

  /** Without the `"..."` marker nothing is collected. */
  lemma {:induction false} NoMarkerNoPaths(lines: seq<string>, n: nat, canonical: string -> string)
    requires n <= |lines|
    requires forall i :: 0 <= i < n ==> !Contains(lines[i], QuoteSearch)
    ensures ScanIncludes(lines, n, canonical) == (Initial, [])
  {
    if n > 0 {
      NoMarkerNoPaths(lines, n - 1, canonical);
    }
  }

  /** Every collected path is the canonical form of a trimmed space-led line, and no line gives two. */
  lemma {:induction false} CollectedFromLines(lines: seq<string>, n: nat, canonical: string -> string)
    requires n <= |lines|
    ensures |ScanIncludes(lines, n, canonical).1| <= n
    ensures forall p :: p in ScanIncludes(lines, n, canonical).1 ==>
      exists i :: 0 <= i < n && StartsWith(lines[i], " ") && p == canonical(Trim(lines[i]))
  {
    if n > 0 {
      CollectedFromLines(lines, n - 1, canonical);
    }
  }

  /** The paths the lines `from` up to `to` contribute. */
  function CanonicalPaths(lines: seq<string>, lo: nat, hi: nat, canonical: string -> string): seq<string>
    requires lo <= hi <= |lines|
    decreases hi
  {
    if lo == hi then [] else CanonicalPaths(lines, lo, hi - 1, canonical) + [canonical(Trim(lines[hi - 1]))]
  }

  /** A collected line keeps the mode. */
  lemma CollectLine(mode: Status, line: string, canonical: string -> string)
    requires mode == FirstSearch || mode == Includes
    requires StartsWith(line, " ")
    requires mode == FirstSearch ==> !Contains(line, AngleSearch)
    ensures IncludeStep(mode, line, canonical) == (mode, Some(canonical(Trim(line))))
  {
  }

  /** A collected line extends the paths and keeps the mode. */
  lemma CollectedLine(lines: seq<string>, n: nat, canonical: string -> string)
    requires n < |lines|
    requires ScanIncludes(lines, n, canonical).0 == FirstSearch || ScanIncludes(lines, n, canonical).0 == Includes
    requires StartsWith(lines[n], " ")
    requires ScanIncludes(lines, n, canonical).0 == FirstSearch ==> !Contains(lines[n], AngleSearch)
    ensures ScanIncludes(lines, n + 1, canonical) ==
      (ScanIncludes(lines, n, canonical).0, ScanIncludes(lines, n, canonical).1 + [canonical(Trim(lines[n]))])
  {
    ScanStep(lines, n, canonical);
    CollectLine(ScanIncludes(lines, n, canonical).0, lines[n], canonical);
  }

  /** In Initial, lines without the `"..."` marker are skipped. */
  lemma {:induction false} SkipToMarker(lines: seq<string>, n: nat, canonical: string -> string)
    requires n <= |lines|
    requires forall i :: 0 <= i < n ==> !Contains(lines[i], QuoteSearch)
    ensures ScanIncludes(lines, n, canonical) == (Initial, [])
  {
    if n > 0 {
      SkipToMarker(lines, n - 1, canonical);
    }
  }

  /** One more space-led line at the end of a collected run. */
  lemma CollectRunStep(lines: seq<string>, from: nat, to: nat, canonical: string -> string)
    requires from < to <= |lines|
    requires ScanIncludes(lines, from, canonical).0 == FirstSearch || ScanIncludes(lines, from, canonical).0 == Includes
    requires StartsWith(lines[to - 1], " ")
    requires ScanIncludes(lines, from, canonical).0 == FirstSearch ==> !Contains(lines[to - 1], AngleSearch)
    requires ScanIncludes(lines, to - 1, canonical) ==
      (ScanIncludes(lines, from, canonical).0, ScanIncludes(lines, from, canonical).1 + CanonicalPaths(lines, from, to - 1, canonical))
    ensures ScanIncludes(lines, to, canonical) ==
      (ScanIncludes(lines, from, canonical).0, ScanIncludes(lines, from, canonical).1 + CanonicalPaths(lines, from, to, canonical))
  {
    var prev := ScanIncludes(lines, from, canonical).1;
    var run := CanonicalPaths(lines, from, to - 1, canonical);
    CollectedLine(lines, to - 1, canonical);
    assert (prev + run) + [canonical(Trim(lines[to - 1]))] == prev + (run + [canonical(Trim(lines[to - 1]))]);
  }

  /**
   * From FirstSearch or Includes, a run of space-led lines is collected
   * in order (in FirstSearch only while no line opens the `<...>` list).
   */
  lemma {:induction false} CollectRun(lines: seq<string>, from: nat, to: nat, canonical: string -> string)
    requires from <= to <= |lines|
    requires ScanIncludes(lines, from, canonical).0 == FirstSearch || ScanIncludes(lines, from, canonical).0 == Includes
    requires forall i :: from <= i < to ==> StartsWith(lines[i], " ")
    requires ScanIncludes(lines, from, canonical).0 == FirstSearch ==>
      forall i :: from <= i < to ==> !Contains(lines[i], AngleSearch)
    ensures ScanIncludes(lines, to, canonical) ==
      (ScanIncludes(lines, from, canonical).0, ScanIncludes(lines, from, canonical).1 + CanonicalPaths(lines, from, to, canonical))
  {
    if from < to {
      CollectRun(lines, from, to - 1, canonical);
      CollectRunStep(lines, from, to, canonical);
    } else {
      assert ScanIncludes(lines, from, canonical).1 + [] == ScanIncludes(lines, from, canonical).1;
    }
  }

  /** The lines before the `<...>` marker: the quoted list is collected. */
  lemma QuotedList(lines: seq<string>, k: nat, g: nat, canonical: string -> string)
    requires k < g < |lines|
    requires forall i :: 0 <= i < k ==> !Contains(lines[i], QuoteSearch)
    requires Contains(lines[k], QuoteSearch)
    requires forall i :: k < i < g ==> StartsWith(lines[i], " ") && !Contains(lines[i], AngleSearch)
    ensures ScanIncludes(lines, g, canonical) == (FirstSearch, CanonicalPaths(lines, k + 1, g, canonical))
  {
    SkipToMarker(lines, k, canonical);
    EnterFirstSearch(lines, k, canonical);
    CollectRun(lines, k + 1, g, canonical);
    assert [] + CanonicalPaths(lines, k + 1, g, canonical) == CanonicalPaths(lines, k + 1, g, canonical);
  }

  /** From the `<...>` marker to the first line not led by a space. */
  lemma AngleList(lines: seq<string>, g: nat, e: nat, a: seq<string>, canonical: string -> string)
    requires g < e < |lines|
    requires ScanIncludes(lines, g, canonical) == (FirstSearch, a)
    requires Contains(lines[g], AngleSearch)
    requires forall i :: g < i < e ==> StartsWith(lines[i], " ")
    requires |lines[e]| == 0 || lines[e][0] != ' '
    ensures ScanIncludes(lines, e + 1, canonical).0 == Finished
    ensures ScanIncludes(lines, e + 1, canonical).1 == a + CanonicalPaths(lines, g + 1, e, canonical)
  {
    EnterIncludes(lines, g, canonical);
    CollectRun(lines, g + 1, e, canonical);
    assert !StartsWith(lines[e], " ") by {
      if |lines[e]| > 0 { assert lines[e][..1][0] == lines[e][0]; }
    }
    EndOfList(lines, e, canonical);
  }

  /**
   * gcc's `-v` output: the lines after the `"..."` marker and those after
   * the `<...>` marker are collected, in order, and the first line after
   * them that does not start with a space ends the scan.
   */
  lemma SearchList(lines: seq<string>, k: nat, g: nat, e: nat, canonical: string -> string)
    requires k < g < e < |lines|
    requires forall i :: 0 <= i < k ==> !Contains(lines[i], QuoteSearch)
    requires Contains(lines[k], QuoteSearch)
    requires forall i :: k < i < g ==> StartsWith(lines[i], " ") && !Contains(lines[i], AngleSearch)
    requires Contains(lines[g], AngleSearch)
    requires forall i :: g < i < e ==> StartsWith(lines[i], " ")
    requires |lines[e]| == 0 || lines[e][0] != ' '
    ensures ScanIncludes(lines, |lines|, canonical).1 ==
      CanonicalPaths(lines, k + 1, g, canonical) + CanonicalPaths(lines, g + 1, e, canonical)
  {
    QuotedList(lines, k, g, canonical);
    AngleList(lines, g, e, CanonicalPaths(lines, k + 1, g, canonical), canonical);
    FinishedStays(lines, e + 1, |lines|, canonical);
  }

  /** The `"..."` marker starts the first list. */
  lemma EnterFirstSearch(lines: seq<string>, n: nat, canonical: string -> string)
    requires n < |lines|
    requires ScanIncludes(lines, n, canonical).0 == Initial
    requires Contains(lines[n], QuoteSearch)
    ensures ScanIncludes(lines, n + 1, canonical) == (FirstSearch, ScanIncludes(lines, n, canonical).1)
  {
    ScanStep(lines, n, canonical);
  }

  /** The `<...>` marker, met in the first list, starts the second. */
  lemma EnterIncludes(lines: seq<string>, n: nat, canonical: string -> string)
    requires n < |lines|
    requires ScanIncludes(lines, n, canonical).0 == FirstSearch
    requires Contains(lines[n], AngleSearch)
    ensures ScanIncludes(lines, n + 1, canonical) == (Includes, ScanIncludes(lines, n, canonical).1)
  {
    ScanStep(lines, n, canonical);
  }

  /** In the second list, a line not led by a space ends the scan. */
  lemma EndOfList(lines: seq<string>, n: nat, canonical: string -> string)
    requires n < |lines|
    requires ScanIncludes(lines, n, canonical).0 == Includes
    requires !StartsWith(lines[n], " ")
    ensures ScanIncludes(lines, n + 1, canonical) == (Finished, ScanIncludes(lines, n, canonical).1)
  {
    ScanStep(lines, n, canonical);
  }

  /** The include loop, which stops at Finished. */
  method ParseIncludes(lines: seq<string>, canonical: string -> string) returns (paths: seq<string>)
    ensures paths == ScanIncludes(lines, |lines|, canonical).1
  {
    var mode := Initial;
    paths := [];
    var i := 0;
    while i < |lines|
      invariant 0 <= i <= |lines|
      invariant ScanIncludes(lines, i, canonical) == (mode, paths)
    {
      var step := IncludeStep(mode, lines[i], canonical);
      ScanStep(lines, i, canonical);
      mode := step.0;
      if step.1.Some? {
        paths := paths + [step.1.value];
      }
      i := i + 1;
      if mode == Finished {
        FinishedStays(lines, i, |lines|, canonical);
        return;
      }
    }
  }

  // ---------------------------------------------------------------------
  // defines and includes with their cache

  /** One m_definesIncludes entry. */
  datatype DefinesIncludes = DefinesIncludes(definedMacros: map<string, string>, includePaths: seq<string>)

  const EmptyEntry: DefinesIncludes := DefinesIncludes(map[], [])

  /** QHash::value: the entry, or an empty one. */
  function Entry(cache: map<string, DefinesIncludes>, arguments: string): DefinesIncludes {
    if arguments in cache then cache[arguments] else EmptyEntry
  }

  /** The macros after the first `n` output lines went through the `#define` match. */
  function MacrosOf(base: map<string, string>, lines: seq<string>, n: nat,
                    defineMatch: string -> Option<(string, string)>): map<string, string>
    requires n <= |lines|
  {
    if n == 0 then base
    else
      var m := MacrosOf(base, lines, n - 1, defineMatch);
      match defineMatch(lines[n - 1])
      case None => m
      case Some((name, value)) => m[name := Trim(value)]
  }

  /** The `while (proc.canReadLine())` loop. */
  method CollectMacros(base: map<string, string>, lines: seq<string>, defineMatch: string -> Option<(string, string)>)
    returns (macros: map<string, string>)
    ensures macros == MacrosOf(base, lines, |lines|, defineMatch)
  {
    macros := base;
    var i := 0;
    while i < |lines|
      invariant 0 <= i <= |lines|
      invariant macros == MacrosOf(base, lines, i, defineMatch)
    {
      var m := defineMatch(lines[i]);
      if m.Some? {
        macros := macros[m.value.0 := Trim(m.value.1)];
      }
      i := i + 1;
    }
  }

  /** The compiler arguments: the split user arguments with languageOptions applied, then the mode flags. */
  function CompilerArguments(split: seq<string>, mode: seq<string>): seq<string> {
    split + Appended(Scanned(split, |split|)) + mode + [NullDevice]
  }

  /** GccLikeCompiler::defines: the returned macros and the new cache. */
  function DefinesFor(cache: map<string, DefinesIncludes>, arguments: string, split: seq<string>,
                      readLines: seq<string> -> Option<seq<string>>,
                      defineMatch: string -> Option<(string, string)>): (DefinesIncludes, map<string, string>, map<string, DefinesIncludes>)
  {
    var cached := Entry(cache, arguments);
    if cached.definedMacros != map[] then (cached, cached.definedMacros, cache)
    else
      match readLines(CompilerArguments(split, ["-dM", "-E"]))
      case None => (cached, map[], cache)
      case Some(lines) =>
        var e := cached.(definedMacros := MacrosOf(cached.definedMacros, lines, |lines|, defineMatch));
        (e, e.definedMacros, cache[arguments := e])
  }

  /** GccLikeCompiler::includes: the returned paths and the new cache. */
  function IncludesFor(cache: map<string, DefinesIncludes>, arguments: string, split: seq<string>,
                       readAll: seq<string> -> Option<string>, canonical: string -> string): (seq<string>, map<string, DefinesIncludes>)
  {
    var cached := Entry(cache, arguments);
    if cached.includePaths != [] then (cached.includePaths, cache)
    else
      match readAll(CompilerArguments(split, ["-E", "-v"]))
      case None => ([], cache)
      case Some(out) =>
        var lines := Split(out, '\n');
        var e := cached.(includePaths := cached.includePaths + ScanIncludes(lines, |lines|, canonical).1);
        (e.includePaths, cache[arguments := e])
  }

  /** A non-empty cached answer does not depend on the compiler at all and leaves the cache alone. */
  lemma CachedDefinesSkipCompiler(cache: map<string, DefinesIncludes>, arguments: string, split: seq<string>,
                                  run1: seq<string> -> Option<seq<string>>, run2: seq<string> -> Option<seq<string>>,
                                  defineMatch: string -> Option<(string, string)>)
    requires Entry(cache, arguments).definedMacros != map[]
    ensures DefinesFor(cache, arguments, split, run1, defineMatch) == DefinesFor(cache, arguments, split, run2, defineMatch)
    ensures DefinesFor(cache, arguments, split, run1, defineMatch).2 == cache
  {
  }

  /** A run that found macros is cached, and asking again gives the same answer from the cache. */
  lemma DefinesAgainFromCache(cache: map<string, DefinesIncludes>, arguments: string, split: seq<string>,
                              run1: seq<string> -> Option<seq<string>>, run2: seq<string> -> Option<seq<string>>,
                              defineMatch: string -> Option<(string, string)>)
    requires DefinesFor(cache, arguments, split, run1, defineMatch).1 != map[]
    ensures var (_, r, c) := DefinesFor(cache, arguments, split, run1, defineMatch);
      DefinesFor(c, arguments, split, run2, defineMatch).1 == r && DefinesFor(c, arguments, split, run2, defineMatch).2 == c
  {
    var (_, r, c) := DefinesFor(cache, arguments, split, run1, defineMatch);
    assert Entry(c, arguments).definedMacros == r;
  }

  /** The same for include paths. */
  lemma IncludesAgainFromCache(cache: map<string, DefinesIncludes>, arguments: string, split: seq<string>,
                               run1: seq<string> -> Option<string>, run2: seq<string> -> Option<string>,
                               canonical: string -> string)
    requires IncludesFor(cache, arguments, split, run1, canonical).0 != []
    ensures IncludesFor(IncludesFor(cache, arguments, split, run1, canonical).1, arguments, split, run2, canonical) ==
      IncludesFor(cache, arguments, split, run1, canonical)
  {
    var (r, c) := IncludesFor(cache, arguments, split, run1, canonical);
    assert Entry(c, arguments).includePaths == r;
  }

  /** A GCC-like compiler with its cache of defines and include paths per argument string. */
  class Compiler {
    const name: string
    const path: string
    const additionalArguments: string
    var cache: map<string, DefinesIncludes>

    constructor (name: string, path: string, additionalArguments: string)
      ensures this.name == name && this.path == path && this.additionalArguments == additionalArguments
      ensures cache == map[]
    {
      this.name := name;
      this.path := path;
      this.additionalArguments := additionalArguments;
      cache := map[];
    }

    /**
     * defines(arguments). `splitArgs` is KShell::splitArgs, `readLines`
     * the lines of the compiler started on `path` with the given arguments
     * (None when it does not start or finish in time).
     */
    method Defines(arguments: string, splitArgs: string -> seq<string>,
                   readLines: seq<string> -> Option<seq<string>>,
                   defineMatch: string -> Option<(string, string)>) returns (r: map<string, string>)
      modifies this
      ensures var (_, macros, c) := DefinesFor(old(cache), arguments, splitArgs(additionalArguments + " " + arguments), readLines, defineMatch);
        r == macros && cache == c
    {
      var cached := Entry(cache, arguments);
      if cached.definedMacros != map[] {
        return cached.definedMacros;
      }
      var split := splitArgs(additionalArguments + " " + arguments);
      var compilerArguments := LanguageOptions(split);
      compilerArguments := compilerArguments + ["-dM", "-E"] + [NullDevice];
      assert compilerArguments == CompilerArguments(split, ["-dM", "-E"]);
      var output := readLines(compilerArguments);
      if output.None? {
        return map[];
      }
      var macros := CollectMacros(cached.definedMacros, output.value, defineMatch);
      cache := cache[arguments := cached.(definedMacros := macros)];
      r := cache[arguments].definedMacros;
    }

    /** includes(arguments), with `readAll` the compiler's whole output. */
    method Includes(arguments: string, splitArgs: string -> seq<string>,
                    readAll: seq<string> -> Option<string>, canonical: string -> string) returns (r: seq<string>)
      modifies this
      ensures (r, cache) == IncludesFor(old(cache), arguments, splitArgs(additionalArguments + " " + arguments), readAll, canonical)
    {
      var cached := Entry(cache, arguments);
      if cached.includePaths != [] {
        return cached.includePaths;
      }
      var split := splitArgs(additionalArguments + " " + arguments);
      var compilerArguments := LanguageOptions(split);
      compilerArguments := compilerArguments + ["-E", "-v"] + [NullDevice];
      assert compilerArguments == CompilerArguments(split, ["-E", "-v"]);
      var output := readAll(compilerArguments);
      if output.None? {
        return [];
      }
      var found := ParseIncludes(Split(output.value, '\n'), canonical);
      cache := cache[arguments := cached.(includePaths := cached.includePaths + found)];
      r := cache[arguments].includePaths;
    }
  }
}
