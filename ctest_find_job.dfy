/**
 * The job that discovers the test cases of one CTest suite
 * (projectmanagers/cmake/testing/ctestfindjob.cpp): it either registers the
 * suite at once or runs the test executable with `-functions`, turns its
 * standard output into test-case names, asks the definition-use chain to
 * parse every source file of the suite, and registers the suite once the
 * last of those files is ready.
 *
 * The process, the file system and the definition-use chain are left out:
 * whether the executable exists and may run, its exit status and its output
 * are parameters, and what the job asks of the test controller, the process
 * and the chain is an event log.
 */
module CTestFindJob {
  import opened Text

  datatype Event =
    | SuiteAdded                                    // ITestController::addTestSuite
    | ResultEmitted                                 // KJob::emitResult
    | ProcessStarted(program: string, args: seq<string>)
    | UpdateRequested(file: string)                 // DUChain::updateContextForUrl
    | DeclarationsLoaded(document: string)          // CTestSuite::loadDeclarations

  /** Registering the suite always ends the job. */
  const Registered: seq<Event> := [SuiteAdded, ResultEmitted]

  /** The single argument that makes a QtTest executable list its test functions. */
  const FunctionsFlag: string := "-functions"

  /**
   * What findTestCases does: a suite with arguments, or one whose executable
   * is missing or may not run, is registered as it is; otherwise the
   * executable is started to list its test functions.
   */
  function FindEvents(arguments: seq<string>, fileExists: bool, isExecutable: bool, absolutePath: string): (r: seq<Event>)
    ensures arguments != [] ==> r == Registered
    ensures arguments == [] && fileExists && isExecutable ==> r == [ProcessStarted(absolutePath, [FunctionsFlag])]
    ensures arguments == [] && !(fileExists && isExecutable) ==> r == Registered
  {
    if arguments != [] then Registered
    else if fileExists && isExecutable then [ProcessStarted(absolutePath, [FunctionsFlag])]
    else Registered
  }

  /** One line of output turned into a candidate name: trimmed, then every "()" removed. */
  function CaseName(line: string): string {
    RemoveAll(Trim(line), "()")
  }

  /** The test-case names read off the output lines, in order, blank results dropped. */
  function CaseNames(lines: seq<string>): (r: seq<string>)
    ensures |r| <= |lines|
    ensures forall k :: 0 <= k < |r| ==> r[k] != []
  {
    if lines == [] then []
    else
      var rest := CaseNames(lines[..|lines| - 1]);
      var c := CaseName(lines[|lines| - 1]);
      if c == [] then rest else rest + [c]
  }

  /** Reading the output in two pieces yields the names of each piece, in order. */
  lemma {:induction false} CaseNamesAppend(a: seq<string>, b: seq<string>)
    ensures CaseNames(a + b) == CaseNames(a) + CaseNames(b)
    decreases |b|
  {
    if b == [] {
      assert a + b == a;
    } else {
      var b' := b[..|b| - 1];
      assert (a + b)[..|a + b| - 1] == a + b';
      assert (a + b)[|a + b| - 1] == b[|b| - 1];
      CaseNamesAppend(a, b');
    }
  }

  /** A name is listed exactly when it is non-empty and some line cleans up to it. */
  lemma {:induction false} CaseNamesMembers(lines: seq<string>, c: string)
    ensures c in CaseNames(lines) <==> c != [] && exists i :: 0 <= i < |lines| && CaseName(lines[i]) == c
  {
    if lines != [] {
      var init := lines[..|lines| - 1];
      CaseNamesMembers(init, c);
      if exists i :: 0 <= i < |lines| && CaseName(lines[i]) == c {
        var i :| 0 <= i < |lines| && CaseName(lines[i]) == c;
        if i < |lines| - 1 {
          assert init[i] == lines[i];
        }
      }
      if exists i :: 0 <= i < |init| && CaseName(init[i]) == c {
        var i :| 0 <= i < |init| && CaseName(init[i]) == c;
        assert lines[i] == init[i];
      }
    }
  }

  /** A QtTest function listing, the way `-functions` prints it, carriage return included. */
  lemma SignatureLine()
    ensures CaseName("run()\r") == "run"
  {
    var line := "run()\r";
    assert LeadingSpace(line) == 0;
    assert TrailingSpace(line[..5]) == 0;
    assert Trim(line) == "run()";
    assert "run()"[0..2][1] != "()"[1];
    assert "run()"[1..3][0] != "()"[0];
    assert "run()"[2..4][0] != "()"[0];
    assert "run()"[3..5] == "()";
    assert IndexOfFrom("run()", "()", 0) == Some(3);
    assert "run()"[..3] + "run()"[5..] == "run";
    assert IndexOfFrom("run", "()", 3) == None;
  }

  /**
   * QString::remove resumes its search where it removed an occurrence, so
   * nested parentheses leave a pair behind.
   */
  lemma NestedParenthesesRemain()
    ensures CaseName("(())") == "()"
  {
    assert Trim("(())") == "(())";
    assert "(())"[0..2][1] != "()"[1];
    assert "(())"[1..3] == "()";
    assert IndexOfFrom("(())", "()", 0) == Some(1);
    assert "(())"[..1] + "(())"[3..] == "()";
    assert IndexOfFrom("()", "()", 1) == None;
  }

  /** The update requests for the suite's source files, one per file, in order. */
  function UpdateRequests(files: seq<string>): (r: seq<Event>)
    ensures |r| == |files|
    ensures forall k :: 0 <= k < |files| ==> r[k] == UpdateRequested(files[k])
  {
    if files == [] then [] else [UpdateRequested(files[0])] + UpdateRequests(files[1..])
  }

  /** The pending list after the files in `documents` were reported ready, one after another. */
  function PendingAfter(pending: seq<string>, documents: seq<string>): seq<string>
    decreases |documents|
  {
    if documents == [] then pending else PendingAfter(Without(pending, documents[0]), documents[1..])
  }

  /** A file stays pending exactly when it was pending and has not been reported ready. */
  lemma {:induction false} PendingAfterMembers(pending: seq<string>, documents: seq<string>, f: string)
    ensures f in PendingAfter(pending, documents) <==> f in pending && f !in documents
    decreases |documents|
  {
    if documents != [] {
      PendingAfterMembers(Without(pending, documents[0]), documents[1..], f);
      assert documents == [documents[0]] + documents[1..];
    }
  }

  /** Once every pending file has been reported ready, in any order and with repeats, none is left. */
  lemma AllReadyEmpties(pending: seq<string>, documents: seq<string>)
    requires forall f :: f in pending ==> f in documents
    ensures PendingAfter(pending, documents) == []
  {
    var rest := PendingAfter(pending, documents);
    if rest != [] {
      PendingAfterMembers(pending, documents, rest[0]);
      assert false;
    }
  }

  /** processFinished's loop over the lines of standard output. */
  method ParseCases(output: string) returns (cases: seq<string>)
    ensures cases == CaseNames(Split(output, '\n'))
  {
    var lines := Split(output, '\n');
    cases := [];
    var i := 0;
    while i < |lines|
      invariant 0 <= i <= |lines|
      invariant cases == CaseNames(lines[..i])
    {
      var str := CaseName(lines[i]);
      assert lines[..i + 1][..i] == lines[..i];
      if str != [] {
        cases := cases + [str];
      }
      i := i + 1;
    }
    assert lines[..i] == lines;
  }

  class FindJob {
    /** The test cases recorded on the suite (CTestSuite::setTestCases). */
    var testCases: seq<string>
    /** m_pendingFiles: the source files not yet reported ready. */
    var pendingFiles: seq<string>
    var events: seq<Event>

    constructor (initialCases: seq<string>)
      ensures testCases == initialCases && pendingFiles == [] && events == []
    {
      testCases := initialCases;
      pendingFiles := [];
      events := [];
    }

    method FindTestCases(arguments: seq<string>, fileExists: bool, isExecutable: bool, absolutePath: string)
      modifies this`events
      ensures events == old(events) + FindEvents(arguments, fileExists, isExecutable, absolutePath)
    {
      if arguments != [] {
        events := events + Registered;
        return;
      }
      if fileExists && isExecutable {
        events := events + [ProcessStarted(absolutePath, [FunctionsFlag])];
      } else {
        events := events + Registered;
      }
    }

    /**
     * The process is done: on a normal exit its output replaces the suite's
     * test cases; then every source file becomes pending and is sent to the
     * chain, or, when there are none, the suite is registered.
     */
    method ProcessFinished(normalExit: bool, output: string, sourceFiles: seq<string>)
      modifies this
      ensures testCases == (if normalExit then CaseNames(Split(output, '\n')) else old(testCases))
      ensures pendingFiles == sourceFiles
      ensures events == old(events) + (if sourceFiles == [] then Registered else UpdateRequests(sourceFiles))
    {
      if normalExit {
        testCases := ParseCases(output);
      }
      pendingFiles := sourceFiles;
      if pendingFiles == [] {
        events := events + Registered;
      } else {
        RequestUpdates(pendingFiles);
      }
    }

    /** processFinished's loop asking the chain to parse every pending file. */
    method RequestUpdates(files: seq<string>)
      modifies this`events
      ensures events == old(events) + UpdateRequests(files)
    {
      for i := 0 to |files|
        invariant events == old(events) + UpdateRequests(files[..i])
      {
        UpdateRequestsAppend(files[..i], files[i]);
        assert files[..i + 1] == files[..i] + [files[i]];
        events := events + [UpdateRequested(files[i])];
      }
      assert files[..|files|] == files;
    }

    /** One source file is parsed: it stops being pending, and the last one registers the suite. */
    method UpdateReady(document: string)
      modifies this`pendingFiles, this`events
      ensures pendingFiles == Without(old(pendingFiles), document)
      ensures events == old(events) + [DeclarationsLoaded(document)] + (if pendingFiles == [] then Registered else [])
    {
      events := events + [DeclarationsLoaded(document)];
      pendingFiles := Without(pendingFiles, document);
      if pendingFiles == [] {
        events := events + Registered;
      }
    }
  }

  lemma UpdateRequestsAppend(files: seq<string>, f: string)
    ensures UpdateRequests(files + [f]) == UpdateRequests(files) + [UpdateRequested(f)]
  {
  }
}
