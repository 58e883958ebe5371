/**
 * The low-level MI debugger connection (debuggers/common/midebugger.cpp):
 * it frames the debugger's standard output into lines, hands each line to
 * the MI record parser, correlates Result records with the one command in
 * flight and broadcasts Async and Stream records.
 *
 * The record parser is a parameter (`parse`); the process, the dialogs and
 * the Qt signals are replaced by an event log.
 */
module MIDebugger {
  import opened Text

  newtype Byte = x: int | 0 <= x < 256

  const NewLine: Byte := 10

  /** The MI value grammar, carried as an opaque payload. */
  datatype Value = Literal(text: string) | Tuple(fields: seq<(string, Value)>) | List(items: seq<Value>)

  datatype AsyncKind = Exec | Notify | Status
  datatype StreamKind = Console | Target | Log

  /** One parsed line of MI output. */
  datatype Record =
    | Result(token: nat, reason: string, payload: Value)
    | Async(asyncKind: AsyncKind, reason: string, payload: Value)
    | Stream(streamKind: StreamKind, message: string)
    | Prompt

  /**
   * An outbound command. `handlerVerdict` is what the command's
   * invokeHandler answers when it is called for an error reply, and
   * `handlerThrows` whether invokeHandler throws once called
   * (micommand.cpp is not part of this model).
   */
  datatype Command = Command(token: nat, text: string, isUser: bool,
                             handlesError: bool, handlerVerdict: bool, handlerThrows: bool, submitted: bool)

  /**
   * What ends in processLine's catch: the two protocol violations, and a
   * reply handler that threw.
   */
  datatype FatalError = NoPendingCommand(received: nat) | TokenMismatch(pending: nat, received: nat) | HandlerFailed(token: nat)

  datatype ExitReason = ProcessExited | FailedToStart | ProcessCrashed | InternalError(cause: FatalError)

  datatype ProcessError = StartFailure | Crash | OtherProcessError

  /** Signals, dialogs and writes, in the order the source performs them. */
  datatype Event =
    | Written(text: string)
    | UserCommandOutput(text: string)
    | InternalCommandOutput(text: string)
    | ReplyEcho(user: bool, line: seq<Byte>)
    | Completed(token: nat)
    | HandlerInvoked(token: nat, result: Record)
    | ErrorReported(result: Record)
    | Ready
    | ProgramStopped(record: Record)
    | ProgramRunning
    | Notification(record: Record)
    | ApplicationOutput(text: string)
    | DebuggerInternalOutput(text: string)
    | NewOutput(token: nat, text: string)
    | StreamEmitted(record: Record)
    | InternalErrorDialog(cause: FatalError, line: seq<Byte>)
    | ProcessErrorDialog(error: ProcessError)
    | Exited(abnormal: bool, reason: ExitReason)

  /** The command slot after a line, and the events the line produced. */
  datatype Outcome = Outcome(current: Option<Command>, events: seq<Event>)

  predicate IsSuccessReason(reason: string) {
    reason == "done" || reason == "running" || reason == "exit"
  }

  /** A Result record that the correlator must reject. */
  predicate IsStrayResult(current: Option<Command>, rec: Record) {
    rec.Result? && (current.None? || current.value.token != rec.token)
  }

  /** A Result record that answers the command in flight. */
  predicate IsMatchingResult(current: Option<Command>, rec: Record) {
    rec.Result? && current.Some? && current.value.token == rec.token
  }

  function Fatal(current: Option<Command>, token: nat): FatalError
  {
    if current.None? then NoPendingCommand(token) else TokenMismatch(current.value.token, token)
  }

  /** A matching Result calls the handler on success, and on error when the command handles errors. */
  predicate HandlerCalled(cmd: Command, rec: Record)
    requires rec.Result?
  {
    IsSuccessReason(rec.reason) || (rec.reason == "error" && cmd.handlesError)
  }

  /** The reply handler is called and throws. */
  predicate HandlerThrows(cmd: Command, rec: Record)
    requires rec.Result?
  {
    cmd.handlerThrows && HandlerCalled(cmd, rec)
  }

  /** The catch block: the internal-error dialog, then the session ends abnormally. */
  function Aborted(cause: FatalError, line: seq<Byte>): seq<Event>
  {
    [InternalErrorDialog(cause, line), Exited(true, InternalError(cause))]
  }

  /** What a matching Result does to its command: completion, handler, error signal. */
  function Completion(cmd: Command, rec: Record): (evs: seq<Event>)
    requires rec.Result?
    ensures IsSuccessReason(rec.reason) ==> HandlerInvoked(cmd.token, rec) in evs && ErrorReported(rec) !in evs
    ensures rec.reason == "error" ==> (ErrorReported(rec) in evs <==> !(cmd.handlesError && cmd.handlerVerdict))
    ensures rec.reason == "error" ==> (HandlerInvoked(cmd.token, rec) in evs <==> cmd.handlesError)
    ensures Ready !in evs
  {
    if IsSuccessReason(rec.reason) then
      [Completed(cmd.token), HandlerInvoked(cmd.token, rec)]
    else if rec.reason == "error" then
      [Completed(cmd.token)]
      + (if cmd.handlesError then [HandlerInvoked(cmd.token, rec)] else [])
      + (if cmd.handlesError && cmd.handlerVerdict then [] else [ErrorReported(rec)])
    else
      []
  }

  function ConsoleOutput(current: Option<Command>, msg: string): Event
  {
    if current.Some? && current.value.isUser then UserCommandOutput(msg) else InternalCommandOutput(msg)
  }

  /** The events an Async or Stream record broadcasts. */
  function Broadcast(current: Option<Command>, rec: Record): (evs: seq<Event>)
    requires rec.Async? || rec.Stream?
    ensures Ready !in evs
    ensures rec.Async? && rec.asyncKind == Exec && rec.reason == "stopped" ==> evs == [ProgramStopped(rec)]
    ensures rec.Async? && rec.asyncKind == Exec && rec.reason == "running" ==> evs == [ProgramRunning]
    ensures rec.Async? && rec.asyncKind == Notify ==> evs == [Notification(rec)]
    ensures rec.Async? && rec.asyncKind == Status ==> evs == []
    ensures rec.Stream? && rec.streamKind == Console && current.Some? ==> NewOutput(current.value.token, rec.message) in evs
    ensures rec.Stream? && current.None? ==> forall e :: e in evs ==> !e.NewOutput?
    ensures rec.Stream? ==> |evs| > 0 && evs[|evs| - 1] == StreamEmitted(rec)
  {
    match rec
    case Async(kind, reason, _) =>
      (match kind
       case Exec =>
         if reason == "stopped" then [ProgramStopped(rec)]
         else if reason == "running" then [ProgramRunning]
         else []
       case Notify => [Notification(rec)]
       case Status => [])
    case Stream(kind, msg) =>
      (match kind
       case Target => [ApplicationOutput(msg)]
       case Console =>
         [ConsoleOutput(current, msg)] + (if current.Some? then [NewOutput(current.value.token, msg)] else [])
       case Log => [DebuggerInternalOutput(msg)])
      + [StreamEmitted(rec)]
  }

  /** processLine: the command slot after `line` and the events it emits. */
  function Dispatch(current: Option<Command>, line: seq<Byte>, parse: seq<Byte> -> Option<Record>): (r: Outcome)
    // an unparseable line is dropped without touching the command slot
    ensures parse(line).None? ==> r == Outcome(current, [])
    // a stray Result is fatal: the session ends, the slot is kept and ready is not emitted
    ensures parse(line).Some? && IsStrayResult(current, parse(line).value) ==>
              r.current == current && Ready !in r.events && |r.events| > 0 &&
              r.events[|r.events| - 1] == Exited(true, InternalError(Fatal(current, parse(line).value.token)))
    // a matching Result whose handler returns frees the slot and emits ready exactly once, last
    ensures parse(line).Some? && IsMatchingResult(current, parse(line).value) &&
            !HandlerThrows(current.value, parse(line).value) ==>
              r.current.None? && |r.events| > 0 && r.events[|r.events| - 1] == Ready &&
              Ready !in r.events[..|r.events| - 1] &&
              r.events == [ReplyEcho(current.value.isUser, line)] + Completion(current.value, parse(line).value) + [Ready]
    // a handler that throws ends the session: the command stays in flight and ready is not emitted
    ensures parse(line).Some? && IsMatchingResult(current, parse(line).value) &&
            HandlerThrows(current.value, parse(line).value) ==>
              r.current == current && Ready !in r.events &&
              HandlerInvoked(current.value.token, parse(line).value) in r.events && |r.events| > 0 &&
              r.events[|r.events| - 1] == Exited(true, InternalError(HandlerFailed(current.value.token)))
    // everything that is not a Result leaves the command slot alone and never emits ready
    ensures parse(line).Some? && !parse(line).value.Result? ==> r.current == current && Ready !in r.events
  {
    match parse(line)
    case None => Outcome(current, [])
    case Some(rec) =>
      match rec
      case Result(token, reason, _) =>
        var echo := ReplyEcho(current.Some? && current.value.isUser, line);
        if current.None? || current.value.token != token then
          Outcome(current, [echo] + Aborted(Fatal(current, token), line))
        else if HandlerThrows(current.value, rec) then
          Outcome(current, [echo, Completed(token), HandlerInvoked(token, rec)] + Aborted(HandlerFailed(token), line))
        else
          var before := [echo] + Completion(current.value, rec);
          assert (before + [Ready])[..|before|] == before;
          Outcome(None, before + [Ready])
      case Async(_, _, _) => Outcome(current, Broadcast(current, rec))
      case Stream(_, _) => Outcome(current, Broadcast(current, rec))
      case Prompt => Outcome(current, [])
  }

  /** One more line handed to processLine after the outcome `o`. */
  function Then(o: Outcome, line: seq<Byte>, parse: seq<Byte> -> Option<Record>): Outcome {
    var d := Dispatch(o.current, line, parse);
    Outcome(d.current, o.events + d.events)
  }

  /** Lines handed to processLine one after another, in arrival order, after the outcome `o`. */
  function RunFrom(o: Outcome, lines: seq<seq<Byte>>, parse: seq<Byte> -> Option<Record>): Outcome
    decreases |lines|
  {
    if lines == [] then o else RunFrom(Then(o, lines[0], parse), lines[1..], parse)
  }

  /** Lines handed to processLine one after another, in arrival order. */
  function RunLines(current: Option<Command>, lines: seq<seq<Byte>>, parse: seq<Byte> -> Option<Record>): Outcome {
    RunFrom(Outcome(current, []), lines, parse)
  }

  /** Each line followed by its newline: the bytes a list of lines came from. */
  function Unframe(lines: seq<seq<Byte>>): seq<Byte>
  {
    if lines == [] then [] else lines[0] + [NewLine] + Unframe(lines[1..])
  }

  lemma UnframeCons(line: seq<Byte>, lines: seq<seq<Byte>>)
    ensures Unframe([line] + lines) == line + [NewLine] + Unframe(lines)
  {
    assert ([line] + lines)[1..] == lines;
  }

  lemma Reassemble(buf: seq<Byte>, i: nat, lines: seq<seq<Byte>>, rest: seq<Byte>)
    requires i < |buf| && buf[i] == NewLine
    requires Unframe(lines) + rest == buf[i + 1..]
    ensures Unframe([buf[..i]] + lines) + rest == buf
  {
    UnframeCons(buf[..i], lines);
    calc {
      Unframe([buf[..i]] + lines) + rest;
      buf[..i] + [NewLine] + Unframe(lines) + rest;
      buf[..i] + [NewLine] + (Unframe(lines) + rest);
      buf[..i] + [NewLine] + buf[i + 1..];
      buf;
    }
  }

  lemma ConsNoNewLine(line: seq<Byte>, lines: seq<seq<Byte>>)
    requires NewLine !in line
    requires forall k :: 0 <= k < |lines| ==> NewLine !in lines[k]
    ensures forall k :: 0 <= k < |[line] + lines| ==> NewLine !in ([line] + lines)[k]
  {
    forall k | 0 <= k < |[line] + lines| ensures NewLine !in ([line] + lines)[k] {
      if k > 0 { assert ([line] + lines)[k] == lines[k - 1]; }
    }
  }

  datatype Framed = Framed(lines: seq<seq<Byte>>, rest: seq<Byte>)

  /** The line framer: complete lines, in order, and the partial line left over. */
  function Frame(buf: seq<Byte>): (r: Framed)
    ensures NewLine !in r.rest
    ensures forall k :: 0 <= k < |r.lines| ==> NewLine !in r.lines[k]
    ensures Unframe(r.lines) + r.rest == buf
    decreases |buf|
  {
    match IndexOf(buf, NewLine)
    case None => Framed([], buf)
    case Some(i) =>
      var tail := Frame(buf[i + 1..]);
      Reassemble(buf, i, tail.lines, tail.rest);
      ConsNoNewLine(buf[..i], tail.lines);
      Framed([buf[..i]] + tail.lines, tail.rest)
  }

  /** The framing of a buffer is the only split into newline-free lines and a newline-free rest. */
  lemma {:induction false} FrameUnique(lines: seq<seq<Byte>>, rest: seq<Byte>)
    requires forall k :: 0 <= k < |lines| ==> NewLine !in lines[k]
    requires NewLine !in rest
    ensures Frame(Unframe(lines) + rest) == Framed(lines, rest)
  {
    if lines == [] {
      assert Unframe(lines) + rest == rest;
    } else {
      var l, more := lines[0], lines[1..];
      assert lines == [l] + more;
      var tailBuf := Unframe(more) + rest;
      UnframeCons(l, more);
      assert Unframe(lines) + rest == l + [NewLine] + tailBuf;
      FrameUnique(more, rest);
      FrameHead(l, tailBuf);
    }
  }

  /** A buffer starting with a newline-free line frames as that line followed by the framing of the remainder. */
  lemma FrameHead(l: seq<Byte>, tailBuf: seq<Byte>)
    requires NewLine !in l
    ensures Frame(l + [NewLine] + tailBuf) == Framed([l] + Frame(tailBuf).lines, Frame(tailBuf).rest)
  {
    var buf := l + [NewLine] + tailBuf;
    assert buf[|l|] == NewLine;
    assert buf[..|l|] == l;
    assert IndexOf(buf, NewLine) == Some(|l|);
    assert buf[|l| + 1..] == tailBuf;
  }

  lemma {:induction false} UnframeAppend(a: seq<seq<Byte>>, b: seq<seq<Byte>>)
    ensures Unframe(a + b) == Unframe(a) + Unframe(b)
  {
    if a != [] {
      assert (a + b)[1..] == a[1..] + b;
      UnframeAppend(a[1..], b);
    } else {
      assert a + b == b;
    }
  }

  /**
   * Framing is restartable: feeding `more` after a chunk has been framed
   * gives exactly the lines and rest of framing everything at once.
   */
  lemma FrameIncremental(first: seq<Byte>, more: seq<Byte>)
    ensures Frame(first).lines + Frame(Frame(first).rest + more).lines == Frame(first + more).lines
    ensures Frame(Frame(first).rest + more).rest == Frame(first + more).rest
  {
    var f1 := Frame(first);
    var f2 := Frame(f1.rest + more);
    UnframeAppend(f1.lines, f2.lines);
    Regroup(Unframe(f1.lines), f1.rest, Unframe(f2.lines), f2.rest, more);
    AppendNoNewLine(f1.lines, f2.lines);
    FrameUnique(f1.lines + f2.lines, f2.rest);
  }

  lemma Regroup<T>(x: seq<T>, mid: seq<T>, y: seq<T>, rest: seq<T>, more: seq<T>)
    requires y + rest == mid + more
    ensures (x + y) + rest == (x + mid) + more
  {
    calc {
      (x + y) + rest;
      x + (y + rest);
      x + (mid + more);
      (x + mid) + more;
    }
  }

  lemma AppendNoNewLine(a: seq<seq<Byte>>, b: seq<seq<Byte>>)
    requires forall k :: 0 <= k < |a| ==> NewLine !in a[k]
    requires forall k :: 0 <= k < |b| ==> NewLine !in b[k]
    ensures forall k :: 0 <= k < |a + b| ==> NewLine !in (a + b)[k]
  {
    forall k | 0 <= k < |a + b| ensures NewLine !in (a + b)[k] {
      if k >= |a| { assert (a + b)[k] == b[k - |a|]; }
    }
  }

  /** One step of the framer: the first line, then the framing of what follows it. */
  lemma FrameStep(buf: seq<Byte>, i: nat)
    requires IndexOf(buf, NewLine) == Some(i)
    ensures Frame(buf) == Framed([buf[..i]] + Frame(buf[i + 1..]).lines, Frame(buf[i + 1..]).rest)
  {
  }

  lemma Assoc<T>(a: seq<T>, b: seq<T>, c: seq<T>)
    ensures a + b + c == a + (b + c)
  {
  }

  lemma RunFromCons(o: Outcome, next: Outcome, line: seq<Byte>, later: seq<seq<Byte>>, parse: seq<Byte> -> Option<Record>)
    requires next.current == Dispatch(o.current, line, parse).current
    requires next.events == o.events + Dispatch(o.current, line, parse).events
    ensures RunFrom(next, later, parse) == RunFrom(o, [line] + later, parse)
  {
    assert ([line] + later)[0] == line && ([line] + later)[1..] == later;
  }

  /** Events already emitted stay in front of what later lines emit. */
  lemma {:induction false} RunFromPrefix(current: Option<Command>, e1: seq<Event>, e2: seq<Event>, lines: seq<seq<Byte>>, parse: seq<Byte> -> Option<Record>)
    ensures RunFrom(Outcome(current, e1 + e2), lines, parse) ==
              Outcome(RunFrom(Outcome(current, e2), lines, parse).current, e1 + RunFrom(Outcome(current, e2), lines, parse).events)
    decreases |lines|
  {
    if lines != [] {
      var d := Dispatch(current, lines[0], parse);
      Assoc(e1, e2, d.events);
      RunFromPrefix(d.current, e1, e2 + d.events, lines[1..], parse);
    }
  }

  lemma RunFromLines(current: Option<Command>, e: seq<Event>, lines: seq<seq<Byte>>, parse: seq<Byte> -> Option<Record>)
    ensures RunFrom(Outcome(current, e), lines, parse) ==
              Outcome(RunLines(current, lines, parse).current, e + RunLines(current, lines, parse).events)
  {
    RunFromPrefix(current, e, [], lines, parse);
    assert e + [] == e;
  }

  /**
   * Async and Stream records never move the Busy/Idle state: a run of
   * non-Result lines leaves the command slot as it was and emits no ready.
   */
  lemma {:induction false} NoResultKeepsSlot(current: Option<Command>, lines: seq<seq<Byte>>, parse: seq<Byte> -> Option<Record>)
    requires forall k :: 0 <= k < |lines| ==> parse(lines[k]).None? || !parse(lines[k]).value.Result?
    ensures RunLines(current, lines, parse).current == current
    ensures Ready !in RunLines(current, lines, parse).events
  {
    NoResultFrom(Outcome(current, []), lines, parse);
  }

  lemma {:induction false} NoResultFrom(o: Outcome, lines: seq<seq<Byte>>, parse: seq<Byte> -> Option<Record>)
    requires forall k :: 0 <= k < |lines| ==> parse(lines[k]).None? || !parse(lines[k]).value.Result?
    ensures RunFrom(o, lines, parse).current == o.current
    ensures Ready !in o.events ==> Ready !in RunFrom(o, lines, parse).events
    decreases |lines|
  {
    if lines != [] {
      var d := Dispatch(o.current, lines[0], parse);
      assert Ready !in d.events;
      assert forall k :: 0 <= k < |lines[1..]| ==> lines[1..][k] == lines[k + 1];
      NoResultFrom(Then(o, lines[0], parse), lines[1..], parse);
    }
  }

  /** The fixed part of the prompt-setting pattern `set prompt \032.\n`. */
  const PromptSetting: string := "set prompt " + [26 as char]

  /** The pattern matches at `i`: the fixed part, any one character, then a newline. */
  predicate PromptSettingAt(s: string, i: nat) {
    i + |PromptSetting| + 2 <= |s| && s[i..i + |PromptSetting|] == PromptSetting && s[i + |PromptSetting| + 1] == '\n'
  }

  /**
   * QString::remove with the prompt-setting pattern: scanning left to right,
   * every match is cut out and the scan resumes after it.
   */
  function WithoutPromptSettings(s: string): (r: string)
    ensures |r| <= |s|
    decreases |s|
  {
    if s == [] then []
    else if PromptSettingAt(s, 0) then WithoutPromptSettings(s[|PromptSetting| + 2..])
    else [s[0]] + WithoutPromptSettings(s[1..])
  }

  /** An echo without the pattern is the command text unchanged. */
  lemma {:induction false} NoPromptSettingKept(s: string)
    requires forall i :: 0 <= i < |s| ==> !PromptSettingAt(s, i)
    ensures WithoutPromptSettings(s) == s
    decreases |s|
  {
    if s != [] {
      assert !PromptSettingAt(s, 0);
      forall i | 0 <= i < |s| - 1
        ensures !PromptSettingAt(s[1..], i)
      {
        PromptSettingShift(s, i);
      }
      NoPromptSettingKept(s[1..]);
    }
  }

  /** The pattern matches in the tail where it matches one place further on in the whole. */
  lemma PromptSettingShift(s: string, i: nat)
    requires s != []
    ensures PromptSettingAt(s[1..], i) == PromptSettingAt(s, i + 1)
  {
    var n := |PromptSetting|;
    if i + n + 2 <= |s| - 1 {
      assert s[1..][i..i + n] == s[i + 1..i + 1 + n];
      assert s[1..][i + n + 1] == s[i + 1 + n + 1];
    }
  }

  /** A prompt setting in front of a command is cut out whatever its prompt character is. */
  lemma PromptSettingRemoved(prompt: char, rest: string)
    ensures WithoutPromptSettings(PromptSetting + [prompt, '\n'] + rest) == WithoutPromptSettings(rest)
  {
    var s := PromptSetting + [prompt, '\n'] + rest;
    assert s[..|PromptSetting|] == PromptSetting;
    assert PromptSettingAt(s, 0);
    assert s[|PromptSetting| + 2..] == rest;
  }

  /** The debugger connection: stdout buffer, the command in flight and the signals emitted. */
  class Debugger {
    var buffer: seq<Byte>
    var current: Option<Command>
    var events: seq<Event>

    constructor ()
      ensures buffer == [] && current == None && events == []
    {
      buffer := [];
      current := None;
      events := [];
    }

    /** isReady: no command is in flight. */
    function IsReady(): (r: bool)
      reads this
      ensures r <==> current.None?
    {
      current == None
    }

    /**
     * execute: install the command as current, write it and mark it
     * submitted; the echo drops the prompt settings and adds the prompt.
     */
    method Execute(command: Command)
      modifies this
      ensures current == Some(command.(submitted := true))
      ensures !IsReady()
      ensures buffer == old(buffer)
      ensures events == old(events) + [Written(command.text),
                                       if command.isUser then UserCommandOutput("(gdb) " + WithoutPromptSettings(command.text))
                                       else InternalCommandOutput("(gdb) " + WithoutPromptSettings(command.text))]
    {
      current := Some(command);
      events := events + [Written(command.text)];
      current := Some(current.value.(submitted := true));
      var pretty := "(gdb) " + WithoutPromptSettings(command.text);
      if current.value.isUser {
        events := events + [UserCommandOutput(pretty)];
      } else {
        events := events + [InternalCommandOutput(pretty)];
      }
    }

    /** processLine: parse one line and correlate or broadcast the record. */
    method ProcessLine(line: seq<Byte>, parse: seq<Byte> -> Option<Record>)
      modifies this
      ensures buffer == old(buffer)
      ensures current == Dispatch(old(current), line, parse).current
      ensures events == old(events) + Dispatch(old(current), line, parse).events
    {
      var r := parse(line);
      if r.None? {
        // the invalid message is ignored and the command is not considered done
        return;
      }
      var rec := r.value;
      var emitted: seq<Event> := [];
      match rec {
        case Result(token, _, _) =>
          var echo := ReplyEcho(current.Some? && current.value.isUser, line);
          if current.None? || current.value.token != token {
            emitted := [echo] + Aborted(Fatal(current, token), line);
          } else if HandlerThrows(current.value, rec) {
            // the command is neither deleted nor cleared when its handler throws
            emitted := [echo, Completed(token), HandlerInvoked(token, rec)] + Aborted(HandlerFailed(token), line);
          } else {
            emitted := [echo] + Completion(current.value, rec) + [Ready];
            current := None;
          }
        case Async(_, _, _) =>
          emitted := Broadcast(current, rec);
        case Stream(_, _) =>
          emitted := Broadcast(current, rec);
        case Prompt =>
      }
      events := events + emitted;
    }

    /**
     * readyReadStandardOutput: append what the debugger wrote, then cut off
     * and process every complete line; a trailing partial line stays buffered.
     */
    method ReadyReadStandardOutput(data: seq<Byte>, parse: seq<Byte> -> Option<Record>)
      modifies this
      ensures NewLine !in buffer
      ensures buffer == Frame(old(buffer) + data).rest
      ensures current == RunLines(old(current), Frame(old(buffer) + data).lines, parse).current
      ensures events == old(events) + RunLines(old(current), Frame(old(buffer) + data).lines, parse).events
    {
      ghost var start := Outcome(current, events);
      buffer := buffer + data;
      ghost var all := buffer;
      var i := IndexOf(buffer, NewLine);
      while i.Some?
        invariant i == IndexOf(buffer, NewLine)
        invariant Frame(all).rest == Frame(buffer).rest
        invariant RunFrom(Outcome(current, events), Frame(buffer).lines, parse) == RunFrom(start, Frame(all).lines, parse)
        decreases |buffer|
      {
        var reply := buffer[..i.value];
        FrameStep(buffer, i.value);
        ghost var before := Outcome(current, events);
        ghost var later := Frame(buffer[i.value + 1..]).lines;
        buffer := buffer[i.value + 1..];
        ProcessLine(reply, parse);
        RunFromCons(before, Outcome(current, events), reply, later, parse);
        i := IndexOf(buffer, NewLine);
      }
      assert Frame(buffer) == Framed([], buffer);
      RunFromLines(start.current, start.events, Frame(all).lines, parse);
    }

    /** readyReadStandardError: stderr text is forwarded as internal debugger output. */
    method ReadyReadStandardError(text: string)
      modifies this
      ensures buffer == old(buffer) && current == old(current)
      ensures events == old(events) + [DebuggerInternalOutput(text)]
    {
      events := events + [DebuggerInternalOutput(text)];
    }

    /** processFinished: the session ends, abnormally unless exit code 0 and a normal exit. */
    method ProcessFinished(exitCode: int, normalExit: bool)
      modifies this
      ensures buffer == old(buffer) && current == old(current)
      ensures events == old(events) + [UserCommandOutput("Process exited\n"),
                                       Exited(exitCode != 0 || !normalExit, ProcessExited)]
    {
      var abnormal := exitCode != 0 || !normalExit;
      events := events + [UserCommandOutput("Process exited\n"), Exited(abnormal, ProcessExited)];
    }

    /**
     * processErrored: a failed start or a crash is shown in a dialog and ends
     * the session abnormally; other errors are ignored.
     */
    method ProcessErrored(error: ProcessError)
      modifies this
      ensures buffer == old(buffer) && current == old(current)
      ensures error == StartFailure ==>
                events == old(events) + [ProcessErrorDialog(StartFailure), UserCommandOutput("Process failed to start\n"),
                                         Exited(true, FailedToStart)]
      ensures error == Crash ==>
                events == old(events) + [ProcessErrorDialog(Crash), UserCommandOutput("Process crashed\n"),
                                         Exited(true, ProcessCrashed)]
      ensures error == OtherProcessError ==> events == old(events)
    {
      if error == StartFailure {
        events := events + [ProcessErrorDialog(StartFailure), UserCommandOutput("Process failed to start\n"),
                            Exited(true, FailedToStart)];
      } else if error == Crash {
        events := events + [ProcessErrorDialog(Crash), UserCommandOutput("Process crashed\n"),
                            Exited(true, ProcessCrashed)];
      }
    }
  }
}
