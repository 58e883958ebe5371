/**
 * The framing of the CMake server protocol (projectmanagers/cmake/cmakeserver.cpp):
 * every message travels between an open tag and a close tag, and the
 * client reassembles responses out of whatever the socket delivers.
 *
 * The local socket and the server process are left out: the bytes read
 * from the socket are a parameter of `ProcessOutput`, the bytes written are
 * kept in `written`, and the signals are an event log. JSON is opaque: a
 * payload is the compact JSON text of a command or a response.
 */
module CMakeServer {
  import opened Text

  newtype byte = b: int | 0 <= b < 256

  const Newline: byte := 10

  /** `\n[== "CMake Server" ==[\n` */
  const OpenTag: seq<byte> :=
    [10, 91, 61, 61, 32, 34, 67, 77, 97, 107, 101, 32, 83, 101, 114, 118, 101, 114, 34, 32, 61, 61, 91, 10]

  /** `\n]== "CMake Server" ==]\n` */
  const CloseTag: seq<byte> :=
    [10, 93, 61, 61, 32, 34, 67, 77, 97, 107, 101, 32, 83, 101, 114, 118, 101, 114, 34, 32, 61, 61, 93, 10]

  /** Both tags are 24 bytes long. */
  const TagLength: nat := 24

  datatype Event = Connected | Disconnected | Response(data: seq<byte>)

  /** The close tag occurs in `s` at index `i`. */
  predicate CloseAt(s: seq<byte>, i: nat) {
    i + TagLength <= |s| && s[i..i + TagLength] == CloseTag
  }

  /** QByteArray::indexOf for the close tag: its first occurrence at or after `from`. */
  function FindClose(s: seq<byte>, from: nat): (r: Option<nat>)
    ensures r.Some? ==> from <= r.value && r.value + TagLength <= |s|
    decreases |s| - from
  {
    if from + TagLength > |s| then None
    else if CloseAt(s, from) then Some(from)
    else FindClose(s, from + 1)
  }

  /** FindClose gives the first occurrence, and none when there is none. */
  lemma {:induction false} FindCloseFirst(s: seq<byte>, from: nat)
    ensures var r := FindClose(s, from);
      (r.Some? ==> CloseAt(s, r.value) && forall j: nat :: from <= j < r.value ==> !CloseAt(s, j)) &&
      (r.None? ==> forall j: nat :: from <= j ==> !CloseAt(s, j))
    decreases |s| - from
  {
    if from + TagLength <= |s| && !CloseAt(s, from) {
      FindCloseFirst(s, from + 1);
    }
  }

  /** The bytes sendCommand writes for one payload. */
  function Frame(payload: seq<byte>): (r: seq<byte>)
    ensures |r| == TagLength + |payload| + TagLength
    ensures StartsWith(r, OpenTag) && EndsWith(r, CloseTag)
    ensures r[TagLength..TagLength + |payload|] == payload
  {
    OpenTag + payload + CloseTag
  }

  /** The frames of several payloads, one after the other. */
  function Frames(payloads: seq<seq<byte>>): seq<byte> {
    if payloads == [] then [] else Frame(payloads[0]) + Frames(payloads[1..])
  }

  /**
   * The responses processOutput cuts out of a buffer, in order, and the
   * bytes left buffered: while the buffer is longer than the open tag and a
   * close tag follows the open tag, the bytes between them are a response
   * and the frame is dropped.
   */
  function Deframe(buffer: seq<byte>): (seq<seq<byte>>, seq<byte>)
    decreases |buffer|
  {
    if |buffer| <= TagLength then ([], buffer)
    else
      match FindClose(buffer, TagLength)
      case None => ([], buffer)
      case Some(idx) =>
        var rest := Deframe(buffer[idx + TagLength..]);
        ([buffer[TagLength..idx]] + rest.0, rest.1)
  }

  /** What stays buffered is a tail of the buffer. */
  lemma {:induction false} DeframeRestIsTail(buffer: seq<byte>)
    ensures |Deframe(buffer).1| <= |buffer|
    ensures buffer[|buffer| - |Deframe(buffer).1|..] == Deframe(buffer).1
    decreases |buffer|
  {
    var found := FindClose(buffer, TagLength);
    if |buffer| > TagLength && found.Some? {
      var after := buffer[found.value + TagLength..];
      DeframeStep(buffer, found.value);
      DeframeRestIsTail(after);
      var rest := Deframe(after).1;
      assert after[|after| - |rest|..] == buffer[|buffer| - |rest|..];
    } else {
      DeframeStops(buffer);
      assert buffer[|buffer| - |buffer|..] == buffer;
    }
  }

  /** The response events for a list of responses. */
  function Responses(responses: seq<seq<byte>>): (r: seq<Event>)
    ensures |r| == |responses|
    ensures forall i :: 0 <= i < |r| ==> r[i] == Response(responses[i])
  {
    if responses == [] then [] else [Response(responses[0])] + Responses(responses[1..])
  }

  /** The events setConnected emits: one, and only when the state changes. */
  function ConnectionEvents(current: bool, conn: bool): (r: seq<Event>)
    ensures r == [] <==> conn == current
    ensures conn && !current ==> r == [Connected]
    ensures !conn && current ==> r == [Disconnected]
  {
    if conn == current then [] else if conn then [Connected] else [Disconnected]
  }

  // ---------------------------------------------------------------------
  // Properties of the framing

  /** The close tag of a newline-free payload's frame is the first one after the open tag. */
  lemma CloseAfterPayload(payload: seq<byte>, rest: seq<byte>)
    requires Newline !in payload
    ensures FindClose(Frame(payload) + rest, TagLength) == Some(TagLength + |payload|)
  {
    var b := Frame(payload) + rest;
    var at := TagLength + |payload|;
    assert b[at..at + TagLength] == CloseTag;
    assert CloseAt(b, at);
    forall j: nat | TagLength <= j < at
      ensures !CloseAt(b, j)
    {
      assert b[j] == payload[j - TagLength];
      NoCloseAt(b, j);
    }
    FindCloseFirst(b, TagLength);
  }

  /** No close tag starts at a byte other than a newline. */
  lemma NoCloseAt(b: seq<byte>, j: nat)
    requires j < |b| && b[j] != Newline
    ensures !CloseAt(b, j)
  {
    if j + TagLength <= |b| {
      assert b[j..j + TagLength][0] == b[j];
    }
  }

  /** A frame at the front of the buffer yields its payload and leaves what follows. */
  lemma DeframeFrame(payload: seq<byte>, rest: seq<byte>)
    requires Newline !in payload
    ensures Deframe(Frame(payload) + rest) == ([payload] + Deframe(rest).0, Deframe(rest).1)
  {
    var b := Frame(payload) + rest;
    CloseAfterPayload(payload, rest);
    assert b[TagLength..TagLength + |payload|] == payload;
    assert b[TagLength + |payload| + TagLength..] == rest;
  }

  /** Newline-free payloads framed as sendCommand does come back in order, before what follows them. */
  lemma {:induction false} DeframeFrames(payloads: seq<seq<byte>>, rest: seq<byte>)
    requires forall i :: 0 <= i < |payloads| ==> Newline !in payloads[i]
    ensures Deframe(Frames(payloads) + rest) == (payloads + Deframe(rest).0, Deframe(rest).1)
  {
    if payloads == [] {
      assert Frames(payloads) + rest == rest;
      assert payloads + Deframe(rest).0 == Deframe(rest).0;
    } else {
      var later := payloads[1..];
      var tail := Frames(later) + rest;
      assert Frames(payloads) + rest == Frame(payloads[0]) + tail;
      DeframeFrame(payloads[0], tail);
      assert forall i :: 0 <= i < |later| ==> Newline !in later[i] by {
        forall i | 0 <= i < |later| ensures Newline !in later[i] {
          assert later[i] == payloads[i + 1];
        }
      }
      DeframeFrames(later, rest);
      Cons(payloads, Deframe(rest).0);
    }
  }

  /** The round trip: one framed newline-free payload is one response, and nothing stays buffered. */
  lemma RoundTrip(payload: seq<byte>)
    requires Newline !in payload
    ensures Deframe(Frame(payload)) == ([payload], [])
  {
    DeframeFrame(payload, []);
    assert Frame(payload) + [] == Frame(payload);
    assert [payload] + [] == [payload];
  }

  /** A frame whose close tag has not fully arrived stays buffered. */
  lemma IncompleteStays(payload: seq<byte>, k: nat)
    requires Newline !in payload
    requires k < TagLength
    ensures Deframe(OpenTag + payload + CloseTag[..k]) == ([], OpenTag + payload + CloseTag[..k])
  {
    var b := OpenTag + payload + CloseTag[..k];
    if |b| > TagLength {
      forall j: nat | TagLength <= j
        ensures !CloseAt(b, j)
      {
        if j < TagLength + |payload| {
          assert b[j] == payload[j - TagLength];
          NoCloseAt(b, j);
        }
      }
      FindCloseFirst(b, TagLength);
    }
  }

  /**
   * Not containing the close tag is not enough for the round trip: a
   * payload that is the close tag without its last newline is cut short,
   * because that newline completes a close tag right after the open tag.
   */
  lemma ClosePrefixPayload()
    ensures var payload := CloseTag[..TagLength - 1];
      (forall j: nat :: !CloseAt(payload, j)) &&
      Deframe(Frame(payload)) == ([[]], CloseTag[1..])
  {
    var payload := CloseTag[..TagLength - 1];
    var b := Frame(payload);
    assert b[TagLength..TagLength + TagLength - 1] == payload;
    assert b[TagLength + TagLength - 1] == CloseTag[0] == CloseTag[TagLength - 1];
    assert b[TagLength..TagLength + TagLength] == payload + [CloseTag[TagLength - 1]] == CloseTag;
    assert CloseAt(b, TagLength);
    assert FindClose(b, TagLength) == Some(TagLength);
    DeframeStep(b, TagLength);
    assert b[TagLength + TagLength..] == CloseTag[1..];
    DeframeStops(CloseTag[1..]);
    assert b[TagLength..TagLength] == [];
    assert [payload[..0]] + [] == [payload[..0]];
  }

  // ---------------------------------------------------------------------
  // The server connection

  class Server {
    var connected: bool
    var buffer: seq<byte>
    var written: seq<byte>
    var events: seq<Event>

    constructor()
      ensures !connected && buffer == [] && written == [] && events == []
    {
      connected := false;
      buffer := [];
      written := [];
      events := [];
    }

    /** setConnected: emits connected or disconnected when the state changes. */
    method SetConnected(conn: bool)
      modifies this
      ensures connected == conn
      ensures events == old(events) + ConnectionEvents(old(connected), conn)
      ensures buffer == old(buffer) && written == old(written)
    {
      if conn == connected {
        return;
      }
      connected := conn;
      if connected {
        events := events + [Connected];
      } else {
        events := events + [Disconnected];
      }
    }

    /** sendCommand: writes the framed compact JSON of a command. */
    method SendCommand(payload: seq<byte>)
      modifies this
      ensures written == old(written) + Frame(payload)
      ensures connected == old(connected) && buffer == old(buffer) && events == old(events)
    {
      written := written + (OpenTag + payload + CloseTag);
    }

    /** processOutput: appends what the socket delivered and emits every complete response. */
    method ProcessOutput(incoming: seq<byte>)
      modifies this`buffer, this`events
      ensures |buffer| <= TagLength || FindClose(buffer, TagLength).None?
      ensures var (responses, rest) := Deframe(old(buffer) + incoming);
        buffer == rest && events == old(events) + Responses(responses)
    {
      buffer := buffer + incoming;
      Drain();
    }

    /** The loop of processOutput: cuts every complete frame off the front of the buffer. */
    method Drain()
      modifies this`buffer, this`events
      ensures |buffer| <= TagLength || FindClose(buffer, TagLength).None?
      ensures var (responses, rest) := Deframe(old(buffer));
        buffer == rest && events == old(events) + Responses(responses)
    {
      ghost var total := Deframe(buffer);
      ghost var emitted: seq<seq<byte>> := [];
      assert emitted + total.0 == total.0;
      while |buffer| > TagLength
        invariant total == (emitted + Deframe(buffer).0, Deframe(buffer).1)
        invariant events == old(events) + Responses(emitted)
        decreases |buffer|
      {
        var found := FindClose(buffer, TagLength);
        if found.None? {
          break;
        }
        var idx := found.value;
        var response := buffer[TagLength..idx];
        var after := buffer[idx + TagLength..];
        DeframeStep(buffer, idx);
        Associative(emitted, [response], Deframe(after).0);
        ResponsesAppend(emitted, response);
        events := events + [Response(response)];
        emitted := emitted + [response];
        buffer := after;
      }
      DeframeStops(buffer);
      assert emitted + [] == emitted;
    }
  }

  /** One frame of processOutput's loop. */
  lemma DeframeStep(buffer: seq<byte>, idx: nat)
    requires |buffer| > TagLength && FindClose(buffer, TagLength) == Some(idx)
    ensures var rest := Deframe(buffer[idx + TagLength..]);
      Deframe(buffer) == ([buffer[TagLength..idx]] + rest.0, rest.1)
  {
  }

  /** Where processOutput's loop stops, nothing more is cut out. */
  lemma DeframeStops(buffer: seq<byte>)
    requires |buffer| <= TagLength || FindClose(buffer, TagLength).None?
    ensures Deframe(buffer) == ([], buffer)
  {
  }

  lemma Cons<T>(s: seq<T>, t: seq<T>)
    requires s != []
    ensures s + t == [s[0]] + (s[1..] + t)
  {
  }

  lemma Associative<T>(s: seq<T>, t: seq<T>, u: seq<T>)
    ensures s + (t + u) == (s + t) + u
  {
  }

  lemma ResponsesAppend(responses: seq<seq<byte>>, response: seq<byte>)
    ensures Responses(responses + [response]) == Responses(responses) + [Response(response)]
  {
  }
}
