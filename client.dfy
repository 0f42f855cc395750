/** The client binary: it sends one request, with no delimiter, half-closes
    its write side, and then reads newline-delimited responses until the
    first terminal one. */
module Client {
  import opened Errors
  import opened Message
  import opened Stream

  /** The one request the client ever sends. */
  function ClientRequest(): (r: Request)
    ensures r.id == "request" && r.message == "This is a request, please respond"
  {
    NewRequest("request", "This is a request, please respond")
  }

  /** `write_request_onto_stream`: one write of the serialized request, with
      no trailing newline, then `shutdown(Write)`; a failed write skips the
      shutdown. */
  method WriteRequestOntoStream(stream: UnixStream) returns (r: Outcome)
    modifies stream`sent, stream`writeCalls, stream`writeShut
    ensures stream.writeCalls == old(stream.writeCalls) + 1
    ensures var wrote := !old(stream.writeShut) && stream.writeCalls != stream.failingWrite;
      && stream.sent == (if wrote then old(stream.sent) + [SerializeRequest(ClientRequest())] else old(stream.sent))
      && stream.writeShut == (old(stream.writeShut) || (wrote && !stream.shutdownFails))
      && r == (if wrote && !stream.shutdownFails then Pass else Fail(IoError))
  {
    var request := ClientRequest();
    var requestAsString := SerializeRequest(request);
    var w := stream.Write(requestAsString);
    if w.Fail? {
      return w;
    }
    r := stream.ShutdownWrite();
  }

  // ---- the read/dispatch loop ----

  /** How the read loop ends: the final response (or the error that ended
      it), how many lines it asked for, and what it left unread. */
  datatype Run = Run(outcome: Result<Response>, lines: nat, rest: string)

  /** The ordinal, counted from the next call, of the `read_line` call that
      fails, when `calls` calls have been made and call number `failingRead`
      fails (0: none of the next calls fails). */
  function Remaining(failingRead: nat, calls: nat): nat {
    if failingRead > calls then failingRead - calls else 0
  }

  /** The loop of `main` over `input`, what the server sends, when the
      `failsAt`-th of its `read_line` calls fails (0: none). A read error is
      discarded and leaves the line empty; a line that does not decode ends
      the loop with an error; a terminal status ends it with that response;
      a processing one is skipped. */
  function ReadLoop(input: string, failsAt: nat): (run: Run)
    ensures run.lines >= 1
    ensures |run.rest| <= |input|
    ensures run.outcome.Success? ==> IsTerminal(run.outcome.value.status)
    ensures run.outcome.Failure? ==> run.outcome.error == DecodeError
    decreases |input|
  {
    var (message, rest) := if failsAt == 1 then ([], input) else SplitLine(input);
    EmptyIsNotAResponse();
    match DeserializeResponse(message)
    case Failure(e) => Run(Failure(e), 1, rest)
    case Success(response) =>
      if IsTerminal(response.status) then Run(Success(response), 1, rest)
      else
        var next := ReadLoop(rest, if failsAt > 1 then failsAt - 1 else 0);
        Run(next.outcome, next.lines + 1, next.rest)
  }

  /** What the next `read_line` hands to the decoder, and what it leaves. */
  function NextLine(input: string, failsAt: nat): (string, string) {
    if failsAt == 1 then ([], input) else SplitLine(input)
  }

  /** One turn of the loop: the line read decides whether it ends there. */
  lemma LoopStep(input: string, failsAt: nat)
    ensures var (message, rest) := NextLine(input, failsAt);
      var decoded := DeserializeResponse(message);
      ReadLoop(input, failsAt) ==
        if decoded.Failure? || IsTerminal(decoded.value.status) then Run(decoded, 1, rest)
        else var next := ReadLoop(rest, if failsAt > 1 then failsAt - 1 else 0);
          Run(next.outcome, next.lines + 1, next.rest)
  {
  }

  /** The loop of `main`, reading through the stream's line reader. */
  method ReadResponses(stream: UnixStream) returns (r: Result<Response>)
    requires stream.Valid()
    modifies stream`cursor, stream`readCalls
    ensures stream.Valid()
    ensures var run := ReadLoop(old(stream.inbound[stream.cursor..]), Remaining(stream.failingRead, old(stream.readCalls)));
      && r == run.outcome
      && stream.inbound[stream.cursor..] == run.rest
      && stream.readCalls == old(stream.readCalls) + run.lines
  {
    ghost var run := ReadLoop(stream.inbound[stream.cursor..], Remaining(stream.failingRead, stream.readCalls));
    ghost var calls0 := stream.readCalls;
    EmptyIsNotAResponse();
    while true
      invariant stream.Valid()
      invariant stream.readCalls >= calls0
      invariant var now := ReadLoop(stream.inbound[stream.cursor..], Remaining(stream.failingRead, stream.readCalls));
        && now.outcome == run.outcome
        && now.rest == run.rest
        && run.lines == stream.readCalls - calls0 + now.lines
      decreases |stream.inbound| - stream.cursor
    {
      ghost var input := stream.inbound[stream.cursor..];
      ghost var failsAt := Remaining(stream.failingRead, stream.readCalls);
      LoopStep(input, failsAt);
      var got := stream.ReadLine();
      var message := if got.Success? then got.value else [];
      assert (message, stream.inbound[stream.cursor..]) == NextLine(input, failsAt);
      var response := DeserializeResponse(message);
      if response.Failure? {
        return response;
      }
      match response.value.status
      case Ok =>
        return response;
      case Error =>
        return response;
      case Processing =>
        assert message != [];
        assert Remaining(stream.failingRead, stream.readCalls) == if failsAt > 1 then failsAt - 1 else 0;
    }
  }

  /** `main` without its printing: connect (None when `connect` fails),
      send the request, then read until the final response, which is
      returned. */
  method ClientMain(connection: Option<UnixStream>) returns (r: Result<Response>)
    requires connection.Some? ==> connection.value.Valid()
    modifies if connection.Some? then {connection.value} else {}
    ensures connection.None? ==> r == Failure(IoError)
    ensures connection.Some? ==>
      var s := connection.value;
      var wrote := !old(s.writeShut) && old(s.writeCalls) + 1 != s.failingWrite;
      && s.sent == (if wrote then old(s.sent) + [SerializeRequest(ClientRequest())] else old(s.sent))
      && r == if wrote && !s.shutdownFails
        then ReadLoop(old(s.inbound[s.cursor..]), Remaining(s.failingRead, old(s.readCalls))).outcome
        else Failure(IoError)
  {
    if connection.None? {
      return Failure(IoError);
    }
    var stream := connection.value;
    var w := WriteRequestOntoStream(stream);
    if w.Fail? {
      return Failure(w.error);
    }
    r := ReadResponses(stream);
  }

  // ---- properties of the read loop ----

  /** At end of stream `read_line` leaves the line empty, which does not
      decode: the loop ends with an error and never spins past EOF. */
  lemma EndOfStreamFails(failsAt: nat)
    ensures ReadLoop([], failsAt) == Run(Failure(DecodeError), 1, [])
  {
    EmptyIsNotAResponse();
  }

  /** A read error is discarded; the empty line then fails to decode. */
  lemma ReadErrorFails(input: string)
    ensures ReadLoop(input, 1) == Run(Failure(DecodeError), 1, input)
  {
    EmptyIsNotAResponse();
  }

  /** A line that does not decode ends the loop with an error. */
  lemma UndecodableLineFails(line: string, rest: string, failsAt: nat)
    requires '\n' !in line && failsAt != 1
    requires DeserializeResponse(line + "\n").Failure?
    ensures ReadLoop(line + "\n" + rest, failsAt) == Run(Failure(DecodeError), 1, rest)
  {
    SplitLineOf(line, rest);
  }

  /** A terminal response ends the loop right after its own line. */
  lemma TerminalStops(t: Response, rest: string, failsAt: nat)
    requires IsTerminal(t.status) && failsAt != 1
    ensures ReadLoop(SerializeResponse(t) + "\n" + rest, failsAt) == Run(Success(t), 1, rest)
  {
    SerializedResponseHasNoNewline(t);
    SplitLineOf(SerializeResponse(t), rest);
    ResponseRoundTrip(t, "\n");
  }

  /** A processing response is skipped: the loop goes on with the next line. */
  lemma ProcessingSkipped(p: Response, rest: string, failsAt: nat)
    requires p.status == Processing && failsAt != 1
    ensures var next := ReadLoop(rest, if failsAt > 1 then failsAt - 1 else 0);
      ReadLoop(SerializeResponse(p) + "\n" + rest, failsAt) == Run(next.outcome, next.lines + 1, next.rest)
  {
    SerializedResponseHasNoNewline(p);
    SplitLineOf(SerializeResponse(p), rest);
    ResponseRoundTrip(p, "\n");
  }
}
