/** The two binaries together: the server's frames, split on line feeds and
    fed to the client's read loop, end it after exactly the tenth line with
    the terminal status the server chose. This holds because no serialized
    Response contains a raw line feed. */
module Session {
  import opened Errors
  import opened Message
  import opened Stream
  import opened Server
  import opened Client

  /** The first frame of a transcript, then the rest of it. */
  lemma TranscriptCons(rs: seq<Response>)
    requires rs != []
    ensures Transcript(rs) == FrameLine(rs[0]) + Transcript(rs[1..])
  {
    var line := FrameLine(rs[0]);
    assert rs == [rs[0]] + rs[1..];
    FrameLinesAppend([rs[0]], rs[1..]);
    assert [rs[0]][..0] == [];
    assert FrameLines([rs[0]]) == [line];
    ConcatAppend([line], FrameLines(rs[1..]));
    assert [line][1..] == [];
    assert Concat([line]) == line + [] == line;
  }

  /** A transcript followed by more text, read as its first frame's line
      and then the rest. */
  lemma TranscriptThen(rs: seq<Response>, rest: string)
    requires rs != []
    ensures Transcript(rs) + rest == SerializeResponse(rs[0]) + "\n" + (Transcript(rs[1..]) + rest)
  {
    TranscriptCons(rs);
    AppendAssoc(FrameLine(rs[0]), Transcript(rs[1..]), rest);
  }

  /** Processing frames followed by a terminal frame: the client skips the
      former, stops on the latter, and leaves what follows unread. */
  lemma {:induction false} ReadLoopOverFrames(ps: seq<Response>, t: Response, rest: string)
    requires forall i :: 0 <= i < |ps| ==> ps[i].status == Processing
    requires IsTerminal(t.status)
    ensures ReadLoop(Transcript(ps + [t]) + rest, 0) == Run(Success(t), |ps| + 1, rest)
  {
    var rs := ps + [t];
    TranscriptThen(rs, rest);
    if ps == [] {
      assert Transcript(rs[1..]) + rest == rest;
      TerminalStops(t, rest, 0);
    } else {
      assert rs[1..] == ps[1..] + [t];
      ReadLoopOverFrames(ps[1..], t, rest);
      ProcessingSkipped(ps[0], Transcript(rs[1..]) + rest, 0);
    }
  }

  /** Processing frames and then end of stream: the client skips them all
      and fails on the empty line it reads at EOF. */
  lemma {:induction false} ReadLoopOverProcessing(ps: seq<Response>)
    requires forall i :: 0 <= i < |ps| ==> ps[i].status == Processing
    ensures ReadLoop(Transcript(ps), 0) == Run(Failure(DecodeError), |ps| + 1, [])
  {
    if ps == [] {
      EndOfStreamFails(0);
    } else {
      TranscriptThen(ps, []);
      assert Transcript(ps) + [] == Transcript(ps);
      assert Transcript(ps[1..]) + [] == Transcript(ps[1..]);
      ReadLoopOverProcessing(ps[1..]);
      ProcessingSkipped(ps[0], Transcript(ps[1..]), 0);
    }
  }

  /** A complete session, as the client reads it: exactly ten lines, ending
      on `Ok` when the request's id is "request" and on `Error` otherwise. */
  lemma ClientConsumesServerTranscript(request: Request)
    ensures var run := ReadLoop(Transcript(Frames(request)), 0);
      && run == Run(Success(TerminalResponse(request)), ProcessingCount + 1, [])
      && (run.outcome.value.status == Ok <==> request.id == "request")
      && (run.outcome.value.status == Error <==> request.id != "request")
  {
    var frames := Frames(request);
    assert frames == ProcessingFrames(ProcessingCount) + [TerminalResponse(request)];
    ReadLoopOverFrames(ProcessingFrames(ProcessingCount), TerminalResponse(request), []);
    assert Transcript(frames) + [] == Transcript(frames);
  }

  /** A session cut short by the `k`-th write: the client reads the `k - 1`
      processing frames it got and then fails at end of stream, never having
      seen a terminal frame. */
  lemma TruncatedSessionFails(request: Request, k: nat)
    requires 1 <= k <= ProcessingCount + 1
    ensures ReadLoop(Concat(SessionWrites(Success(Frames(request)), k)), 0) == Run(Failure(DecodeError), k, [])
  {
    FailedWriteTruncates(request, k);
    ReadLoopOverProcessing(ProcessingFrames(k - 1));
  }

  /** What the server reads from the client is the client's request, and the
      server plans the full ten frames for it. */
  lemma ServerReadsRequest(r: Request)
    ensures Plan(Success(Concat([SerializeRequest(r)]))) == Success(Frames(r))
  {
    var q := SerializeRequest(r);
    assert [q][1..] == [];
    assert Concat([q]) == q + [] == q;
    RequestStringRoundTrip(r);
  }

  /** A fault-free server stream that carries the serialized request `r`:
      the session passes and sends the transcript of the ten frames for `r`. */
  lemma FaultFreeSession(r: Request, s: UnixStream)
    requires s.inbound == SerializeRequest(r) && !s.readFails && s.failingWrite == 0
    ensures SessionOutcome(StreamPlan(s, 0), 0) == Pass
    ensures Concat(SessionWrites(StreamPlan(s, 0), 0)) == Transcript(Frames(r))
  {
    ServerReadsRequest(r);
    var q := SerializeRequest(r);
    assert [q][1..] == [];
    assert Concat([q]) == q + [] == q;
    assert s.inbound[0..] == q;
    SessionPasses(r, 0);
    var frames := Frames(r);
    assert frames[..Delivered(|frames|, 0)] == frames;
  }

  /** The server's side of one fault-free exchange: it is handed a stream
      carrying the client's request, and what it sends is the transcript of
      the ten frames for that request. */
  method ServeClientRequest() returns (request: Request, served: Outcome, sent: string)
    ensures request == ClientRequest()
    ensures served == Pass
    ensures sent == Transcript(Frames(request))
  {
    request := ClientRequest();
    var serverSide := new UnixStream(SerializeRequest(request), false, 0, false, 0);
    served := HandleConnection(serverSide);
    FaultFreeSession(request, serverSide);
    ghost var writes := SessionWrites(StreamPlan(serverSide, 0), 0);
    assert serverSide.sent == [] + writes;
    assert [] + writes == writes;
    sent := Concat(serverSide.sent);
  }

  /** The client's side of an exchange, on a fault-free stream that carries
      the server's transcript for `request`: it sends the client request and
      ends with the terminal response chosen for `request`. */
  method ClientReadsTranscript(request: Request, transcript: string) returns (answer: Result<Response>)
    requires transcript == Transcript(Frames(request))
    ensures answer == Success(TerminalResponse(request))
  {
    var clientSide := new UnixStream(transcript, false, 0, false, 0);
    ClientConsumesServerTranscript(request);
    assert clientSide.inbound[0..] == transcript;
    answer := ClientMain(Some(clientSide));
  }

  /** One exchange end to end over fault-free streams: the server reads the
      client's request, the client reads exactly what the server sent, and
      the client ends with the "Roger that" response. */
  method Conversation() returns (served: Outcome, answer: Result<Response>)
    ensures served == Pass
    ensures answer == Success(Response("response", Ok, "Roger that"))
  {
    var request, transcript;
    request, served, transcript := ServeClientRequest();
    answer := ClientReadsTranscript(request, transcript);
  }
}
