/** The server binary: the rule that chooses the frames of a session, the
    session itself (`handle_connection`) over a stream, and the sequential
    accept loop of `main`. */
module Server {
  import opened Errors
  import opened Message
  import opened Stream
  import opened LocalSocket

  /** The number of `Processing` frames sent before the terminal one. */
  const ProcessingCount: nat := 9

  function ProcessingResponse(): Response {
    NewResponse("processing", Processing, "still processing...")
  }

  /** The terminal frame: chosen by the request's `id` alone. */
  function TerminalResponse(request: Request): (r: Response)
    ensures IsTerminal(r.status)
    ensures r.status == Ok <==> request.id == "request"
    ensures r == if request.id == "request" then Response("response", Ok, "Roger that")
                 else Response("what", Error, "Sorry what?")
  {
    match request.id
    case "request" => NewResponse("response", Ok, "Roger that")
    case _ => NewResponse("what", Error, "Sorry what?")
  }

  /** The frames a session sends for `request`, in order. */
  function Frames(request: Request): (rs: seq<Response>)
    ensures |rs| == ProcessingCount + 1
    ensures forall i :: 0 <= i < ProcessingCount ==> rs[i] == ProcessingResponse()
    ensures rs[ProcessingCount] == TerminalResponse(request)
  {
    seq(ProcessingCount, _ => ProcessingResponse()) + [TerminalResponse(request)]
  }

  /** One frame as written: the serialized Response and the line feed that
      separates it from the next. */
  function FrameLine(r: Response): string {
    SerializeResponse(r) + "\n"
  }

  /** The buffers a session writes for the frames `rs`, one write per frame. */
  function FrameLines(rs: seq<Response>): (ws: seq<string>)
    ensures |ws| == |rs|
  {
    if rs == [] then [] else FrameLines(rs[..|rs| - 1]) + [FrameLine(rs[|rs| - 1])]
  }

  /** The `i`-th buffer written is the `i`-th frame's line. */
  lemma {:induction false} FrameLinesAt(rs: seq<Response>, i: nat)
    requires i < |rs|
    ensures FrameLines(rs)[i] == FrameLine(rs[i])
  {
    if i < |rs| - 1 {
      FrameLinesAt(rs[..|rs| - 1], i);
    }
  }

  /** Writing two runs of frames writes the buffers of each, in order. */
  lemma {:induction false} FrameLinesAppend(a: seq<Response>, b: seq<Response>)
    ensures FrameLines(a + b) == FrameLines(a) + FrameLines(b)
  {
    if b == [] {
      assert a + b == a;
    } else {
      var b' := b[..|b| - 1];
      assert (a + b)[..|a + b| - 1] == a + b';
      FrameLinesAppend(a, b');
      AppendAssoc(FrameLines(a), FrameLines(b'), [FrameLine(b[|b| - 1])]);
    }
  }

  /** What the peer receives once the frames `rs` are written. */
  function Transcript(rs: seq<Response>): string {
    Concat(FrameLines(rs))
  }

  /** What a session means to send, given what `read_to_string` returned:
      the frames for the decoded request, or the error that stops it before
      anything is written. */
  function Plan(read: Result<string>): (p: Result<seq<Response>>)
    ensures p.Success? <==> read.Success? && DeserializeRequest(read.value).Success?
    ensures p.Success? ==> p.value == Frames(DeserializeRequest(read.value).value)
    ensures read.Failure? ==> p == Failure(read.error)
  {
    var text :- read;
    var request :- DeserializeRequest(text);
    Success(Frames(request))
  }

  /** How many of `n` frames reach the stream when the write with ordinal
      `failingWrite` fails (0: none fails): the writes before it. */
  function Delivered(n: nat, failingWrite: nat): (d: nat)
    ensures d <= n
    ensures d < n <==> 1 <= failingWrite <= n
    ensures d < n ==> d == failingWrite - 1
  {
    if 1 <= failingWrite <= n then failingWrite - 1 else n
  }

  /** The buffers a session writes. */
  function SessionWrites(plan: Result<seq<Response>>, failingWrite: nat): seq<string> {
    if plan.Failure? then [] else FrameLines(plan.value[..Delivered(|plan.value|, failingWrite)])
  }

  /** What `handle_connection` returns. */
  function SessionOutcome(plan: Result<seq<Response>>, failingWrite: nat): Outcome {
    if plan.Failure? then Fail(plan.error)
    else if Delivered(|plan.value|, failingWrite) < |plan.value| then Fail(IoError)
    else Pass
  }

  lemma FrameLinesTake(rs: seq<Response>, i: nat)
    requires i < |rs|
    ensures FrameLines(rs[..i + 1]) == FrameLines(rs[..i]) + [FrameLine(rs[i])]
  {
    assert rs[..i + 1][..i] == rs[..i];
  }

  /** The plan of a session on `stream`, from the stream's fixed answers. */
  function StreamPlan(stream: UnixStream, cursor: nat): Result<seq<Response>>
    requires cursor <= |stream.inbound|
  {
    Plan(if stream.readFails then Failure(IoError) else Success(stream.inbound[cursor..]))
  }

  /** The first `n` processing frames. */
  function ProcessingFrames(n: nat): (rs: seq<Response>)
    ensures |rs| == n && forall i :: 0 <= i < n ==> rs[i] == ProcessingResponse()
  {
    seq(n, _ => ProcessingResponse())
  }

  lemma FramesPrefix(request: Request, n: nat)
    requires n <= ProcessingCount
    ensures Frames(request)[..n] == ProcessingFrames(n)
  {
  }

  /** The loop of `handle_connection`: nine `Processing` frames, each
      serialized, given its line feed and written, until a write fails. */
  method SendProcessing(stream: UnixStream) returns (r: Outcome)
    requires stream.writeCalls == 0 && !stream.writeShut
    modifies stream`sent, stream`writeCalls
    ensures var d := Delivered(ProcessingCount, stream.failingWrite);
      stream.sent == old(stream.sent) + FrameLines(ProcessingFrames(d))
      && stream.writeCalls == (if d < ProcessingCount then d + 1 else ProcessingCount)
      && r == (if d < ProcessingCount then Fail(IoError) else Pass)
  {
    ghost var start := stream.sent;
    var i := 0;
    while i < ProcessingCount
      invariant 0 <= i <= ProcessingCount
      invariant stream.writeCalls == i
      invariant !(1 <= stream.failingWrite <= i)
      invariant stream.sent == start + FrameLines(ProcessingFrames(i))
    {
      var processing := SerializeResponse(NewResponse("processing", Processing, "still processing..."));
      processing := processing + "\n";
      var written := stream.Write(processing);
      if written.Fail? {
        return Fail(written.error);
      }
      assert ProcessingFrames(i + 1)[..i] == ProcessingFrames(i);
      assert FrameLines(ProcessingFrames(i + 1)) == FrameLines(ProcessingFrames(i)) + [processing];
      AppendAssoc(start, FrameLines(ProcessingFrames(i)), [processing]);
      i := i + 1;
    }
    r := Pass;
  }

  /** The last step of `handle_connection`: the terminal frame chosen by
      the request, serialized, given its line feed and written. */
  method SendTerminal(stream: UnixStream, request: Request) returns (r: Outcome)
    modifies stream`sent, stream`writeCalls
    ensures stream.writeCalls == old(stream.writeCalls) + 1
    ensures r == if stream.writeShut || stream.writeCalls == stream.failingWrite then Fail(IoError) else Pass
    ensures stream.sent == if r.Pass? then old(stream.sent) + [FrameLine(TerminalResponse(request))] else old(stream.sent)
  {
    var response := TerminalResponse(request);
    var responseAsString := SerializeResponse(response);
    responseAsString := responseAsString + "\n";
    r := stream.Write(responseAsString);
  }

  /** The rest of `handle_connection` once the request is decoded: the
      processing frames, then the terminal one chosen by the request, each
      written as its own line, until a write fails. */
  method Respond(stream: UnixStream, request: Request) returns (r: Outcome)
    requires stream.writeCalls == 0 && !stream.writeShut
    modifies stream`sent, stream`writeCalls
    ensures var frames := Frames(request);
      var d := Delivered(|frames|, stream.failingWrite);
      stream.sent == old(stream.sent) + FrameLines(frames[..d])
      && r == (if d < |frames| then Fail(IoError) else Pass)
  {
    r := SendProcessing(stream);
    if r.Fail? {
      ProcessingWritesPrefix(request, stream.failingWrite);
      return;
    }
    r := SendTerminal(stream, request);
    if r.Pass? {
      ProcessingThenTerminal(request, old(stream.sent));
    } else {
      assert Delivered(ProcessingCount + 1, stream.failingWrite) == ProcessingCount;
      FramesPrefix(request, ProcessingCount);
    }
  }

  /** The processing frames a failing write lets through are the frames of
      the session up to that write. */
  lemma ProcessingWritesPrefix(request: Request, failingWrite: nat)
    requires 1 <= failingWrite <= ProcessingCount
    ensures FrameLines(ProcessingFrames(failingWrite - 1))
         == FrameLines(Frames(request)[..Delivered(ProcessingCount + 1, failingWrite)])
  {
    FramesPrefix(request, failingWrite - 1);
  }

  /** The nine processing frames, then the terminal one, are the session's
      frames. */
  lemma ProcessingThenTerminal(request: Request, start: seq<string>)
    ensures start + FrameLines(ProcessingFrames(ProcessingCount)) + [FrameLine(TerminalResponse(request))]
         == start + FrameLines(Frames(request)[..ProcessingCount + 1])
  {
    var frames := Frames(request);
    FramesPrefix(request, ProcessingCount);
    FrameLinesTake(frames, ProcessingCount);
    AppendAssoc(start, FrameLines(ProcessingFrames(ProcessingCount)), [FrameLine(TerminalResponse(request))]);
  }

  /** `handle_connection`, on a freshly accepted stream. */
  method HandleConnection(stream: UnixStream) returns (r: Outcome)
    requires stream.Valid() && stream.writeCalls == 0 && !stream.writeShut
    modifies stream`cursor, stream`sent, stream`writeCalls
    ensures stream.Valid()
    ensures var plan := StreamPlan(stream, old(stream.cursor));
      stream.sent == old(stream.sent) + SessionWrites(plan, stream.failingWrite)
      && r == SessionOutcome(plan, stream.failingWrite)
  {
    var message := stream.ReadToString();
    if message.Failure? {
      return Fail(message.error);
    }
    var decoded := DeserializeRequest(message.value);
    if decoded.Failure? {
      return Fail(decoded.error);
    }
    r := Respond(stream, decoded.value);
  }

  // ---- properties of a session ----

  /** Each frame on the wire is one serialized Response followed by exactly
      one line feed, its last character. */
  lemma FrameLineIsOneLine(r: Response)
    ensures var line := FrameLine(r);
      line[|line| - 1] == '\n' && '\n' !in line[..|line| - 1]
  {
    SerializedResponseHasNoNewline(r);
    assert FrameLine(r)[..|FrameLine(r)| - 1] == SerializeResponse(r);
  }

  /** A read error, or a request that does not decode, stops the session
      before its first write. */
  lemma NothingWrittenWithoutRequest(read: Result<string>, failingWrite: nat)
    requires read.Failure? || DeserializeRequest(read.value).Failure?
    ensures SessionWrites(Plan(read), failingWrite) == []
    ensures SessionOutcome(Plan(read), failingWrite).Fail?
  {
  }

  /** A session that succeeds writes exactly ten frames: nine identical
      Processing frames, then the terminal frame chosen by the request. */
  lemma CompleteSession(request: Request, failingWrite: nat)
    requires SessionOutcome(Success(Frames(request)), failingWrite) == Pass
    ensures var ws := SessionWrites(Success(Frames(request)), failingWrite);
      |ws| == ProcessingCount + 1
      && (forall i :: 0 <= i < ProcessingCount ==>
            ws[i] == FrameLine(Response("processing", Processing, "still processing...")))
      && ws[ProcessingCount] == FrameLine(TerminalResponse(request))
  {
    var frames := Frames(request);
    assert frames[..|frames|] == frames;
    forall i | 0 <= i <= ProcessingCount {
      FrameLinesAt(frames, i);
    }
  }

  /** A session succeeds exactly when no write fails. */
  lemma SessionPasses(request: Request, failingWrite: nat)
    ensures SessionOutcome(Success(Frames(request)), failingWrite) == Pass
        <==> !(1 <= failingWrite <= ProcessingCount + 1)
  {
  }

  /** When the `k`-th write fails, the peer has the first `k - 1` frames,
      all of them Processing frames, and the session reports the error. */
  lemma FailedWriteTruncates(request: Request, k: nat)
    requires 1 <= k <= ProcessingCount + 1
    ensures SessionWrites(Success(Frames(request)), k) == FrameLines(ProcessingFrames(k - 1))
    ensures SessionOutcome(Success(Frames(request)), k) == Fail(IoError)
  {
    FramesPrefix(request, k - 1);
  }

  /** No run of processing frames holds the terminal frame, so a truncated
      session never delivers it. */
  lemma NoTerminalAmongProcessing(request: Request, n: nat)
    ensures FrameLine(TerminalResponse(request)) !in FrameLines(ProcessingFrames(n))
  {
    var ws := FrameLines(ProcessingFrames(n));
    TerminalIsNotProcessing(request);
    forall i | 0 <= i < |ws|
      ensures ws[i] != FrameLine(TerminalResponse(request))
    {
      FrameLinesAt(ProcessingFrames(n), i);
    }
  }

  /** A terminal frame never reads as a processing one on the wire. */
  lemma TerminalIsNotProcessing(request: Request)
    ensures FrameLine(TerminalResponse(request)) != FrameLine(ProcessingResponse())
  {
    var t, p := TerminalResponse(request), ProcessingResponse();
    var a, b := SerializeResponse(t), SerializeResponse(p);
    ResponseStringRoundTrip(t);
    ResponseStringRoundTrip(p);
    assert a != b;
    assert FrameLine(t)[..|FrameLine(t)| - 1] == a;
    assert FrameLine(p)[..|FrameLine(p)| - 1] == b;
  }

  // ---- the accept loop of `main` ----

  /** One result of `accept_connection`: a connected stream, or an error. */
  datatype Incoming = Accepted(stream: UnixStream) | AcceptFailed

  /** A stream as `accept` hands it over: nothing read, written or shut. */
  ghost predicate Fresh(s: UnixStream)
    reads s
  {
    s.Valid() && s.cursor == 0 && s.writeCalls == 0 && !s.writeShut && s.sent == []
  }

  /** The streams among the connection attempts `cs`. */
  ghost function Streams(cs: seq<Incoming>): set<UnixStream> {
    set i | 0 <= i < |cs| && cs[i].Accepted? :: cs[i].stream
  }

  /** No stream is handed out twice. */
  ghost predicate Distinct(cs: seq<Incoming>) {
    forall i, j :: 0 <= i < j < |cs| && cs[i].Accepted? && cs[j].Accepted? ==> cs[i].stream != cs[j].stream
  }

  /** How one connection attempt ends: a failed accept, or the session on a
      fresh stream. */
  function AttemptOutcome(c: Incoming): Outcome {
    match c
    case AcceptFailed => Fail(AcceptError)
    case Accepted(s) => SessionOutcome(StreamPlan(s, 0), s.failingWrite)
  }

  /** The position of the first attempt that fails; `|cs|` when none does. */
  function FirstFailure(cs: seq<Incoming>): (k: nat)
    ensures k <= |cs|
    ensures forall i :: 0 <= i < k ==> AttemptOutcome(cs[i]) == Pass
    ensures k < |cs| ==> AttemptOutcome(cs[k]).Fail?
  {
    if cs == [] then 0
    else if AttemptOutcome(cs[0]).Fail? then 0
    else 1 + FirstFailure(cs[1..])
  }

  /** When the attempts before `k` pass and attempt `k` fails, the loop
      stops there, with that attempt's error. */
  lemma {:induction false} ServeStopsAt(cs: seq<Incoming>, k: nat)
    requires k < |cs|
    requires forall i :: 0 <= i < k ==> AttemptOutcome(cs[i]) == Pass
    requires AttemptOutcome(cs[k]).Fail?
    ensures FirstFailure(cs) == k
  {
    if k > 0 {
      assert AttemptOutcome(cs[1..][k - 1]) == AttemptOutcome(cs[k]);
      ServeStopsAt(cs[1..], k - 1);
    }
  }

  /** An attempt that passes, before the first failure, moves the first
      failure past it. */
  lemma PassedAttempt(cs: seq<Incoming>, i: nat)
    requires i < |cs| && i <= FirstFailure(cs)
    requires AttemptOutcome(cs[i]) == Pass
    ensures i + 1 <= FirstFailure(cs)
  {
  }

  /** How `main` ends after the attempts `cs`: with the error of the first
      attempt that fails, or, when none does, not at all (None: it is
      blocked in the next `accept`). */
  function ServeResult(cs: seq<Incoming>): Option<Error> {
    var k := FirstFailure(cs);
    if k < |cs| then Some(AttemptOutcome(cs[k]).error) else None
  }

  /** The `loop` of `main`: accept, handle, repeat; the first error from
      either leaves the loop and is returned. */
  method Serve(cs: seq<Incoming>) returns (stopped: Option<Error>)
    requires Distinct(cs)
    requires forall i :: 0 <= i < |cs| && cs[i].Accepted? ==> Fresh(cs[i].stream)
    modifies Streams(cs)
    ensures stopped == ServeResult(cs)
    ensures forall i :: 0 <= i < |cs| && cs[i].Accepted? ==>
      cs[i].stream.sent == if i <= FirstFailure(cs)
        then SessionWrites(StreamPlan(cs[i].stream, 0), cs[i].stream.failingWrite)
        else []
  {
    var i := 0;
    while i < |cs|
      invariant i <= FirstFailure(cs)
      invariant forall j :: 0 <= j < i && cs[j].Accepted? ==>
        cs[j].stream.sent == SessionWrites(StreamPlan(cs[j].stream, 0), cs[j].stream.failingWrite)
      invariant forall j :: i <= j < |cs| && cs[j].Accepted? ==> Fresh(cs[j].stream)
    {
      if cs[i].AcceptFailed? {
        return Some(AcceptError);
      }
      var stream := cs[i].stream;
      ghost var writes := SessionWrites(StreamPlan(stream, 0), stream.failingWrite);
      label before:
      var r := HandleConnection(stream);
      assert stream.sent == [] + writes == writes;
      forall j | 0 <= j < i && cs[j].Accepted?
        ensures cs[j].stream.sent == old@before(cs[j].stream.sent)
      {
        assert cs[j].stream != stream;
      }
      assert r == AttemptOutcome(cs[i]);
      if r.Fail? {
        return Some(r.error);
      }
      PassedAttempt(cs, i);
      i := i + 1;
    }
    return None;
  }

  // ---- `main` ----

  /** The socket `main` builds: path "socket", mode 0o700, blocking. */
  function ServerBuilder(): (b: SocketBuilder)
    ensures b.path == Some("socket")
    ensures b.permissions == Some(Permissions(0x1C0))
    ensures b.nonblocking == Some(false) && !ModeOf(b)
  {
    Nonblocking(WithPermissions(WithPath(NewBuilder(), "socket"), 0x1C0), false)
  }

  /** `main`: build the socket, then serve the attempts `cs` one after the
      other; a build error ends it before any connection is served. */
  method ServerMain(fs: FileSystem, cs: seq<Incoming>) returns (stopped: Option<Error>)
    requires Distinct(cs)
    requires forall i :: 0 <= i < |cs| && cs[i].Accepted? ==> Fresh(cs[i].stream)
    modifies fs, Streams(cs)
    ensures var built := BuildSpec(ServerBuilder(), old(fs.entries), fs.removeFails, fs.bindFails, fs.chmodFails, fs.BuildModeFails());
      && fs.entries == built.entries
      && stopped == (if built.error.Some? then built.error else ServeResult(cs))
      && (built.error.Some? ==> forall i :: 0 <= i < |cs| && cs[i].Accepted? ==> cs[i].stream.sent == [])
      && (built.error.None? ==> forall i :: 0 <= i < |cs| && cs[i].Accepted? ==>
            cs[i].stream.sent == if i <= FirstFailure(cs)
              then SessionWrites(StreamPlan(cs[i].stream, 0), cs[i].stream.failingWrite)
              else [])
  {
    var socket := Build(ServerBuilder(), fs);
    if socket.Failure? {
      stopped := Some(socket.error);
      assert forall i :: 0 <= i < |cs| && cs[i].Accepted? ==> Fresh(cs[i].stream);
      return;
    }
    stopped := Serve(cs);
  }
}
