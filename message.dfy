/** The two wire messages, the closed status enumeration, and their compact
    JSON form as serde_json writes it (fields in declaration order, status
    names in SCREAMING_SNAKE_CASE) and reads it back. */
module Message {
  import opened Errors
  import opened JsonString
  import opened JsonObject
  import Utf8

  datatype Request = Request(id: string, message: string)

  datatype CommandStatus = Ok | Processing | Error

  datatype Response = Response(id: string, status: CommandStatus, message: string)

  /** `Ok` and `Error` end a response stream; `Processing` does not. */
  predicate IsTerminal(s: CommandStatus) {
    s != Processing
  }

  /** `Request::new`: both arguments are stored verbatim. */
  function NewRequest(id: string, message: string): (r: Request)
    ensures r.id == id && r.message == message
  {
    Request(id, message)
  }

  /** `Response::new`: all three arguments are stored verbatim. */
  function NewResponse(id: string, status: CommandStatus, message: string): (r: Response)
    ensures r.id == id && r.status == status && r.message == message
  {
    Response(id, status, message)
  }

  // ---- writing ----

  function StatusName(s: CommandStatus): string {
    match s
    case Ok => "OK"
    case Processing => "PROCESSING"
    case Error => "ERROR"
  }

  /** The variant a status name stands for; exactly the three names written
      by StatusName are accepted, each for its own variant. */
  function StatusFromName(n: string): (r: Option<CommandStatus>)
    ensures forall s :: r == Some(s) <==> n == StatusName(s)
  {
    if n == "OK" then Some(Ok)
    else if n == "PROCESSING" then Some(Processing)
    else if n == "ERROR" then Some(Error)
    else None
  }

  const RequestFields: seq<string> := ["id", "message"]
  const ResponseFields: seq<string> := ["id", "status", "message"]

  /** The members serde_json writes for a Request, in field order. */
  function RequestMembers(r: Request): seq<(string, string)> {
    [("id", r.id), ("message", r.message)]
  }

  /** The members serde_json writes for a Response, in field order. */
  function ResponseMembers(r: Response): seq<(string, string)> {
    [("id", r.id), ("status", StatusName(r.status)), ("message", r.message)]
  }

  /** `Request::to_serialized_string`. */
  function SerializeRequest(r: Request): string {
    WriteObject(RequestMembers(r))
  }

  /** `Response::to_serialized_string`. */
  function SerializeResponse(r: Response): string {
    WriteObject(ResponseMembers(r))
  }

  // ---- reading ----

  /** The whitespace serde_json skips after a value: space, tab, line feed and
      carriage return. */
  predicate AllWhitespace(s: string) {
    forall i :: 0 <= i < |s| ==> s[i] in " \t\n\r"
  }

  function ParseRequest(s: string): Option<(Request, string)> {
    var (vs, rest) :- ReadObject(RequestFields, s);
    Some((Request(vs[0], vs[1]), rest))
  }

  function ParseResponse(s: string): Option<(Response, string)> {
    var (vs, rest) :- ReadObject(ResponseFields, s);
    var status :- StatusFromName(vs[1]);
    Some((Response(vs[0], status, vs[2]), rest))
  }

  /** `serde_json::from_str::<Request>`: one object, then only whitespace. */
  function DeserializeRequest(s: string): Result<Request> {
    match ParseRequest(s)
    case None => Failure(DecodeError)
    case Some((r, rest)) => if AllWhitespace(rest) then Success(r) else Failure(DecodeError)
  }

  /** `serde_json::from_str::<Response>`. */
  function DeserializeResponse(s: string): Result<Response> {
    match ParseResponse(s)
    case None => Failure(DecodeError)
    case Some((r, rest)) => if AllWhitespace(rest) then Success(r) else Failure(DecodeError)
  }

  // ---- bytes ----

  /** `Request::serialize_to_bytes` (`serde_json::to_vec`). */
  function SerializeRequestToBytes(r: Request): seq<Utf8.byte> {
    WriteObjectBytes(RequestMembers(r))
  }

  /** `Response::serialize_to_bytes`. */
  function SerializeResponseToBytes(r: Response): seq<Utf8.byte> {
    WriteObjectBytes(ResponseMembers(r))
  }

  /** `serde_json::from_slice::<Request>`: the bytes must be UTF-8. */
  function DeserializeRequestFromBytes(bs: seq<Utf8.byte>): Result<Request> {
    match Utf8.Decode(bs)
    case None => Failure(DecodeError)
    case Some(s) => DeserializeRequest(s)
  }

  /** `serde_json::from_slice::<Response>`. */
  function DeserializeResponseFromBytes(bs: seq<Utf8.byte>): Result<Response> {
    match Utf8.Decode(bs)
    case None => Failure(DecodeError)
    case Some(s) => DeserializeResponse(s)
  }

  // ---- properties ----

  /** Each status is written as exactly one of the three names. */
  lemma StatusWireNames(s: CommandStatus)
    ensures Quote(StatusName(s)) == match s
      case Ok => "\"OK\""
      case Processing => "\"PROCESSING\""
      case Error => "\"ERROR\""
  {
    EscapeVerbatim(StatusName(s));
  }

  lemma {:induction false} EscapeVerbatim(s: string)
    requires forall i :: 0 <= i < |s| ==> !NeedsEscape(s[i])
    ensures Escape(s) == s
  {
    if s != [] {
      EscapeVerbatim(s[1..]);
      assert [s[0]] + s[1..] == s;
    }
  }

  /** Round trip: a serialized Request, followed by any whitespace (such as the
      line feed `read_line` keeps), reads back as the same Request. */
  lemma RequestRoundTrip(r: Request, ws: string)
    requires AllWhitespace(ws)
    ensures DeserializeRequest(SerializeRequest(r) + ws) == Success(r)
  {
    var ms := RequestMembers(r);
    assert Names(ms) == RequestFields && Values(ms) == [r.id, r.message];
    ReadWritten(ms, ws);
  }

  /** The test `serde_to_and_from_string_works`, for every Request. */
  lemma RequestStringRoundTrip(r: Request)
    ensures DeserializeRequest(SerializeRequest(r)) == Success(r)
  {
    RequestRoundTrip(r, []);
    assert SerializeRequest(r) + [] == SerializeRequest(r);
  }

  /** Round trip for Response, followed by any whitespace. */
  lemma ResponseRoundTrip(r: Response, ws: string)
    requires AllWhitespace(ws)
    ensures DeserializeResponse(SerializeResponse(r) + ws) == Success(r)
  {
    var ms := ResponseMembers(r);
    assert Names(ms) == ResponseFields && Values(ms) == [r.id, StatusName(r.status), r.message];
    ReadWritten(ms, ws);
  }

  lemma ResponseStringRoundTrip(r: Response)
    ensures DeserializeResponse(SerializeResponse(r)) == Success(r)
  {
    ResponseRoundTrip(r, []);
    assert SerializeResponse(r) + [] == SerializeResponse(r);
  }

  /** No serialized Response contains a line feed. */
  lemma SerializedResponseHasNoNewline(r: Response)
    ensures '\n' !in SerializeResponse(r)
  {
    WrittenHasNoNewline(ResponseMembers(r));
  }

  /** A Request whose `id` value is not a string literal (a number, say) is
      rejected, whatever follows. */
  lemma NonStringIdRejected(after: string)
    requires after == [] || after[0] != '"'
    ensures DeserializeRequest("{\"id\":" + after).Failure?
  {
    var q := Quote("id");
    assert q == "\"id\"" by {
      EscapeVerbatim("id");
    }
    assert "{\"id\":" + after == "{" + (q + (":" + after));
    ExpectLiteral("{", q + (":" + after));
    ParseQuote("id", ":" + after);
    ExpectLiteral(":", after);
    assert ParseMember("id", q + (":" + after)).None?;
  }

  /** The test `deserialize_error_works`: `{"id":345,"message":"HeyPatric"}`
      is rejected. */
  lemma NumericIdRejected()
    ensures DeserializeRequest("{\"id\":" + "345,\"message\":\"HeyPatric\"}").Failure?
  {
    NonStringIdRejected("345,\"message\":\"HeyPatric\"}");
  }

  /** An empty line is not a message. */
  lemma EmptyIsNotAResponse()
    ensures DeserializeResponse([]).Failure?
  {
  }

  /** The test `serde_to_bytes_works`, for every Request: `serialize_to_bytes`
      gives the UTF-8 bytes of `to_serialized_string`. */
  lemma RequestBytesAreUtf8(r: Request)
    ensures SerializeRequestToBytes(r) == Utf8.Encode(SerializeRequest(r))
  {
    WriteObjectBytesAreUtf8(RequestMembers(r));
  }

  lemma ResponseBytesAreUtf8(r: Response)
    ensures SerializeResponseToBytes(r) == Utf8.Encode(SerializeResponse(r))
  {
    WriteObjectBytesAreUtf8(ResponseMembers(r));
  }

  /** The test `serde_from_bytes_works`, for every Request: the UTF-8 bytes of
      the serialized string read back as the same Request. */
  lemma RequestBytesRoundTrip(r: Request)
    ensures DeserializeRequestFromBytes(Utf8.Encode(SerializeRequest(r))) == Success(r)
    ensures DeserializeRequestFromBytes(SerializeRequestToBytes(r)) == Success(r)
  {
    Utf8.DecodeEncode(SerializeRequest(r));
    RequestStringRoundTrip(r);
    RequestBytesAreUtf8(r);
  }

  lemma ResponseBytesRoundTrip(r: Response)
    ensures DeserializeResponseFromBytes(SerializeResponseToBytes(r)) == Success(r)
  {
    Utf8.DecodeEncode(SerializeResponse(r));
    ResponseStringRoundTrip(r);
    ResponseBytesAreUtf8(r);
  }
}
