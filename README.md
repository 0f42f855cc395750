# Unix-socket request/response server and client, modelled in Dafny

The repository has two binaries that talk over a Unix-domain socket:

- The **server** builds a listening socket with a staged builder: path `"socket"`, mode 0o700, blocking.
- The server then accepts connections one after another. For each one it:
  - reads the whole request until the peer half-closes;
  - decodes it as JSON;
  - writes nine `Processing` responses, then one terminal response chosen by the request's `id`;
  - ends every response with a single line feed.
- The **client** connects and sends one request, without a delimiter. It then half-closes its write side.
- The client then reads line by line. It skips `Processing` responses and stops at the first `Ok` or `Error`.

The model has these parts:

- **Wire codec.**
  - The two messages and the status enumeration.
  - The compact JSON that serde_json writes for them: fields in declaration order, status names `OK` / `PROCESSING` / `ERROR`, strings escaped as in section 7 of RFC 8259.
  - A decoder for exactly that shape.
  - The byte forms, through UTF-8.
- **Streams.** A `UnixStream` class. The peer's data and the faults are fixed when the stream is constructed:
  - which write fails;
  - whether `read_to_string` fails;
  - which `read_line` fails;
  - whether `shutdown` fails.

  The stream records the buffer of every successful write.
- **Server session.**
  - A pure rule chooses the frames.
  - `handle_connection` is modelled as four methods:
    - `HandleConnection` reads and decodes;
    - `Respond` writes the frames, through the two below;
    - `SendProcessing` runs the nine-frame loop;
    - `SendTerminal` writes the terminal frame.
  - Each method is proved against the pure description `SessionWrites` / `SessionOutcome`.
  - The accept loop of `main` runs over a finite sequence of accept results.
- **Client session.** `write_request_onto_stream` and the read loop of `main`. The loop is a method proved against the pure `ReadLoop`.
- **Composition.**
  - The server's transcript, fed to the client loop, makes the client stop after exactly the tenth line, on the status chosen from the request's id.
  - A truncated transcript makes the client fail at end of stream.
  - A fault-free exchange ends with `Response("response", Ok, "Roger that")`.
- **Socket builder.**
  - The builder record, with one setter function per field.
  - `build`: a method over a `FileSystem` class, a map from existing paths to optional permissions, proved against the pure `BuildSpec`.
  - `Socket::set_nonblocking`.

Files:

- `errors.dfy`: error kinds, `Option`, `Result`, `Outcome`, and the regrouping of concatenations.
- `utf8.dfy`, `json_string.dfy`, `json_object.dfy`: the codec layers.
- `message.dfy`: the messages and their codec.
- `stream.dfy`: the stream class.
- `server.dfy`, `client.dfy`, `session.dfy`: the two binaries and their composition.
- `local_socket.dfy`: the socket record and its builder.

Two points about how failures are modelled:

- An error from `handle_connection` (a read, decode or write failure) is propagated by `?` at src/bin/server.rs:41 and ends `main`, like an accept error at src/bin/server.rs:34. Per-connection errors are not confined to their connection (`Server.Serve`, `Server.ServeResult`).
- The code reports every failure through one `anyhow` error. The model keeps only the kind of step that failed, in its own classification:
  - a failed removal of a stale entry and a failed bind are `BindError`;
  - chmod is `PermissionError`;
  - a missing path and setting the blocking mode during `build` are `ConfigError`;
  - stream reads, writes and shutdowns are `IoError`;
  - decoding is `DecodeError`;
  - accept is `AcceptError`.

## Model

| member | source | states |
|---|---|---|
| Message.NewRequest | src/message.rs:11-19 | both arguments are stored verbatim, in `id` and `message` |
| Message.NewResponse | src/message.rs:46-55 | id, status and message are stored verbatim |
| Message.StatusFromName | src/message.rs:30-36 | the decoder accepts exactly the three SCREAMING_SNAKE_CASE names, each for its own variant and no other (both directions) |
| Message.StatusWireNames | src/message.rs:31-36 | the status is written as exactly `"OK"`, `"PROCESSING"` or `"ERROR"` |
| Message.EscapeVerbatim | src/message.rs:21-23 | a string with no quote, backslash or control character is written unchanged |
| Message.RequestRoundTrip | src/message.rs:21-23 | decoding a serialized Request followed by any JSON whitespace gives back the same Request |
| Message.RequestStringRoundTrip | src/message.rs:71-79 | `from_str(to_serialized_string(r)) == r` for every Request |
| Message.ResponseRoundTrip | src/message.rs:38-63 | a serialized Response followed by whitespace, such as the line feed `read_line` keeps, decodes to the same Response |
| Message.ResponseStringRoundTrip | src/message.rs:57-59 | `from_str(to_serialized_string(r)) == r` for every Response |
| Message.SerializedResponseHasNoNewline | src/message.rs:57-59 | no serialized Response contains a raw line feed |
| Message.NonStringIdRejected | src/message.rs:100-104 | every text that begins `{"id":` followed by anything that does not begin with a quotation mark fails to decode as a Request; this includes whitespace before a string value, which the decoder does not accept (see "Left out") |
| Message.NumericIdRejected | src/message.rs:100-104 | `{"id":345,"message":"HeyPatric"}` fails to decode as a Request |
| Message.EmptyIsNotAResponse | src/bin/client.rs:25-33 | the empty line left at end of stream does not decode as a Response |
| Message.RequestBytesAreUtf8 | src/message.rs:92-98 | `serialize_to_bytes` is the UTF-8 encoding of `to_serialized_string` |
| Message.ResponseBytesAreUtf8 | src/message.rs:61-63 | the same for Response |
| Message.RequestBytesRoundTrip | src/message.rs:81-90 | `from_slice` of the UTF-8 bytes of the serialized Request, or of `serialize_to_bytes`, gives back the Request |
| Message.ResponseBytesRoundTrip | src/message.rs:61-63 | `from_slice(serialize_to_bytes(r)) == r` for every Response |
| JsonString.EscapeChar | src/message.rs:21-23 | a character that needs escaping becomes a backslash sequence of ASCII characters; any other is written as itself |
| JsonString.EscapeHasNoControl | src/message.rs:21-23 | escaped text holds no control character, so no line feed |
| JsonString.QuoteHasNoNewline | src/message.rs:21-23 | a quoted JSON string holds no line feed |
| JsonString.UnicodeEscapeRead | src/message.rs:71-79 | the reader turns the writer's `\u00xx` escape of a control character back into that character and leaves what follows |
| JsonString.EscapeRead | src/message.rs:71-79 | every escape the writer produces reads back as the character it stands for |
| JsonString.ParseEscapeChar | src/message.rs:71-79 | the reader turns one written character, escaped or not, back into that character and then reads on as it would without it |
| JsonString.ParseQuote | src/message.rs:71-79 | the JSON string reader reads any quoted string back exactly and leaves what follows it |
| JsonString.ParseBodyEscape | src/message.rs:71-79 | the reader undoes the escaping of every string up to the closing quote |
| JsonObject.ParseMemberWritten | src/message.rs:71-79 | reading a written `"name":"value"` member with the expected name gives back the value and leaves the tail |
| JsonObject.ParseMembersWritten | src/message.rs:71-79 | reading the written members with the expected names gives back their values, in order, and leaves the tail |
| JsonObject.ReadWritten | src/message.rs:71-79 | reading a written object with the expected field names gives back its values, in order, and leaves the tail |
| JsonObject.WrittenHasNoNewline | src/bin/server.rs:93-94 | a written object holds no line feed, so the delimiter is the only one in a frame |
| JsonObject.WriteObjectBytesAreUtf8 | src/message.rs:25-27 | the bytes written for an object are the UTF-8 encoding of its text |
| Utf8.DecodeTwoBytes | src/message.rs:81-90 | a scalar value from U+0080 to U+07FF is decoded from its two-byte form |
| Utf8.DecodeThreeBytes | src/message.rs:81-90 | a scalar value from U+0800 to U+FFFF is decoded from its three-byte form |
| Utf8.DecodeFourBytes | src/message.rs:81-90 | a scalar value from U+10000 up is decoded from its four-byte form |
| Utf8.DecodeEncodeChar | src/message.rs:81-90 | the encoding of any scalar value decodes to it and takes exactly its own bytes, whatever follows |
| Utf8.DecodeEncode | src/message.rs:81-90 | decoding the UTF-8 encoding of any string gives it back |
| Utf8.EncodeAppend | src/message.rs:92-98 | the encoding of a concatenation is the concatenation of the encodings |
| Stream.SplitLine | src/bin/client.rs:26-28 | `read_line` yields a prefix holding at most one line feed, and only as its last character; it is empty only at end of input; line and rest together are the input |
| Stream.UnixStream.Write | src/bin/server.rs:76-78 | a write fails exactly when it is the failing call or the write side is shut; otherwise the whole buffer is appended to what the peer receives |
| Stream.UnixStream.ShutdownWrite | src/bin/client.rs:71 | a half-close that succeeds shuts the write side; one that fails reports an error |
| Stream.UnixStream.ReadToString | src/bin/server.rs:48-50 | returns everything not yet read up to the peer's half-close, or an error |
| Stream.UnixStream.ReadLine | src/bin/client.rs:26-28 | returns the next line as in `SplitLine` and advances past it; the failing call reports an error and consumes nothing |
| Server.TerminalResponse | src/bin/server.rs:84-87 | `("response", Ok, "Roger that")` exactly when the id is `"request"`, otherwise `("what", Error, "Sorry what?")`; always terminal; depends on the id only |
| Server.ProcessingFrames | src/bin/server.rs:63-67 | every processing frame is `Response("processing", Processing, "still processing...")` |
| Server.Frames | src/bin/server.rs:62-99 | ten frames: nine Processing frames, then the terminal frame for the request |
| Server.FrameLinesAt | src/bin/server.rs:62-99 | the i-th buffer written is the i-th frame serialized with its line feed |
| Server.FrameLinesAppend | src/bin/server.rs:62-99 | writing two runs of frames writes the buffers of the first run, then those of the second |
| Server.FramesPrefix | src/bin/server.rs:62-81 | the first n frames of a session, n up to nine, are processing frames |
| Server.Plan | src/bin/server.rs:48-56 | frames are planned exactly when the read succeeds and the request decodes; a read error is passed on |
| Server.Delivered | src/bin/server.rs:76-78 | fewer than `n` writes land exactly when a write among the first `n` fails, and then exactly the writes before it do |
| Server.SendProcessing | src/bin/server.rs:62-81 | the loop appends one framed Processing response per successful write and stops at the first failing write with its error |
| Server.SendTerminal | src/bin/server.rs:84-99 | the terminal frame chosen by the request, with its line feed, is appended when the write succeeds; the failing write or a shut write side reports an error and appends nothing |
| Server.ProcessingWritesPrefix | src/bin/server.rs:62-81 | when the k-th processing write fails, what reached the peer is the session's first k-1 frames |
| Server.ProcessingThenTerminal | src/bin/server.rs:62-99 | the nine processing frames followed by the terminal frame are the session's ten frames |
| Server.Respond | src/bin/server.rs:62-99 | the peer receives the frame lines of the frames delivered before the first failing write; the result is Pass exactly when all ten land |
| Server.HandleConnection | src/bin/server.rs:45-102 | what the stream receives and the result are those of `SessionWrites` / `SessionOutcome` on the plan for what was read |
| Server.FrameLineIsOneLine | src/bin/server.rs:72 | each frame ends in a line feed and holds no other |
| Server.NothingWrittenWithoutRequest | src/bin/server.rs:55-56 | a read error or a request that does not decode means nothing is written and the session fails |
| Server.CompleteSession | src/bin/server.rs:62-99 | a session that passes writes exactly ten frames: nine Processing frames, then the terminal frame |
| Server.SessionPasses | src/bin/server.rs:62-99 | a session passes exactly when none of its ten writes fails |
| Server.FailedWriteTruncates | src/bin/server.rs:76-78 | when the k-th write fails, the peer has only the first k-1 frames, all Processing, and the session fails with an I/O error |
| Server.NoTerminalAmongProcessing | src/bin/server.rs:97-99 | the terminal frame is not among any run of processing frames, so a truncated session never delivers it |
| Server.TerminalIsNotProcessing | src/bin/server.rs:84-94 | the terminal frame's line differs from the processing frame's line |
| Server.FirstFailure | src/bin/server.rs:32-42 | every attempt before the returned position passes, and the attempt at it fails |
| Server.PassedAttempt | src/bin/server.rs:32-42 | an attempt that passes, at or before the first failure, is before it |
| Server.ServeStopsAt | src/bin/server.rs:32-42 | when the attempts before k pass and attempt k fails, the loop stops at k |
| Server.Serve | src/bin/server.rs:32-42 | the loop returns the error of the first failing accept or session; each stream up to it receives its session's writes; later streams receive nothing |
| Server.ServerBuilder | src/bin/server.rs:22-26 | the builder chain stages path `"socket"`, mode 0o700 and blocking mode |
| Server.ServerMain | src/bin/server.rs:17-43 | a failed build ends `main` with its error before any connection is served, and no stream receives anything; otherwise `main` ends as the accept loop does, and each stream up to the first failing attempt receives its session's writes while later streams receive nothing |
| Client.ClientRequest | src/bin/client.rs:55 | the request has id `"request"` and message `"This is a request, please respond"` |
| Client.WriteRequestOntoStream | src/bin/client.rs:54-75 | one write of the serialized request with no delimiter, then a half-close; a failed write skips the half-close; a failed write and a failed half-close both give `Fail(IoError)`, and only the stream's `sent` and `writeShut` tell the two apart |
| Client.ReadLoop | src/bin/client.rs:23-49 | the loop reads at least one line; it ends with a terminal response or with a decode error |
| Client.ReadResponses | src/bin/client.rs:21-49 | the loop's result, how much it reads and how many lines it asks for are those of `ReadLoop` on what is left in the stream |
| Client.ClientMain | src/bin/client.rs:11-52 | a failed connect, write or half-close ends `main` with an error; otherwise `main` ends as `ReadLoop` does on the server's data |
| Client.EndOfStreamFails | src/bin/client.rs:25-33 | at end of stream the empty line fails to decode, so the loop ends with an error after one line and never spins |
| Client.ReadErrorFails | src/bin/client.rs:26-28 | a discarded `read_line` error leaves the line empty, and the loop ends with a decode error |
| Client.UndecodableLineFails | src/bin/client.rs:32-33 | a line that does not decode ends the loop with an error, right after that line |
| Client.TerminalStops | src/bin/client.rs:36-44 | an `Ok` or `Error` response ends the loop right after its own line, leaving the rest unread |
| Client.ProcessingSkipped | src/bin/client.rs:45-47 | a `Processing` response is skipped, and the loop continues on the next line |
| Session.ReadLoopOverFrames | src/bin/client.rs:23-49 | framed processing responses followed by a terminal one make the loop stop on the terminal one, after one line per frame |
| Session.ReadLoopOverProcessing | src/bin/client.rs:25-33 | framed processing responses alone make the loop fail at end of stream, one line after the last |
| Session.ClientConsumesServerTranscript | src/bin/client.rs:23-49 | on the server's ten-frame transcript the client reads exactly ten lines and stops with `Ok` exactly when the id is `"request"`, `Error` otherwise |
| Session.TruncatedSessionFails | src/bin/server.rs:76-78 | a transcript cut short by the k-th write makes the client read k lines and fail, never seeing a terminal frame |
| Session.ServerReadsRequest | src/bin/server.rs:48-56 | the server decodes the one serialized request it reads back to that request, and plans its ten frames |
| Session.FaultFreeSession | src/bin/server.rs:45-102 | on a fault-free stream carrying a serialized request, the session passes and sends the transcript of the request's frames |
| Session.ServeClientRequest | src/bin/server.rs:45-102 | given the client's request, the server passes and sends its full transcript |
| Session.ClientReadsTranscript | src/bin/client.rs:18-49 | on the server's transcript for a request, the client ends with the terminal response chosen for that request |
| Session.Conversation | src/bin/client.rs:11-52 | a fault-free exchange ends with the server passing and the client receiving `Response("response", Ok, "Roger that")` |
| LocalSocket.FromMode | src/socket.rs:82 | the permissions keep the given mode bits |
| LocalSocket.NewBuilder | src/socket.rs:50-57 | nothing is staged |
| LocalSocket.SettersStageOneField | src/socket.rs:59-92 | `with_path`, `nonblocking` and `with_permissions` each stage their own field and keep the other three |
| LocalSocket.LaterSetterWins | src/socket.rs:59-92 | a later call of the same setter overrides an earlier one |
| LocalSocket.SettersCommute | src/socket.rs:59-92 | setters of different fields give the same record in either order |
| LocalSocket.ModeOf | src/socket.rs:123-127 | the staged blocking mode, or blocking when none was staged |
| LocalSocket.FileSystem.Metadata | src/socket.rs:108 | true exactly when an entry exists at the path |
| LocalSocket.FileSystem.RemoveFile | src/socket.rs:110-111 | removes the entry, or fails and leaves everything as it was |
| LocalSocket.FileSystem.Bind | src/socket.rs:114 | fails on a taken path or a bind fault; otherwise creates the socket entry and a fresh blocking listener |
| LocalSocket.FileSystem.SetPermissions | src/socket.rs:116-118 | sets the entry's permissions, or fails and leaves everything as it was |
| LocalSocket.Listener.SetNonblocking | src/socket.rs:129-131 | counts the call; sets the listener's mode unless this call is the one that fails, which reports an error and leaves the mode |
| LocalSocket.Socket.SetNonblocking | src/socket.rs:25-32 | reconfigures only the listener, and can fail on a built socket when its listener's call fails; the stored `nonblocking` field is unchanged |
| LocalSocket.Build | src/socket.rs:94-143 | the filesystem and the result follow `BuildSpec`. The bind step never sees a stale entry. A built socket has the staged path and permissions, and the staged blocking mode (blocking by default) on both the record and its listener, which has had exactly one `set_nonblocking` call |
| LocalSocket.BuildNeedsPath | src/socket.rs:96-98 | with no staged path, `build` fails with a configuration error and the filesystem is untouched |
| LocalSocket.BuildSucceeds | src/socket.rs:94-143 | `build` succeeds exactly when a path is staged and neither removal (when needed), bind, chmod (when configured) nor the mode change fails |
| LocalSocket.BuildLeavesSocketEntry | src/socket.rs:108-121 | after success the path holds a new entry with the staged permissions, or the system's when none were staged; all other paths are as before |
| LocalSocket.BuildTouchesOnlyItsPath | src/socket.rs:94-143 | whatever the outcome, no path other than the staged one changes |

## Left out

- Printing, the anyhow context strings, and `sleep(Duration::from_secs(1))` are not modelled. Errors are reduced to one kind per failing step.
- Partial writes are not modelled. Every call uses `write`, not `write_all`, and ignores the byte count. The model assumes each write delivers its whole buffer or nothing.
- The wire carries characters, not bytes. The binaries convert on every write (`as_bytes()`, src/bin/server.rs:77 and 98, src/bin/client.rs:61) and on every read (`read_to_string`, src/bin/server.rs:48-50; `read_line`, src/bin/client.rs:26-28). The model treats these conversions as the identity on valid text; the invalid-UTF-8 error of `read_to_string` is one of the cases folded into the stream's `readFails`, and for `read_line` it is one of the calls `failingRead` can name. UTF-8 is modelled explicitly only for `serialize_to_bytes` and for `from_slice`, which only a test calls (src/message.rs:87).
- General serde_json input is not modelled. The decoder accepts only the compact shape with fields in declaration order, string escapes included, plus trailing JSON whitespace. It does not accept:
  - leading or inner whitespace;
  - unknown, duplicate or reordered fields;
  - values of other JSON types.
- Serialization cannot fail for these types, so the `?` after `to_serialized_string` has no error path in the model.
- `read_line` errors are modelled as consuming nothing. Partial data delivered before an error, and invalid UTF-8, are not modelled.
- Session.Conversation: the two ends of the connection are separate stream objects, because a stream's inbound text is fixed when it is constructed. The server's stream is given the serialized client request as a value, and the client's stream is given the server's transcript, `Concat` of the server stream's `sent`. The client's own write of the request is not fed into the server's stream.
- Connecting and accepting are not called. `UnixStream::connect` is an `Option` parameter of `Client.ClientMain`, and `accept_connection` is an element of the sequence `Server.Serve` walks.
- The server runs until interrupted. The model serves a finite sequence of attempts; `None` means the loop would block in the next `accept`.
- `get_raw_fd`, `accept_connection` and src/bin/rawfd.rs are not modelled: they are thin I/O wrappers with no protocol logic.
- There is no concurrency: connections are served one after another.
- Permissions are their mode bits only. An entry that `bind` creates has the operating system's default permissions, shown as `None`.
- Client.ClientMain: returns the final response instead of printing it; `main` itself returns `Ok(())`.
- Client.ReadLoop: does not state that the unread rest is a suffix of the input, only that it is no longer. The composition lemmas pin the rest exactly where it matters.
