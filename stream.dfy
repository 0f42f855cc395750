/** A connected `UnixStream`, with the operating system's answers fixed in
    advance: what the peer sends before it half-closes, and which calls fail.
    Data is modelled as characters; a write delivers its whole buffer or
    nothing (the source calls `write`, not `write_all`, and ignores the count),
    and the stream records the buffer of each write that succeeded. */
module Stream {
  import opened Errors

  /** The first line of `s` (up to and including its line feed, or all of `s`
      when it has none) and what follows it: what `BufRead::read_line` hands
      out and leaves behind. */
  function SplitLine(s: string): (r: (string, string))
    ensures r.0 + r.1 == s
    ensures r.0 == [] <==> s == []
    ensures forall i :: 0 <= i < |r.0| - 1 ==> r.0[i] != '\n'
    ensures r.1 == [] || r.0[|r.0| - 1] == '\n'
  {
    if s == [] then ([], [])
    else if s[0] == '\n' then ([s[0]], s[1..])
    else
      var (line, rest) := SplitLine(s[1..]);
      ([s[0]] + line, rest)
  }

  /** The chunks of `chunks`, one after the other: the byte stream that a
      sequence of writes puts on the wire. */
  function Concat(chunks: seq<string>): string {
    if chunks == [] then [] else chunks[0] + Concat(chunks[1..])
  }

  lemma {:induction false} ConcatAppend(xs: seq<string>, ys: seq<string>)
    ensures Concat(xs + ys) == Concat(xs) + Concat(ys)
  {
    if xs == [] {
      assert xs + ys == ys;
    } else {
      assert (xs + ys)[1..] == xs[1..] + ys;
      ConcatAppend(xs[1..], ys);
    }
  }

  /** A text without a line feed, followed by one, is read back as one line. */
  lemma {:induction false} SplitLineOf(t: string, rest: string)
    requires '\n' !in t
    ensures SplitLine(t + "\n" + rest) == (t + "\n", rest)
  {
    if t == [] {
      assert t + "\n" + rest == "\n" + rest;
    } else {
      assert (t + "\n" + rest)[1..] == t[1..] + "\n" + rest;
      SplitLineOf(t[1..], rest);
      assert [t[0]] + (t[1..] + "\n") == t + "\n";
    }
  }

  class UnixStream {
    /** Everything the peer sends before it shuts its write side. */
    const inbound: string
    /** Whether `read_to_string` reports an I/O error. */
    const readFails: bool
    /** The ordinal (1 for the first) of the write call that fails; 0 when
        every write succeeds. */
    const failingWrite: nat
    /** Whether `shutdown(Write)` reports an error. */
    const shutdownFails: bool
    /** The ordinal (1 for the first) of the `read_line` call that reports an
        error; 0 when none does. */
    const failingRead: nat

    /** How much of `inbound` has been read. */
    var cursor: nat
    /** The buffers of the successful writes so far, in order; the peer
        receives `Concat(sent)`. */
    var sent: seq<string>
    var writeCalls: nat
    var readCalls: nat
    /** Whether this side's write direction has been shut down. */
    var writeShut: bool

    ghost predicate Valid()
      reads this
    {
      cursor <= |inbound|
    }

    /** The stream as `accept` or `connect` hands it over. */
    constructor (inbound: string, readFails: bool, failingWrite: nat, shutdownFails: bool, failingRead: nat)
      ensures Valid()
      ensures this.inbound == inbound && this.readFails == readFails
      ensures this.failingWrite == failingWrite && this.shutdownFails == shutdownFails
      ensures this.failingRead == failingRead
      ensures cursor == 0 && sent == [] && writeCalls == 0 && readCalls == 0 && !writeShut
    {
      this.inbound := inbound;
      this.readFails := readFails;
      this.failingWrite := failingWrite;
      this.shutdownFails := shutdownFails;
      this.failingRead := failingRead;
      cursor := 0;
      sent := [];
      writeCalls := 0;
      readCalls := 0;
      writeShut := false;
    }

    /** `write`: fails when it is the failing call, or after shutdown. */
    method Write(buf: string) returns (r: Outcome)
      modifies this`sent, this`writeCalls
      ensures writeCalls == old(writeCalls) + 1
      ensures r == if writeShut || writeCalls == failingWrite then Fail(IoError) else Pass
      ensures sent == if r.Pass? then old(sent) + [buf] else old(sent)
    {
      writeCalls := writeCalls + 1;
      if writeShut || writeCalls == failingWrite {
        r := Fail(IoError);
      } else {
        sent := sent + [buf];
        r := Pass;
      }
    }

    /** `shutdown(Shutdown::Write)`. */
    method ShutdownWrite() returns (r: Outcome)
      modifies this`writeShut
      ensures r == if shutdownFails then Fail(IoError) else Pass
      ensures writeShut == (old(writeShut) || !shutdownFails)
    {
      if shutdownFails {
        r := Fail(IoError);
      } else {
        writeShut := true;
        r := Pass;
      }
    }

    /** `read_to_string`: everything up to the peer's half-close. */
    method ReadToString() returns (r: Result<string>)
      requires Valid()
      modifies this`cursor
      ensures Valid()
      ensures r == if readFails then Failure(IoError) else Success(inbound[old(cursor)..])
      ensures cursor == if readFails then old(cursor) else |inbound|
    {
      if readFails {
        r := Failure(IoError);
      } else {
        r := Success(inbound[cursor..]);
        cursor := |inbound|;
      }
    }

    /** `read_line` through a `BufReader`: the next line, or the empty
        string at end of stream; the failing call reports an error and
        consumes nothing. */
    method ReadLine() returns (line: Result<string>)
      requires Valid()
      modifies this`cursor, this`readCalls
      ensures Valid()
      ensures readCalls == old(readCalls) + 1
      ensures readCalls == failingRead ==> line == Failure(IoError) && cursor == old(cursor)
      ensures readCalls != failingRead ==>
        && line.Success?
        && (line.value, inbound[cursor..]) == SplitLine(inbound[old(cursor)..])
        && cursor == old(cursor) + |line.value|
    {
      readCalls := readCalls + 1;
      if readCalls == failingRead {
        return Failure(IoError);
      }
      var (l, rest) := SplitLine(inbound[cursor..]);
      assert inbound[cursor..] == l + rest;
      cursor := cursor + |l|;
      assert inbound[cursor..] == rest;
      line := Success(l);
    }
  }
}
