/** JSON objects whose members are all strings, in the compact form serde_json
    writes for a struct (its fields in declaration order, separated by commas,
    no whitespace) and reads back for a struct with those fields. */
module JsonObject {
  import opened Errors
  import opened JsonString
  import Utf8

  /** One `"name":"value"` member. */
  function Member(name: string, value: string): string {
    Quote(name) + ":" + Quote(value)
  }

  /** The members of `ms`, separated by commas. */
  function Members(ms: seq<(string, string)>): string {
    MembersCounted(ms, |ms|)
  }

  /** Members, recursing on the count `n` of members left (see
      JsonString.EscapeCounted). */
  function MembersCounted(ms: seq<(string, string)>, n: nat): string
    requires n == |ms|
    decreases n
  {
    if n == 0 then []
    else Member(ms[0].0, ms[0].1) + (if n == 1 then [] else "," + MembersCounted(ms[1..], n - 1))
  }

  function WriteObject(ms: seq<(string, string)>): string {
    "{" + Members(ms) + "}"
  }

  function Names(ms: seq<(string, string)>): (names: seq<string>)
    ensures |names| == |ms| && forall i :: 0 <= i < |ms| ==> names[i] == ms[i].0
  {
    seq(|ms|, i requires 0 <= i < |ms| => ms[i].0)
  }

  function Values(ms: seq<(string, string)>): (values: seq<string>)
    ensures |values| == |ms| && forall i :: 0 <= i < |ms| ==> values[i] == ms[i].1
  {
    seq(|ms|, i requires 0 <= i < |ms| => ms[i].1)
  }

  // ---- reading ----

  /** The input after `lit`, when the input starts with `lit`. */
  function Expect(lit: string, s: string): (r: Option<string>)
    ensures r.Some? ==> s == lit + r.value
  {
    if |lit| <= |s| && s[..|lit|] == lit then Some(s[|lit|..]) else None
  }

  /** Reads a `"name":"value"` member whose key is `name`. */
  function ParseMember(name: string, s: string): Option<(string, string)> {
    var (key, s1) :- ParseString(s);
    if key != name then None
    else
      var s2 :- Expect(":", s1);
      ParseString(s2)
  }

  /** Reads members named `names`, in that order and separated by commas;
      gives their values and the rest of the input. */
  function ParseMembers(names: seq<string>, s: string): (r: Option<(seq<string>, string)>)
    ensures r.Some? ==> |r.value.0| == |names|
  {
    if names == [] then Some(([], s))
    else
      var (v, s1) :- ParseMember(names[0], s);
      if |names| == 1 then Some(([v], s1))
      else
        var s2 :- Expect(",", s1);
        var (vs, s3) :- ParseMembers(names[1..], s2);
        Some(([v] + vs, s3))
  }

  /** Reads an object with members `names`; gives their values and the rest
      of the input. */
  function ReadObject(names: seq<string>, s: string): (r: Option<(seq<string>, string)>)
    ensures r.Some? ==> |r.value.0| == |names|
  {
    var s1 :- Expect("{", s);
    var (vs, s2) :- ParseMembers(names, s1);
    var s3 :- Expect("}", s2);
    Some((vs, s3))
  }

  // ---- properties ----

  lemma ExpectLiteral(lit: string, tail: string)
    ensures Expect(lit, lit + tail) == Some(tail)
  {
    assert (lit + tail)[..|lit|] == lit;
    assert (lit + tail)[|lit|..] == tail;
  }

  lemma ParseMemberWritten(name: string, value: string, tail: string)
    ensures ParseMember(name, Member(name, value) + tail) == Some((value, tail))
  {
    var after := ":" + (Quote(value) + tail);
    AppendAssoc(Quote(name), ":", Quote(value));
    AppendAssoc(Quote(name), ":" + Quote(value), tail);
    AppendAssoc(":", Quote(value), tail);
    ParseQuote(name, after);
    ExpectLiteral(":", Quote(value) + tail);
    ParseQuote(value, tail);
    ParseMemberSteps(name, Member(name, value) + tail, after, Quote(value) + tail, value, tail);
  }

  /** ParseMember, one step at a time. */
  lemma ParseMemberSteps(name: string, s: string, s1: string, s2: string, value: string, tail: string)
    requires ParseString(s) == Some((name, s1))
    requires Expect(":", s1) == Some(s2)
    requires ParseString(s2) == Some((value, tail))
    ensures ParseMember(name, s) == Some((value, tail))
  {
  }

  /** ParseMembers on two or more names, one step at a time. */
  lemma ParseMembersSteps(names: seq<string>, s: string, v: string, s1: string, s2: string, vs: seq<string>, tail: string)
    requires |names| >= 2
    requires ParseMember(names[0], s) == Some((v, s1))
    requires Expect(",", s1) == Some(s2)
    requires ParseMembers(names[1..], s2) == Some((vs, tail))
    ensures ParseMembers(names, s) == Some(([v] + vs, tail))
  {
  }

  lemma {:induction false} ParseMembersWritten(ms: seq<(string, string)>, tail: string)
    ensures ParseMembers(Names(ms), Members(ms) + tail) == Some((Values(ms), tail))
  {
    if ms == [] {
      assert Names(ms) == [] && Values(ms) == [];
      assert Members(ms) + tail == tail;
    } else {
      var m := Member(ms[0].0, ms[0].1);
      if |ms| == 1 {
        assert Members(ms) == m;
        ParseMemberWritten(ms[0].0, ms[0].1, tail);
        assert Values(ms) == [ms[0].1];
      } else {
        var more := Members(ms[1..]);
        var rest := more + tail;
        assert Members(ms) == m + ("," + more);
        AppendAssoc(m, "," + more, tail);
        AppendAssoc(",", more, tail);
        ParseMemberWritten(ms[0].0, ms[0].1, "," + rest);
        ExpectLiteral(",", rest);
        assert Names(ms)[1..] == Names(ms[1..]);
        ParseMembersWritten(ms[1..], tail);
        ParseMembersSteps(Names(ms), Members(ms) + tail, ms[0].1, "," + rest, rest, Values(ms[1..]), tail);
        assert Values(ms) == [ms[0].1] + Values(ms[1..]);
      }
    }
  }

  /** Round trip: reading what the writer produced, with the member names it
      used, gives back the values and leaves the input that followed. */
  lemma ReadWritten(ms: seq<(string, string)>, tail: string)
    ensures ReadObject(Names(ms), WriteObject(ms) + tail) == Some((Values(ms), tail))
  {
    var inner := Members(ms) + ("}" + tail);
    assert WriteObject(ms) + tail == "{" + inner;
    ExpectLiteral("{", inner);
    ParseMembersWritten(ms, "}" + tail);
    ExpectLiteral("}", tail);
    ReadObjectSteps(Names(ms), "{" + inner, inner, Values(ms), "}" + tail, tail);
  }

  /** ReadObject, one step at a time. */
  lemma ReadObjectSteps(names: seq<string>, s: string, inner: string, vs: seq<string>, rest: string, tail: string)
    requires Expect("{", s) == Some(inner)
    requires ParseMembers(names, inner) == Some((vs, rest))
    requires Expect("}", rest) == Some(tail)
    ensures ReadObject(names, s) == Some((vs, tail))
  {
  }

  lemma MemberHasNoNewline(name: string, value: string)
    ensures '\n' !in Member(name, value)
  {
    QuoteHasNoNewline(name);
    QuoteHasNoNewline(value);
  }

  lemma {:induction false} MembersHaveNoNewline(ms: seq<(string, string)>)
    ensures '\n' !in Members(ms)
  {
    if ms != [] {
      MemberHasNoNewline(ms[0].0, ms[0].1);
      if |ms| > 1 {
        MembersHaveNoNewline(ms[1..]);
      }
    }
  }

  /** The writer never emits a line feed. */
  lemma WrittenHasNoNewline(ms: seq<(string, string)>)
    ensures '\n' !in WriteObject(ms)
  {
    MembersHaveNoNewline(ms);
  }

  // ---- bytes ----

  /** The bytes of a string of ASCII characters. */
  function AsciiBytes(s: string): (bs: seq<Utf8.byte>)
    requires forall i :: 0 <= i < |s| ==> s[i] as int < 0x80
    ensures |bs| == |s|
  {
    seq(|s|, i requires 0 <= i < |s| => s[i] as int as Utf8.byte)
  }

  /** What serde_json's byte writer emits for the characters of a string: the
      ASCII bytes of an escape, or the UTF-8 bytes of a copied character. */
  function EscapeBytes(s: string): seq<Utf8.byte> {
    if s == [] then []
    else
      (if NeedsEscape(s[0]) then AsciiBytes(EscapeChar(s[0])) else Utf8.EncodeChar(s[0]))
      + EscapeBytes(s[1..])
  }

  const QuotationMark: Utf8.byte := 0x22
  const Colon: Utf8.byte := 0x3A
  const Comma: Utf8.byte := 0x2C
  const LeftBrace: Utf8.byte := 0x7B
  const RightBrace: Utf8.byte := 0x7D

  /** A string literal as bytes, quotation marks included. */
  function QuoteBytes(s: string): seq<Utf8.byte> {
    [QuotationMark] + EscapeBytes(s) + [QuotationMark]
  }

  function MemberBytes(name: string, value: string): seq<Utf8.byte> {
    QuoteBytes(name) + [Colon] + QuoteBytes(value)
  }

  function MembersBytes(ms: seq<(string, string)>): seq<Utf8.byte> {
    if ms == [] then []
    else MemberBytes(ms[0].0, ms[0].1) + (if |ms| == 1 then [] else [Comma] + MembersBytes(ms[1..]))
  }

  function WriteObjectBytes(ms: seq<(string, string)>): seq<Utf8.byte> {
    [LeftBrace] + MembersBytes(ms) + [RightBrace]
  }

  lemma {:induction false} EscapeBytesAreUtf8(s: string)
    ensures EscapeBytes(s) == Utf8.Encode(Escape(s))
  {
    if s != [] {
      var e := EscapeChar(s[0]);
      EscapeBytesAreUtf8(s[1..]);
      assert Escape(s) == e + Escape(s[1..]);
      Utf8.EncodeAppend(e, Escape(s[1..]));
      if NeedsEscape(s[0]) {
        Utf8.EncodeAscii(e);
        assert AsciiBytes(e) == Utf8.Encode(e);
      } else {
        assert Utf8.Encode(e) == Utf8.EncodeChar(s[0]) + Utf8.Encode([]);
      }
    }
  }

  lemma EncodeJoin3(x: string, y: string, z: string)
    ensures Utf8.Encode(x + y + z) == Utf8.Encode(x) + Utf8.Encode(y) + Utf8.Encode(z)
  {
    Utf8.EncodeAppend(x, y);
    Utf8.EncodeAppend(x + y, z);
  }

  lemma QuoteBytesAreUtf8(s: string)
    ensures QuoteBytes(s) == Utf8.Encode(Quote(s))
  {
    EscapeBytesAreUtf8(s);
    EncodeJoin3("\"", Escape(s), "\"");
  }

  lemma MemberBytesAreUtf8(name: string, value: string)
    ensures MemberBytes(name, value) == Utf8.Encode(Member(name, value))
  {
    QuoteBytesAreUtf8(name);
    QuoteBytesAreUtf8(value);
    EncodeJoin3(Quote(name), ":", Quote(value));
  }

  lemma {:induction false} MembersBytesAreUtf8(ms: seq<(string, string)>)
    ensures MembersBytes(ms) == Utf8.Encode(Members(ms))
  {
    if ms != [] {
      var m := Member(ms[0].0, ms[0].1);
      MemberBytesAreUtf8(ms[0].0, ms[0].1);
      if |ms| == 1 {
        assert Members(ms) == m;
      } else {
        MembersBytesAreUtf8(ms[1..]);
        assert Members(ms) == m + "," + Members(ms[1..]);
        assert MembersBytes(ms) == MemberBytes(ms[0].0, ms[0].1) + [Comma] + MembersBytes(ms[1..]);
        EncodeJoin3(m, ",", Members(ms[1..]));
        assert Utf8.Encode(",") == [Comma];
      }
    }
  }

  /** The byte writer emits the UTF-8 bytes of the string writer's output. */
  lemma WriteObjectBytesAreUtf8(ms: seq<(string, string)>)
    ensures WriteObjectBytes(ms) == Utf8.Encode(WriteObject(ms))
  {
    MembersBytesAreUtf8(ms);
    EncodeJoin3("{", Members(ms), "}");
  }
}
