/** JSON string literals as serde_json writes and reads them (section 7 of
    RFC 8259): the writer uses the two-character escapes for quotation mark,
    reverse solidus, backspace, form feed, line feed, carriage return and tab,
    `\u00xx` with lower-case hex digits for the other control characters, and
    copies every other character; the reader accepts every escape of that
    section, in either case of hex digit, and rejects raw control characters. */
module JsonString {
  import opened Errors

  const HexDigits := "0123456789abcdef"

  /** True for the characters the writer does not copy verbatim. */
  predicate NeedsEscape(c: char) {
    c == '"' || c == '\\' || c as int < 0x20
  }

  function EscapeChar(c: char): (e: string)
    ensures NeedsEscape(c) ==> 2 <= |e| && e[0] == '\\' && forall i :: 0 <= i < |e| ==> e[i] as int < 0x80
    ensures !NeedsEscape(c) ==> e == [c]
  {
    var n := c as int;
    if c == '"' then "\\\""
    else if c == '\\' then "\\\\"
    else if n == 0x08 then "\\b"
    else if n == 0x0C then "\\f"
    else if c == '\n' then "\\n"
    else if c == '\r' then "\\r"
    else if c == '\t' then "\\t"
    else if n < 0x20 then "\\u00" + [HexDigits[n / 16], HexDigits[n % 16]]
    else [c]
  }

  /** The characters of `s` as the writer emits them. */
  function Escape(s: string): string {
    EscapeCounted(s, |s|)
  }

  /** Escape, recursing on the count `n` of characters left rather than on
      the string itself, so that the verifier does not evaluate it eagerly
      on constant strings. */
  function EscapeCounted(s: string, n: nat): string
    requires n == |s|
    decreases n
  {
    if n == 0 then [] else EscapeChar(s[0]) + EscapeCounted(s[1..], n - 1)
  }

  /** The literal for `s`, quotation marks included. */
  function Quote(s: string): string {
    "\"" + Escape(s) + "\""
  }

  /** No escaped string contains a raw control character, so in particular no
      line feed: this is what makes newline framing unambiguous. */
  lemma {:induction false} EscapeHasNoControl(s: string)
    ensures forall i :: 0 <= i < |Escape(s)| ==> Escape(s)[i] as int >= 0x20
  {
    if s != [] {
      EscapeHasNoControl(s[1..]);
      var e := EscapeChar(s[0]);
      assert forall i :: 0 <= i < |e| ==> e[i] as int >= 0x20;
      assert Escape(s) == e + Escape(s[1..]);
    }
  }

  lemma QuoteHasNoNewline(s: string)
    ensures '\n' !in Quote(s)
  {
    EscapeHasNoControl(s);
    var q := Quote(s);
    forall i | 0 <= i < |q| ensures q[i] != '\n' {
      if 0 < i < |q| - 1 {
        assert q[i] == Escape(s)[i - 1];
      }
    }
  }

  // ---- reading ----

  function HexValue(c: char): (r: Option<nat>)
    ensures r.Some? ==> r.value < 16
  {
    if '0' <= c <= '9' then Some(c as int - '0' as int)
    else if 'a' <= c <= 'f' then Some(c as int - 'a' as int + 10)
    else if 'A' <= c <= 'F' then Some(c as int - 'A' as int + 10)
    else None
  }

  /** The value of four hex digits at the start of `s`. */
  function Hex4(s: string): (r: Option<nat>)
    ensures r.Some? ==> |s| >= 4 && r.value < 0x10000
  {
    if |s| < 4 then None
    else
      var a :- HexValue(s[0]);
      var b :- HexValue(s[1]);
      var c :- HexValue(s[2]);
      var d :- HexValue(s[3]);
      Some(((a * 16 + b) * 16 + c) * 16 + d)
  }

  /** Reads what follows a reverse solidus: the character it stands for and
      the rest of the input. A `\u` escape of a leading surrogate must be
      followed by a `\u` escape of a trailing surrogate; a lone surrogate is
      an error. */
  function ParseEscape(s: string): (r: Option<(char, string)>)
    ensures r.Some? ==> |r.value.1| < |s|
  {
    if s == [] then None
    else if s[0] == '"' then Some(('"', s[1..]))
    else if s[0] == '\\' then Some(('\\', s[1..]))
    else if s[0] == '/' then Some(('/', s[1..]))
    else if s[0] == 'b' then Some((0x08 as char, s[1..]))
    else if s[0] == 'f' then Some((0x0C as char, s[1..]))
    else if s[0] == 'n' then Some(('\n', s[1..]))
    else if s[0] == 'r' then Some(('\r', s[1..]))
    else if s[0] == 't' then Some(('\t', s[1..]))
    else if s[0] == 'u' then
      var n :- Hex4(s[1..]);
      if n < 0xD800 || 0xE000 <= n then Some((n as char, s[5..]))
      else if 0xDC00 <= n then None
      else if |s| < 7 || s[5] != '\\' || s[6] != 'u' then None
      else
        var m :- Hex4(s[7..]);
        if 0xDC00 <= m < 0xE000 then
          Some(((0x10000 + (n - 0xD800) * 0x400 + (m - 0xDC00)) as char, s[11..]))
        else None
    else None
  }

  /** Reads the characters of a string literal after its opening quotation
      mark, up to and including the closing one; gives the value and the
      rest of the input. */
  function ParseBody(s: string): (r: Option<(string, string)>)
    ensures r.Some? ==> |r.value.1| < |s|
    decreases |s|
  {
    if s == [] then None
    else if s[0] == '"' then Some(([], s[1..]))
    else if s[0] == '\\' then
      var (c, rest) :- ParseEscape(s[1..]);
      var (v, after) :- ParseBody(rest);
      Some(([c] + v, after))
    else if s[0] as int < 0x20 then None
    else
      var (v, after) :- ParseBody(s[1..]);
      Some(([s[0]] + v, after))
  }

  /** Reads one string literal at the start of `s`. */
  function ParseString(s: string): (r: Option<(string, string)>)
    ensures r.Some? ==> |r.value.1| < |s|
  {
    if s == [] || s[0] != '"' then None else ParseBody(s[1..])
  }

  lemma HexDigitValue(n: nat)
    requires n < 16
    ensures HexValue(HexDigits[n]) == Some(n)
  {
  }

  /** The writer's `\u00xx` escape for the control character `c`, after its
      reverse solidus, reads back as `c`. */
  lemma UnicodeEscapeRead(c: char, tail: string)
    requires c as int < 0x20 && c as int != 0x08 && c as int != 0x0C
    requires c != '\n' && c != '\r' && c != '\t'
    ensures ParseEscape(EscapeChar(c)[1..] + tail) == Some((c, tail))
  {
    var n := c as int;
    HexDigitValue(n / 16);
    HexDigitValue(n % 16);
    assert EscapeChar(c) == "\\u00" + [HexDigits[n / 16], HexDigits[n % 16]];
    var u := EscapeChar(c)[1..] + tail;
    assert u[0] == 'u' && u[1] == '0' && u[2] == '0';
    assert u[3] == HexDigits[n / 16] && u[4] == HexDigits[n % 16];
    assert Hex4(u[1..]) == Some(n);
    assert u[5..] == tail;
  }

  /** Every escape the writer produces, after its reverse solidus, reads back
      as the character it stands for. */
  lemma EscapeRead(c: char, tail: string)
    requires NeedsEscape(c)
    ensures ParseEscape(EscapeChar(c)[1..] + tail) == Some((c, tail))
  {
    var n := c as int;
    if n < 0x20 && n != 0x08 && n != 0x0C && c != '\n' && c != '\r' && c != '\t' {
      UnicodeEscapeRead(c, tail);
    } else {
      assert (EscapeChar(c)[1..] + tail)[1..] == tail;
    }
  }

  /** Reading one escaped character gives the character back and leaves the
      input that follows it. */
  lemma ParseEscapeChar(c: char, tail: string)
    ensures ParseBody(EscapeChar(c) + tail) ==
      match ParseBody(tail)
      case None => None
      case Some((v, after)) => Some(([c] + v, after))
  {
    var s := EscapeChar(c) + tail;
    if !NeedsEscape(c) {
      assert s[0] == c && s[1..] == tail;
    } else {
      assert s[0] == '\\' && s[1..] == EscapeChar(c)[1..] + tail;
      EscapeRead(c, tail);
    }
  }

  lemma {:induction false} ParseBodyEscape(s: string, tail: string)
    ensures ParseBody(Escape(s) + "\"" + tail) == Some((s, tail))
  {
    if s == [] {
      assert Escape(s) + "\"" + tail == "\"" + tail;
    } else {
      var e, rest := EscapeChar(s[0]), Escape(s[1..]);
      assert Escape(s) == e + rest;
      AppendAssoc(e, rest, "\"");
      AppendAssoc(e, rest + "\"", tail);
      ParseEscapeChar(s[0], Escape(s[1..]) + "\"" + tail);
      ParseBodyEscape(s[1..], tail);
      assert [s[0]] + s[1..] == s;
    }
  }

  /** Round trip: reading the literal the writer produced gives the string and
      leaves exactly the input that followed it. */
  lemma ParseQuote(s: string, tail: string)
    ensures ParseString(Quote(s) + tail) == Some((s, tail))
  {
    assert (Quote(s) + tail)[1..] == Escape(s) + "\"" + tail;
    ParseBodyEscape(s, tail);
  }
}
