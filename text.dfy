/**
 * The string helpers of the engine: the HTML escape `esc`, the quoting of CSV text
 * fields, and JavaScript's `String.prototype.trim` used on every form field.
 */
module Text {
  import opened Wrappers

  /** The characters `esc` replaces by an entity. */
  predicate IsSpecial(c: char) {
    c == '&' || c == '<' || c == '>' || c == '"' || c == '\''
  }

  /** The replacement `esc` uses for one character. */
  function EscChar(c: char): string {
    match c
    case '&' => "&amp;"
    case '<' => "&lt;"
    case '>' => "&gt;"
    case '"' => "&quot;"
    case '\'' => "&#39;"
    case _ => [c]
  }

  /** `String(s).replace(/[&<>"']/g, ...)`, character by character. */
  function Escape(s: string): (r: string)
    ensures forall i :: 0 <= i < |r| ==> r[i] != '<' && r[i] != '>' && r[i] != '"' && r[i] != '\''
  {
    if s == [] then [] else EscChar(s[0]) + Escape(s[1..])
  }

  /** `esc(s)`: `null` and `undefined` become the empty string. */
  function Esc(s: Option<string>): string {
    match s
    case None => ""
    case Some(t) => Escape(t)
  }

  /** `esc(null) == ''`. */
  lemma EscNull()
    ensures Esc(None) == ""
  {
  }

  /** Escaping works character by character: it distributes over concatenation. */
  lemma {:induction false} EscapeAppend(a: string, b: string)
    ensures Escape(a + b) == Escape(a) + Escape(b)
  {
    if a == [] {
      assert a + b == b;
    } else {
      assert (a + b)[1..] == a[1..] + b;
      EscapeAppend(a[1..], b);
    }
  }

  /** Text without any of `& < > " '` is left exactly as it is. */
  lemma {:induction false} EscapePlain(s: string)
    requires forall i :: 0 <= i < |s| ==> !IsSpecial(s[i])
    ensures Escape(s) == s
  {
    if s != [] {
      EscapePlain(s[1..]);
    }
  }

  /** Decoding of the five entities `esc` produces; any other text is copied. */
  function Unescape(s: string): string
    decreases |s|
  {
    if s == [] then []
    else if s[0] != '&' then [s[0]] + Unescape(s[1..])
    else if "&amp;" <= s then "&" + Unescape(s[5..])
    else if "&lt;" <= s then "<" + Unescape(s[4..])
    else if "&gt;" <= s then ">" + Unescape(s[4..])
    else if "&quot;" <= s then "\"" + Unescape(s[6..])
    else if "&#39;" <= s then "'" + Unescape(s[5..])
    else "&" + Unescape(s[1..])
  }

  /** `esc` loses nothing: decoding the entities gives back the original text. */
  lemma {:induction false} UnescapeEscape(s: string)
    ensures Unescape(Escape(s)) == s
  {
    if s != [] {
      var c, rest := s[0], Escape(s[1..]);
      var e := EscChar(c) + rest;
      assert Escape(s) == e;
      UnescapeEscape(s[1..]);
      if c == '&' {
        assert e[..5] == "&amp;" && e[5..] == rest;
      } else if c == '<' {
        assert e[1] == 'l';
        assert e[..4] == "&lt;" && e[4..] == rest;
      } else if c == '>' {
        assert e[1] == 'g';
        assert e[..4] == "&gt;" && e[4..] == rest;
      } else if c == '"' {
        assert e[1] == 'q';
        assert e[..6] == "&quot;" && e[6..] == rest;
      } else if c == '\'' {
        assert e[1] == '#';
        assert e[..5] == "&#39;" && e[5..] == rest;
      } else {
        assert e == [c] + rest;
        assert e[1..] == rest;
      }
      assert s == [c] + s[1..];
    }
  }

  /** `s.replace(/"/g, '""')`: every double quote doubled. */
  function DoubleQuotes(s: string): (r: string)
    ensures |r| >= |s|
  {
    if s == [] then []
    else (if s[0] == '"' then "\"\"" else [s[0]]) + DoubleQuotes(s[1..])
  }

  /** A CSV text field of the export: `"${s.replace(/"/g,'""')}"`. */
  function CsvQuote(s: string): (r: string)
    ensures |r| >= 2 && r[0] == '"' && r[|r| - 1] == '"'
  {
    "\"" + DoubleQuotes(s) + "\""
  }

  /**
   * A reader of the inside of a quoted field as section 2 of RFC 4180 defines it
   * (rules 5 to 7): `""` stands for one quote and a lone `"` closes the field.
   * Gives the field's text and what follows the closing quote, or `None` when the
   * closing quote is missing.
   */
  function ReadQuotedBody(s: string): Option<(string, string)>
    decreases |s|
  {
    if s == [] then None
    else if s[0] == '"' then
      if |s| > 1 && s[1] == '"' then
        match ReadQuotedBody(s[2..])
        case None => None
        case Some(p) => Some(("\"" + p.0, p.1))
      else Some(([], s[1..]))
    else
      match ReadQuotedBody(s[1..])
      case None => None
      case Some(p) => Some(([s[0]] + p.0, p.1))
  }

  /** Reads one quoted CSV field from the start of `s`. */
  function ReadQuoted(s: string): Option<(string, string)> {
    if s != [] && s[0] == '"' then ReadQuotedBody(s[1..]) else None
  }

  lemma {:induction false} ReadQuotedBodyOfDoubled(s: string, rest: string)
    requires rest == [] || rest[0] != '"'
    ensures ReadQuotedBody(DoubleQuotes(s) + "\"" + rest) == Some((s, rest))
  {
    var e := DoubleQuotes(s) + "\"" + rest;
    if s == [] {
      assert e == "\"" + rest;
      assert e[1..] == rest;
    } else {
      ReadQuotedBodyOfDoubled(s[1..], rest);
      var tail := DoubleQuotes(s[1..]) + "\"" + rest;
      if s[0] == '"' {
        assert e == "\"\"" + tail;
        assert e[2..] == tail;
      } else {
        assert e == [s[0]] + tail;
        assert e[1..] == tail;
      }
      assert s == [s[0]] + s[1..];
    }
  }

  /**
   * A quoted field reads back as the original text, wherever a delimiter (or the
   * end of the line) follows it: the quote doubling cannot end a field early.
   */
  lemma CsvQuoteRoundTrip(s: string, rest: string)
    requires rest == [] || rest[0] != '"'
    ensures ReadQuoted(CsvQuote(s) + rest) == Some((s, rest))
  {
    var e := CsvQuote(s) + rest;
    assert e == "\"" + (DoubleQuotes(s) + "\"" + rest);
    assert e[1..] == DoubleQuotes(s) + "\"" + rest;
    ReadQuotedBodyOfDoubled(s, rest);
  }

  /**
   * The characters `String.prototype.trim` strips: ECMA-262 WhiteSpace (tab,
   * vertical tab, form feed, zero width no-break space and the space separators
   * of Unicode category Zs) and LineTerminator (LF, CR, LS, PS).
   */
  const JsWhitespace: set<char> := {
    '\U{9}', '\U{B}', '\U{C}', '\U{FEFF}', ' ', '\U{A0}', '\U{1680}',
    '\U{2000}', '\U{2001}', '\U{2002}', '\U{2003}', '\U{2004}', '\U{2005}',
    '\U{2006}', '\U{2007}', '\U{2008}', '\U{2009}', '\U{200A}',
    '\U{202F}', '\U{205F}', '\U{3000}',
    '\U{A}', '\U{D}', '\U{2028}', '\U{2029}'
  }

  predicate IsJsWhitespace(c: char) {
    c in JsWhitespace
  }

  /** The number of whitespace characters `s` starts with. */
  function LeadingSpace(s: string): (n: nat)
    ensures n <= |s|
    ensures forall i :: 0 <= i < n ==> IsJsWhitespace(s[i])
    ensures n == |s| || !IsJsWhitespace(s[n])
  {
    if s != [] && IsJsWhitespace(s[0]) then 1 + LeadingSpace(s[1..]) else 0
  }

  /** The length of `s` without the whitespace it ends with. */
  function ContentEnd(s: string): (n: nat)
    ensures n <= |s|
    ensures forall i :: n <= i < |s| ==> IsJsWhitespace(s[i])
    ensures n == 0 || !IsJsWhitespace(s[n - 1])
  {
    if s != [] && IsJsWhitespace(s[|s| - 1]) then ContentEnd(s[..|s| - 1]) else |s|
  }

  /** The text after the leading whitespace. */
  function TrimStart(s: string): string {
    s[LeadingSpace(s)..]
  }

  /** The text before the trailing whitespace. */
  function TrimEnd(s: string): string {
    s[..ContentEnd(s)]
  }

  /** `s.trim()`. */
  function Trim(s: string): string {
    TrimEnd(TrimStart(s))
  }

  /**
   * `trim()` gives the longest stretch of `s` that starts and ends with a
   * non-whitespace character; everything cut off on either side is whitespace.
   */
  lemma TrimSpec(s: string)
    ensures var r, i := Trim(s), LeadingSpace(s);
      i + |r| <= |s| && r == s[i..i + |r|] &&
      (forall k :: 0 <= k < i ==> IsJsWhitespace(s[k])) &&
      (forall k :: i + |r| <= k < |s| ==> IsJsWhitespace(s[k])) &&
      (r == [] || (!IsJsWhitespace(r[0]) && !IsJsWhitespace(r[|r| - 1])))
  {
    var i := LeadingSpace(s);
    var t := s[i..];
    var n := ContentEnd(t);
    assert Trim(s) == t[..n] == s[i..i + n];
    forall k | i + n <= k < |s| ensures IsJsWhitespace(s[k]) {
      assert s[k] == t[k - i];
    }
  }

  /** A name is blank, and `addPerson` refuses it, exactly when it is all whitespace. */
  lemma TrimEmpty(s: string)
    ensures Trim(s) == [] <==> forall i :: 0 <= i < |s| ==> IsJsWhitespace(s[i])
  {
    TrimSpec(s);
  }

  /** Trimming twice is trimming once. */
  lemma TrimIdempotent(s: string)
    ensures Trim(Trim(s)) == Trim(s)
  {
    var r := Trim(s);
    TrimSpec(s);
    if r != [] {
      assert !IsJsWhitespace(r[0]);
      assert TrimStart(r) == r;
      assert !IsJsWhitespace(r[|r| - 1]);
      assert TrimEnd(r) == r;
    }
  }
}
