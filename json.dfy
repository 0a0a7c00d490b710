/**
 * Decoded JSON values, as the client sees them after `json.loads`.
 * An object keeps its keys in insertion order, like a Python dict, and is
 * read and updated with the helpers of `Dicts`.
 */
module Json {
  import opened Wrappers
  import opened Text

  datatype Json =
    | JNull
    | JBool(b: bool)
    | JInt(i: int)
    | JStr(s: string)
    | JArr(items: seq<Json>)
    | JObj(fields: seq<(string, Json)>)

  type Fields = seq<(string, Json)>

  // ---------------------------------------------------------------------
  // str() and repr() of a decoded value, as Python renders them
  // ---------------------------------------------------------------------

  function HexDigit(d: nat): char
    requires d < 16
  {
    "0123456789abcdef"[d]
  }

  /** Characters `repr` writes as `\xhh`: the C0 controls other than tab, newline and return, DEL, the C1 controls and NO-BREAK SPACE. */
  predicate HexEscaped(c: char) {
    (c as int < 0x20 && c != '\t' && c != '\n' && c != '\r') || (0x7f <= c as int <= 0xa0)
  }

  /** How `repr` writes one character of a string quoted with `quote`. */
  function EscapeChar(c: char, quote: char): string {
    if c == quote || c == '\\' then ['\\', c]
    else if c == '\t' then "\\t"
    else if c == '\n' then "\\n"
    else if c == '\r' then "\\r"
    else if HexEscaped(c) then ['\\', 'x', HexDigit(c as int / 16), HexDigit(c as int % 16)]
    else [c]
  }

  function EscapeAll(s: string, quote: char): string
    decreases |s|
  {
    if |s| == 0 then "" else EscapeChar(s[0], quote) + EscapeAll(s[1..], quote)
  }

  /** `repr` quotes with `"` only when the text holds `'` and no `"`. */
  function QuoteFor(s: string): char {
    if '\'' in s && '"' !in s then '"' else '\''
  }

  /** `repr(s)` of a `str`. */
  function StrRepr(s: string): (r: string)
    ensures |r| >= 2 && r[0] == r[|r| - 1] == QuoteFor(s)
  {
    [QuoteFor(s)] + EscapeAll(s, QuoteFor(s)) + [QuoteFor(s)]
  }

  /** `repr(j)`: lists and dicts render their items with `repr`. */
  function Repr(j: Json): string
    decreases j
  {
    match j
    case JNull => "None"
    case JBool(b) => if b then "True" else "False"
    case JInt(i) => IntToString(i)
    case JStr(s) => StrRepr(s)
    case JArr(items) => "[" + Join(", ", seq(|items|, k requires 0 <= k < |items| => Repr(items[k]))) + "]"
    case JObj(fs) => "{" + Join(", ", seq(|fs|, k requires 0 <= k < |fs| => StrRepr(fs[k].0) + ": " + Repr(fs[k].1))) + "}"
  }

  /** `str(j)`, which is also what an f-string writes: a `str` is itself, anything else its `repr`. */
  function Str(j: Json): string {
    if j.JStr? then j.s else Repr(j)
  }

  // The reading of a Python string literal, the partner of `StrRepr`

  function HexValue(c: char): Option<nat> {
    if '0' <= c <= '9' then Some(c as int - '0' as int)
    else if 'a' <= c <= 'f' then Some(c as int - 'a' as int + 10)
    else if 'A' <= c <= 'F' then Some(c as int - 'A' as int + 10)
    else None
  }

  function Cons(c: char, rest: Option<string>): Option<string> {
    match rest
    case None => None
    case Some(t) => Some([c] + t)
  }

  /** The text between the quotes of a literal quoted with `quote`, escapes decoded; `None` for a stray quote or a bad escape. */
  function ReadBody(t: string, quote: char): Option<string>
    decreases |t|
  {
    if |t| == 0 then Some("")
    else if t[0] == quote then None
    else if t[0] != '\\' then Cons(t[0], ReadBody(t[1..], quote))
    else if |t| < 2 then None
    else if t[1] == '\\' || t[1] == '\'' || t[1] == '"' then Cons(t[1], ReadBody(t[2..], quote))
    else if t[1] == 't' then Cons('\t', ReadBody(t[2..], quote))
    else if t[1] == 'n' then Cons('\n', ReadBody(t[2..], quote))
    else if t[1] == 'r' then Cons('\r', ReadBody(t[2..], quote))
    else if t[1] == 'x' && |t| >= 4 && HexValue(t[2]).Some? && HexValue(t[3]).Some? then
      Cons((HexValue(t[2]).value * 16 + HexValue(t[3]).value) as char, ReadBody(t[4..], quote))
    else None
  }

  /** The value of a one-line Python string literal in single or double quotes. */
  function ReadLiteral(t: string): Option<string> {
    if |t| >= 2 && (t[0] == '\'' || t[0] == '"') && t[|t| - 1] == t[0] then ReadBody(t[1..|t| - 1], t[0])
    else None
  }

  lemma {:induction false} HexDigitValue(d: nat)
    requires d < 16
    ensures HexValue(HexDigit(d)) == Some(d)
  {
  }

  /** One escaped character reads back as itself. */
  lemma {:induction false} EscapeCharReads(c: char, quote: char, rest: string)
    requires quote == '\'' || quote == '"'
    ensures ReadBody(EscapeChar(c, quote) + rest, quote) == Cons(c, ReadBody(rest, quote))
  {
    var e := EscapeChar(c, quote);
    var t := e + rest;
    if c == quote || c == '\\' || c == '\t' || c == '\n' || c == '\r' {
      assert t[0] == '\\' && t[2..] == rest;
    } else if HexEscaped(c) {
      var hi, lo := c as int / 16, c as int % 16;
      HexDigitValue(hi);
      HexDigitValue(lo);
      assert t[0] == '\\' && t[1] == 'x' && t[2] == HexDigit(hi) && t[3] == HexDigit(lo) && t[4..] == rest;
      assert (hi * 16 + lo) as char == c;
    } else {
      assert t[0] == c && t[1..] == rest;
    }
  }

  /** `repr` of a string reads back as the string: the escaping loses nothing. */
  lemma {:induction false} EscapeAllReads(s: string, quote: char)
    requires quote == '\'' || quote == '"'
    ensures ReadBody(EscapeAll(s, quote), quote) == Some(s)
    decreases |s|
  {
    if |s| > 0 {
      EscapeAllReads(s[1..], quote);
      EscapeCharReads(s[0], quote, EscapeAll(s[1..], quote));
      assert [s[0]] + s[1..] == s;
    }
  }

  /** `ast.literal_eval(repr(s)) == s` for every string. */
  lemma {:induction false} StrReprReadsBack(s: string)
    ensures ReadLiteral(StrRepr(s)) == Some(s)
  {
    var r := StrRepr(s);
    assert r[1..|r| - 1] == EscapeAll(s, QuoteFor(s));
    EscapeAllReads(s, QuoteFor(s));
  }

  /** A string that needs no escape keeps its text between single quotes. */
  lemma {:induction false} PlainStrRepr(s: string)
    requires forall k :: 0 <= k < |s| ==> s[k] != '\'' && s[k] != '\\' && ' ' <= s[k] <= '~'
    ensures StrRepr(s) == "'" + s + "'"
  {
    assert QuoteFor(s) == '\'';
    PlainEscape(s);
  }

  lemma {:induction false} PlainEscape(s: string)
    requires forall k :: 0 <= k < |s| ==> s[k] != '\'' && s[k] != '\\' && ' ' <= s[k] <= '~'
    ensures EscapeAll(s, '\'') == s
    decreases |s|
  {
    if |s| > 0 {
      PlainEscape(s[1..]);
      assert [s[0]] + s[1..] == s;
    }
  }
}
