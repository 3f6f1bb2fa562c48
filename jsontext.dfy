/** `json.dumps` of a list of strings with Python's defaults (`ensure_ascii=True`, separator
    ", "), and a reader for its output. */
module JsonText {

  import opened Wrappers

  predicate Printable(c: char) {
    ' ' <= c <= '~'
  }

  predicate AllPrintable(s: string) {
    forall i :: 0 <= i < |s| ==> Printable(s[i])
  }

  const Backspace: char := 8 as char
  const FormFeed: char := 12 as char

  function HexDigit(d: nat): (c: char)
    requires d < 16
    ensures Printable(c)
  {
    if d < 10 then ('0' as int + d) as char else ('a' as int + d - 10) as char
  }

  /** The value of a hexadecimal digit, in either case. */
  function HexValue(c: char): (r: Option<nat>)
    ensures r.Some? ==> r.value < 16
  {
    if '0' <= c <= '9' then Some(c as int - '0' as int)
    else if 'a' <= c <= 'f' then Some(c as int - 'a' as int + 10)
    else if 'A' <= c <= 'F' then Some(c as int - 'A' as int + 10)
    else None
  }

  /** Four lower-case hexadecimal digits. */
  function Hex4(n: nat): (s: string)
    requires n < 0x10000
    ensures |s| == 4 && AllPrintable(s)
  {
    var q1 := n / 0x10;
    var q2 := q1 / 0x10;
    var q3 := q2 / 0x10;
    [HexDigit(q3), HexDigit(q2 % 0x10), HexDigit(q1 % 0x10), HexDigit(n % 0x10)]
  }

  function Hex4Value(s: string): (r: Option<nat>)
    requires |s| == 4
    ensures r.Some? ==> r.value < 0x10000
  {
    match (HexValue(s[0]), HexValue(s[1]), HexValue(s[2]), HexValue(s[3]))
    case (Some(a), Some(b), Some(c), Some(d)) => Some(((a * 0x10 + b) * 0x10 + c) * 0x10 + d)
    case _ => None
  }

  lemma HexDigitValue(d: nat)
    requires d < 16
    ensures HexValue(HexDigit(d)) == Some(d)
  {
  }

  lemma {:induction false} Hex4RoundTrip(n: nat)
    requires n < 0x10000
    ensures Hex4Value(Hex4(n)) == Some(n)
  {
    var q1 := n / 0x10;
    var q2 := q1 / 0x10;
    var q3 := q2 / 0x10;
    HexDigitValue(q3);
    HexDigitValue(q2 % 0x10);
    HexDigitValue(q1 % 0x10);
    HexDigitValue(n % 0x10);
    assert q3 * 0x10 + q2 % 0x10 == q2;
    assert q2 * 0x10 + q1 % 0x10 == q1;
    assert q1 * 0x10 + n % 0x10 == n;
  }

  /** The escape `json.dumps` writes for one character: two-character escapes for the quote, the
      backslash and five control characters, the character itself when it is printable ASCII,
      `\uXXXX` otherwise, as a UTF-16 surrogate pair above U+FFFF. */
  function EscapeChar(c: char): (s: string)
    ensures 1 <= |s| && AllPrintable(s) && s[0] != '"'
  {
    if c == '"' then "\\\""
    else if c == '\\' then "\\\\"
    else if c == '\n' then "\\n"
    else if c == '\r' then "\\r"
    else if c == '\t' then "\\t"
    else if c == Backspace then "\\b"
    else if c == FormFeed then "\\f"
    else if Printable(c) then [c]
    else if c as int < 0x10000 then "\\u" + Hex4(c as int)
    else "\\u" + Hex4(HighSurrogate(c)) + "\\u" + Hex4(LowSurrogate(c))
  }

  function EscapeString(s: string): (r: string)
    ensures AllPrintable(r)
  {
    if s == [] then [] else EscapeChar(s[0]) + EscapeString(s[1..])
  }

  function Quote(s: string): (r: string)
    ensures AllPrintable(r)
  {
    "\"" + EscapeString(s) + "\""
  }

  function JoinQuoted(xs: seq<string>): (r: string)
    ensures AllPrintable(r)
  {
    if xs == [] then "" else if |xs| == 1 then Quote(xs[0]) else Quote(xs[0]) + ", " + JoinQuoted(xs[1..])
  }

  /** `json.dumps(xs)` for a list of strings: its output is printable ASCII only. */
  function DumpStrings(xs: seq<string>): (r: string)
    ensures AllPrintable(r)
    ensures (r == "[]") <==> (xs == [])
  {
    "[" + JoinQuoted(xs) + "]"
  }

  /** Reads a `\u` escape at the head of `s`, pairing a high surrogate with the low one after it.
      An unpaired surrogate is refused: it is not a character here. */
  function ReadUnicodeEscape(s: string): (r: Option<(char, nat)>)
    requires |s| >= 2 && s[0] == '\\' && s[1] == 'u'
    ensures r.Some? ==> 0 < r.value.1 <= |s|
  {
    if |s| < 6 then None
    else match Hex4Value(s[2..6])
      case None => None
      case Some(h) =>
        if h < 0xD800 || 0xE000 <= h then Some((h as char, 6))
        else if h < 0xDC00 && |s| >= 12 && s[6] == '\\' && s[7] == 'u' then
          match Hex4Value(s[8..12])
          case Some(l) =>
            if 0xDC00 <= l < 0xE000 then Some(((0x10000 + (h - 0xD800) * 0x400 + (l - 0xDC00)) as char, 12))
            else None
          case None => None
        else None
  }

  /** Reads one character of a JSON string body at the head of `s`, with how much it took. */
  function ReadChar(s: string): (r: Option<(char, nat)>)
    ensures r.Some? ==> 0 < r.value.1 <= |s|
  {
    if |s| == 0 then None
    else if s[0] != '\\' then
      if s[0] == '"' || s[0] < ' ' then None else Some((s[0], 1))
    else if |s| < 2 then None
    else match s[1]
      case '"' => Some(('"', 2))
      case '\\' => Some(('\\', 2))
      case '/' => Some(('/', 2))
      case 'b' => Some((Backspace, 2))
      case 'f' => Some((FormFeed, 2))
      case 'n' => Some(('\n', 2))
      case 'r' => Some(('\r', 2))
      case 't' => Some(('\t', 2))
      case 'u' => ReadUnicodeEscape(s)
      case _ => None
  }

  /** Reads a string body up to its closing quote; returns the string and what follows the quote. */
  function ReadBody(s: string): (r: Option<(string, string)>)
    ensures r.Some? ==> |r.value.1| < |s|
    decreases |s|
  {
    if |s| == 0 then None
    else if s[0] == '"' then Some(([], s[1..]))
    else match ReadChar(s)
      case None => None
      case Some((c, k)) =>
        match ReadBody(s[k..])
        case None => None
        case Some((t, rest)) => Some(([c] + t, rest))
  }

  /** Reads `"..."` items separated by ", " up to the closing bracket. */
  function ReadItems(s: string): Option<seq<string>>
    decreases |s|
  {
    if |s| == 0 || s[0] != '"' then None
    else match ReadBody(s[1..])
      case None => None
      case Some((x, rest)) =>
        if rest == "]" then Some([x])
        else if |rest| >= 2 && rest[0] == ',' && rest[1] == ' ' then
          match ReadItems(rest[2..])
          case Some(xs) => Some([x] + xs)
          case None => None
        else None
  }

  /** `json.loads` restricted to lists of strings in the layout `json.dumps` writes. */
  function LoadStrings(s: string): Option<seq<string>> {
    if s == "[]" then Some([])
    else if |s| >= 1 && s[0] == '[' then ReadItems(s[1..])
    else None
  }

  predicate ShortEscaped(c: char) {
    c == '"' || c == '\\' || c == '\n' || c == '\r' || c == '\t' || c == Backspace || c == FormFeed
  }

  lemma {:induction false} ReadShortEscape(c: char, t: string)
    requires ShortEscaped(c)
    ensures ReadChar(EscapeChar(c) + t) == Some((c, 2))
  {
  }

  lemma {:induction false} ReadBmpEscape(c: char, t: string)
    requires !ShortEscaped(c) && !Printable(c) && c as int < 0x10000
    ensures ReadChar(EscapeChar(c) + t) == Some((c, 6))
  {
    var s := EscapeChar(c) + t;
    assert EscapeChar(c) == "\\u" + Hex4(c as int);
    assert s[0] == '\\' && s[1] == 'u' && |s| >= 6;
    assert s[2..6] == Hex4(c as int);
    Hex4RoundTrip(c as int);
  }

  lemma {:induction false} ReadPairedEscape(s: string, hi: nat, lo: nat)
    requires |s| >= 12 && s[0] == '\\' && s[1] == 'u' && s[6] == '\\' && s[7] == 'u'
    requires 0xD800 <= hi < 0xDC00 && 0xDC00 <= lo < 0xE000
    requires Hex4Value(s[2..6]) == Some(hi) && Hex4Value(s[8..12]) == Some(lo)
    ensures ReadChar(s) == Some(((0x10000 + (hi - 0xD800) * 0x400 + (lo - 0xDC00)) as char, 12))
  {
  }

  /** The UTF-16 surrogate pair of a character above U+FFFF. */
  function HighSurrogate(c: char): (h: nat)
    requires c as int >= 0x10000
    ensures 0xD800 <= h < 0xDC00
  {
    0xD800 + (c as int - 0x10000) / 0x400
  }

  function LowSurrogate(c: char): (l: nat)
    requires c as int >= 0x10000
    ensures 0xDC00 <= l < 0xE000
  {
    0xDC00 + (c as int - 0x10000) % 0x400
  }

  lemma {:induction false} SurrogatesCombine(c: char)
    requires c as int >= 0x10000
    ensures 0x10000 + (HighSurrogate(c) - 0xD800) * 0x400 + (LowSurrogate(c) - 0xDC00) == c as int
  {
  }

  /** The layout of a surrogate-pair escape in front of `t`. */
  lemma {:induction false} PairedEscapeLayout(hi: nat, lo: nat, t: string)
    requires hi < 0x10000 && lo < 0x10000
    ensures var s := "\\u" + Hex4(hi) + "\\u" + Hex4(lo) + t;
      |s| >= 12 && s[0] == '\\' && s[1] == 'u' && s[6] == '\\' && s[7] == 'u' &&
      s[2..6] == Hex4(hi) && s[8..12] == Hex4(lo)
  {
  }

  lemma {:induction false} ReadSurrogatePair(c: char, t: string)
    requires c as int >= 0x10000
    ensures ReadChar(EscapeChar(c) + t) == Some((c, 12))
  {
    var hi, lo := HighSurrogate(c), LowSurrogate(c);
    var s := "\\u" + Hex4(hi) + "\\u" + Hex4(lo) + t;
    assert EscapeChar(c) + t == s;
    PairedEscapeLayout(hi, lo, t);
    Hex4RoundTrip(hi);
    Hex4RoundTrip(lo);
    ReadPairedEscape(s, hi, lo);
    SurrogatesCombine(c);
  }

  /** Every escape reads back as the character it stands for. */
  lemma {:induction false} ReadEscapedChar(c: char, t: string)
    ensures ReadChar(EscapeChar(c) + t) == Some((c, |EscapeChar(c)|))
  {
    if ShortEscaped(c) {
      ReadShortEscape(c, t);
    } else if Printable(c) {
      assert EscapeChar(c) == [c];
    } else if c as int < 0x10000 {
      ReadBmpEscape(c, t);
    } else {
      ReadSurrogatePair(c, t);
    }
  }

  /** One character read off the front of a string body. */
  lemma {:induction false} ReadBodyStep(s: string, c: char, k: nat)
    requires |s| > 0 && s[0] != '"' && ReadChar(s) == Some((c, k))
    ensures ReadBody(s) == match ReadBody(s[k..])
                           case None => None
                           case Some((t, rest)) => Some(([c] + t, rest))
  {
  }

  lemma {:induction false} ReadEscapedBody(x: string, rest: string)
    ensures ReadBody(EscapeString(x) + "\"" + rest) == Some((x, rest))
    decreases |x|
  {
    if x == [] {
      assert EscapeString(x) + "\"" + rest == "\"" + rest;
    } else {
      var e := EscapeChar(x[0]);
      var tail := EscapeString(x[1..]) + "\"" + rest;
      assert EscapeString(x) + "\"" + rest == e + tail;
      ReadEscapedChar(x[0], tail);
      assert (e + tail)[|e|..] == tail;
      ReadBodyStep(e + tail, x[0], |e|);
      ReadEscapedBody(x[1..], rest);
      assert [x[0]] + x[1..] == x;
    }
  }

  /** The last quoted item of the list body. */
  lemma {:induction false} ReadLastQuoted(x: string)
    ensures ReadItems(Quote(x) + "]") == Some([x])
  {
    var s := Quote(x) + "]";
    assert s[0] == '"';
    assert s[1..] == EscapeString(x) + "\"" + "]";
    ReadEscapedBody(x, "]");
  }

  /** A quoted item followed by ", " and the rest of the list body. */
  lemma {:induction false} ReadQuotedThen(x: string, tail: string, ys: seq<string>)
    requires ReadItems(tail) == Some(ys)
    ensures ReadItems(Quote(x) + ", " + tail) == Some([x] + ys)
  {
    var more := ", " + tail;
    var s := Quote(x) + more;
    assert s == Quote(x) + ", " + tail;
    assert s[0] == '"';
    assert s[1..] == EscapeString(x) + "\"" + more;
    ReadEscapedBody(x, more);
    assert more != "]" && more[0] == ',' && more[1] == ' ' && more[2..] == tail;
  }

  lemma {:induction false} ReadJoined(xs: seq<string>)
    requires xs != []
    ensures ReadItems(JoinQuoted(xs) + "]") == Some(xs)
    decreases |xs|
  {
    if |xs| == 1 {
      ReadLastQuoted(xs[0]);
      assert [xs[0]] == xs;
    } else {
      var tail := JoinQuoted(xs[1..]) + "]";
      ReadJoined(xs[1..]);
      ReadQuotedThen(xs[0], tail, xs[1..]);
      assert JoinQuoted(xs) + "]" == Quote(xs[0]) + ", " + tail;
      assert [xs[0]] + xs[1..] == xs;
    }
  }

  /** A bracketed list body other than the empty list's. */
  lemma {:induction false} LoadBracketed(body: string)
    requires body != "]"
    ensures LoadStrings("[" + body) == ReadItems(body)
  {
    assert ("[" + body)[1..] == body;
  }

  /** What `json.dumps` writes for a list of strings reads back as that list. */
  lemma {:induction false} DumpStringsRoundTrip(xs: seq<string>)
    ensures LoadStrings(DumpStrings(xs)) == Some(xs)
  {
    if xs != [] {
      var body := JoinQuoted(xs) + "]";
      assert DumpStrings(xs) == "[" + body;
      LoadBracketed(body);
      ReadJoined(xs);
    }
  }
}
