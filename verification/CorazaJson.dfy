/** The JSON that carries the policy to the proxy, and its reading back
    (`buildCorazaJSON` in management-plane/xds.go; strings as in section 7 of RFC 8259). */
module CorazaJson {
  import opened Wrappers
  import opened Strings
  import opened PolicyText

  // ---------------------------------------------------------------- writing

  function HexDigit(n: nat): (c: char)
    requires n < 16
  {
    if n < 10 then ('0' as int + n) as char else ('a' as int + n - 10) as char
  }

  function UnicodeEscape(n: nat): string
    requires n < 0x10000
  {
    ['\\', 'u', HexDigit(n / 4096), HexDigit(n / 256 % 16), HexDigit(n / 16 % 16), HexDigit(n % 16)]
  }

  /** The characters `json.Marshal` does not write as they are: quotes, backslashes, controls, the
      three HTML characters and the two line separators. */
  predicate NeedsUnicodeEscape(c: char) {
    c < ' ' || c == '<' || c == '>' || c == '&' || c == '\U{2028}' || c == '\U{2029}'
  }

  function EscapeChar(c: char): string {
    if c == '"' then ['\\', '"']
    else if c == '\\' then ['\\', '\\']
    else if c == '\U{08}' then ['\\', 'b']
    else if c == '\U{0C}' then ['\\', 'f']
    else if c == '\n' then ['\\', 'n']
    else if c == '\r' then ['\\', 'r']
    else if c == '\t' then ['\\', 't']
    else if NeedsUnicodeEscape(c) then UnicodeEscape(c as int)
    else [c]
  }

  function Escape(s: string): string {
    if s == "" then "" else EscapeChar(s[0]) + Escape(s[1..])
  }

  function Quote(s: string): string {
    ['"'] + Escape(s) + ['"']
  }

  function QuoteAll(lines: seq<string>): (quoted: seq<string>)
    ensures |quoted| == |lines| && forall i | 0 <= i < |lines| :: quoted[i] == Quote(lines[i])
  {
    seq(|lines|, i requires 0 <= i < |lines| => Quote(lines[i]))
  }

  const OPENING := "{\n\t\"directives_map\": {" + "\n\t\t\"default\": ["

  /** What follows the closing bracket of the list. */
  const CLOSING := "\n\t},\n\t\"default_directives\"" + ": \"default\"\n}"

  function Wrap(directives: string): string {
    OPENING + ("\n\t\t\t" + directives + "\n\t\t]" + CLOSING)
  }

  const SEPARATOR := ",\n\t\t\t"

  /** Split into lines, trim, drop the blank ones, encode each, join. */
  method BuildCorazaJSON(secLangDirectives: string) returns (json: string)
    ensures json == Wrap(Join(QuoteAll(CleanLines(secLangDirectives)), SEPARATOR))
    ensures DecodeConfig(json) == Some(CleanLines(secLangDirectives))
  {
    hide TrimSpace, Split, Quote, Join, Wrap, DecodeConfig;
    var lines := Split(secLangDirectives);
    var encoded := [];
    for i := 0 to |lines|
      invariant encoded == QuoteAll(TrimAll(lines[..i]))
    {
      assert lines[..i + 1][..i] == lines[..i];
      var line := TrimSpace(lines[i]);
      if line == "" {
        continue;
      }
      encoded := encoded + [Quote(line)];
    }
    assert lines[..|lines|] == lines;
    json := Wrap(Join(encoded, SEPARATOR));
    DecodeWrapped(CleanLines(secLangDirectives));
  }

  // ---------------------------------------------------------------- reading

  function HexValue(c: char): Option<nat> {
    if '0' <= c <= '9' then Some(c as int - '0' as int)
    else if 'a' <= c <= 'f' then Some(c as int - 'a' as int + 10)
    else if 'A' <= c <= 'F' then Some(c as int - 'A' as int + 10)
    else None
  }

  /** The character of a two-character escape. */
  function ShortEscape(c: char): Option<char> {
    match c
    case '"' => Some('"')
    case '\\' => Some('\\')
    case '/' => Some('/')
    case 'b' => Some('\U{08}')
    case 'f' => Some('\U{0C}')
    case 'n' => Some('\n')
    case 'r' => Some('\r')
    case 't' => Some('\t')
    case _ => None
  }

  /** The character of `uXXXX`; a lone surrogate is no character. */
  function LongEscape(s: string): Option<char>
    requires |s| >= 4
  {
    match (HexValue(s[0]), HexValue(s[1]), HexValue(s[2]), HexValue(s[3]))
    case (Some(a), Some(b), Some(c), Some(d)) =>
      var n := a * 4096 + b * 256 + c * 16 + d;
      if n < 0xD800 || 0xE000 <= n < 0x10000 then Some(n as char) else None
    case _ => None
  }

  function Cons(c: char, parsed: Option<(string, string)>): (r: Option<(string, string)>)
    ensures r.Some? <==> parsed.Some?
    ensures r.Some? ==> r.value.1 == parsed.value.1
  {
    match parsed
    case None => None
    case Some((t, rest)) => Some(([c] + t, rest))
  }

  /** The characters of a string up to its closing quote, and what follows the quote. */
  function ParseChars(s: string): (r: Option<(string, string)>)
    ensures r.Some? ==> |r.value.1| < |s|
    decreases |s|
  {
    if s == "" then None
    else if s[0] == '"' then Some(("", s[1..]))
    else if s[0] == '\\' then
      if |s| < 2 then None
      else if s[1] == 'u' then
        if |s| < 6 || LongEscape(s[2..]).None? then None else Cons(LongEscape(s[2..]).value, ParseChars(s[6..]))
      else
        if ShortEscape(s[1]).None? then None else Cons(ShortEscape(s[1]).value, ParseChars(s[2..]))
    else if s[0] < ' ' then None
    else Cons(s[0], ParseChars(s[1..]))
  }

  predicate IsBlank(c: char) {
    c == ' ' || c == '\t' || c == '\n' || c == '\r'
  }

  function SkipBlanks(s: string): (t: string)
    ensures |t| <= |s|
  {
    if s != "" && IsBlank(s[0]) then SkipBlanks(s[1..]) else s
  }

  /** One or more strings separated by commas, up to the closing bracket. */
  function ParseItems(s: string): Option<(seq<string>, string)>
    decreases |s|
  {
    if s == "" || s[0] != '"' then None
    else match ParseChars(s[1..])
      case None => None
      case Some((item, rest)) =>
        var after := SkipBlanks(rest);
        if after == "" then None
        else if after[0] == ']' then Some(([item], after[1..]))
        else if after[0] == ',' then
          match ParseItems(SkipBlanks(after[1..]))
          case None => None
          case Some((items, end)) => Some(([item] + items, end))
        else None
  }

  function ParseArray(s: string): Option<(seq<string>, string)> {
    var t := SkipBlanks(s);
    if t != "" && t[0] == ']' then Some(([], t[1..])) else ParseItems(t)
  }

  /** The directives of a configuration document. */
  function DecodeConfig(json: string): Option<seq<string>> {
    if !HasPrefix(json, OPENING) then None
    else match ParseArray(json[|OPENING|..])
      case Some((items, rest)) => if rest == CLOSING then Some(items) else None
      case None => None
  }

  // ---------------------------------------------------------------- round trip

  lemma HexRoundTrip(n: nat)
    requires n < 16
    ensures HexValue(HexDigit(n)) == Some(n)
  {
  }

  lemma NibblesOf(n: nat)
    requires n < 0x10000
    ensures n / 4096 < 16
    ensures (n / 4096) * 4096 + (n / 256 % 16) * 256 + (n / 16 % 16) * 16 + n % 16 == n
  {
    var a := n / 16;
    var b := a / 16;
    assert n / 256 == b && n / 4096 == b / 16;
  }

  lemma LongEscapeRoundTrip(c: char, tail: string)
    requires c as int < 0x10000
    ensures UnicodeEscape(c as int)[2..] + tail == (UnicodeEscape(c as int) + tail)[2..]
    ensures LongEscape(UnicodeEscape(c as int)[2..] + tail) == Some(c)
  {
    var n := c as int;
    NibblesOf(n);
    HexRoundTrip(n / 4096);
    HexRoundTrip(n / 256 % 16);
    HexRoundTrip(n / 16 % 16);
    HexRoundTrip(n % 16);
  }

  lemma ReadPlain(c: char, tail: string)
    requires c >= ' ' && c != '"' && c != '\\'
    ensures ParseChars([c] + tail) == Cons(c, ParseChars(tail))
  {
    assert ([c] + tail)[1..] == tail;
  }

  lemma ReadShort(x: char, c: char, tail: string)
    requires x != 'u' && ShortEscape(x) == Some(c)
    ensures ParseChars(['\\', x] + tail) == Cons(c, ParseChars(tail))
  {
    hide ShortEscape;
    assert (['\\', x] + tail)[2..] == tail;
  }

  lemma ReadLong(c: char, tail: string)
    requires c as int < 0x10000
    ensures ParseChars(UnicodeEscape(c as int) + tail) == Cons(c, ParseChars(tail))
  {
    hide LongEscape, UnicodeEscape;
    var s := UnicodeEscape(c as int) + tail;
    UnicodeEscapeShape(c);
    LongEscapeRoundTrip(c, tail);
    assert s[6..] == tail;
  }

  lemma UnicodeEscapeShape(c: char)
    requires c as int < 0x10000
    ensures |UnicodeEscape(c as int)| == 6 && UnicodeEscape(c as int)[0] == '\\' && UnicodeEscape(c as int)[1] == 'u'
  {
  }

  /** Each character is written in one of three ways. */
  lemma EscapeForms(c: char)
    ensures
      || (EscapeChar(c) == [c] && c >= ' ' && c != '"' && c != '\\')
      || (c as int < 0x10000 && EscapeChar(c) == UnicodeEscape(c as int))
      || (|EscapeChar(c)| == 2 && EscapeChar(c) == ['\\', EscapeChar(c)[1]] && EscapeChar(c)[1] != 'u' && ShortEscape(EscapeChar(c)[1]) == Some(c))
  {
    hide UnicodeEscape;
  }

  lemma ParseEscapedChar(c: char, tail: string)
    ensures ParseChars(EscapeChar(c) + tail) == Cons(c, ParseChars(tail))
  {
    hide EscapeChar, UnicodeEscape, ShortEscape, ParseChars, Cons;
    EscapeForms(c);
    if EscapeChar(c) == [c] && c >= ' ' && c != '"' && c != '\\' {
      ReadPlain(c, tail);
    } else if c as int < 0x10000 && EscapeChar(c) == UnicodeEscape(c as int) {
      ReadLong(c, tail);
    } else {
      ReadShort(EscapeChar(c)[1], c, tail);
    }
  }

  /** Undoing the escapes of an encoded line gives the line back. */
  lemma {:induction false} ParseEscaped(s: string, rest: string)
    ensures ParseChars(Escape(s) + ['"'] + rest) == Some((s, rest))
    decreases |s|
  {
    hide EscapeChar, ParseChars;
    if s == "" {
      assert Escape(s) + ['"'] + rest == ['"'] + rest;
      ParseQuote(rest);
    } else {
      ParseEscaped(s[1..], rest);
      assert Escape(s) + ['"'] + rest == EscapeChar(s[0]) + (Escape(s[1..]) + ['"'] + rest);
      ParseEscapedChar(s[0], Escape(s[1..]) + ['"'] + rest);
      assert [s[0]] + s[1..] == s;
    }
  }

  lemma ParseQuote(rest: string)
    ensures ParseChars(['"'] + rest) == Some(("", rest))
  {
    assert (['"'] + rest)[1..] == rest;
  }

  lemma {:induction false} SkipBlanksOver(blanks: string, rest: string)
    requires forall i | 0 <= i < |blanks| :: IsBlank(blanks[i])
    requires rest != "" ==> !IsBlank(rest[0])
    ensures SkipBlanks(blanks + rest) == rest
    decreases |blanks|
  {
    if blanks == "" {
      assert blanks + rest == rest;
    } else {
      assert (blanks + rest)[1..] == blanks[1..] + rest;
      SkipBlanksOver(blanks[1..], rest);
    }
  }

  /** One item of the list, followed by a comma or by the end of the list. */
  lemma ParseOneItem(item: string, blanks: string, tail: string)
    requires forall i | 0 <= i < |blanks| :: IsBlank(blanks[i])
    requires tail != "" && !IsBlank(tail[0])
    ensures
      ParseItems(Quote(item) + (blanks + tail)) ==
        if tail[0] == ']' then Some(([item], tail[1..]))
        else if tail[0] == ',' then
          match ParseItems(SkipBlanks(tail[1..]))
          case None => None
          case Some((items, end)) => Some(([item] + items, end))
        else None
  {
    hide Escape, ParseChars;
    var s := Quote(item) + (blanks + tail);
    assert s[1..] == Escape(item) + ['"'] + (blanks + tail);
    ParseEscaped(item, blanks + tail);
    SkipBlanksOver(blanks, tail);
  }

  lemma {:induction false} ParseList(items: seq<string>, end: string)
    requires items != []
    ensures ParseItems(Join(QuoteAll(items), SEPARATOR) + (['\n', '\t', '\t'] + ([']'] + end))) == Some((items, end))
    decreases |items|
  {
    hide Quote, ParseItems;
    var close := ['\n', '\t', '\t'] + ([']'] + end);
    var quoted := QuoteAll(items);
    if |items| == 1 {
      ParseOneItem(items[0], ['\n', '\t', '\t'], [']'] + end);
      assert items == [items[0]];
      assert ([']'] + end)[1..] == end;
    } else {
      var rest := Join(QuoteAll(items[1..]), SEPARATOR) + close;
      ParseList(items[1..], end);
      assert quoted[1..] == QuoteAll(items[1..]);
      assert SEPARATOR == [','] + ['\n', '\t', '\t', '\t'];
      var tail := [','] + (['\n', '\t', '\t', '\t'] + rest);
      assert Join(quoted, SEPARATOR) + close == Quote(items[0]) + ("" + tail);
      ParseOneItem(items[0], "", tail);
      assert tail[1..] == ['\n', '\t', '\t', '\t'] + rest;
      ListStartsWithQuote(items[1..], close);
      SkipBlanksOver(['\n', '\t', '\t', '\t'], rest);
      assert items == [items[0]] + items[1..];
    }
  }

  lemma ListStartsWithQuote(items: seq<string>, close: string)
    requires items != []
    ensures var s := Join(QuoteAll(items), SEPARATOR) + close; s != "" && s[0] == '"'
  {
    assert Quote(items[0])[0] == '"';
  }

  /** The configuration document of any list of lines decodes to exactly those lines. */
  lemma DecodeWrapped(items: seq<string>)
    ensures DecodeConfig(Wrap(Join(QuoteAll(items), SEPARATOR))) == Some(items)
  {
    hide Quote, ParseItems, OPENING, CLOSING, Join;
    var list := Join(QuoteAll(items), SEPARATOR);
    var json := Wrap(list);
    assert "\n\t\t]" == ['\n', '\t', '\t'] + [']'];
    assert "\n\t\t\t" == ['\n', '\t', '\t', '\t'];
    var close := ['\n', '\t', '\t'] + ([']'] + CLOSING);
    var body := json[|OPENING|..];
    assert body == ['\n', '\t', '\t', '\t'] + (list + close);
    if items == [] {
      EmptyList();
      assert body == (['\n', '\t', '\t', '\t'] + ['\n', '\t', '\t']) + ([']'] + CLOSING);
      SkipBlanksOver(['\n', '\t', '\t', '\t'] + ['\n', '\t', '\t'], [']'] + CLOSING);
      assert ([']'] + CLOSING)[1..] == CLOSING;
    } else {
      ListStartsWithQuote(items, close);
      SkipBlanksOver(['\n', '\t', '\t', '\t'], list + close);
      ParseList(items, CLOSING);
    }
  }

  lemma EmptyList()
    ensures Join(QuoteAll([]), SEPARATOR) == ""
  {
  }

  /** From tables' text to the proxy and back: the decoded configuration of the assembled policy is
      the policy's lines, in order of precedence. */
  lemma PolicyRoundTrip(s: Sections)
    ensures
      var text := WithLearner(AssembledText(s));
      DecodeConfig(Wrap(Join(QuoteAll(CleanLines(text)), SEPARATOR))) == Some(PolicyLines(s))
  {
    hide CleanLines, Wrap, DecodeConfig, PolicyLines, AssembledText;
    AssembledLines(s);
    DecodeWrapped(PolicyLines(s));
  }

  // ---------------------------------------------------------------- what is written

  /** The characters that never stand in an encoded line as they are. */
  predicate Guarded(c: char) {
    c < ' ' || c in {'<', '>', '&', '\U{2028}', '\U{2029}'}
  }

  lemma EscapedCharIsSafe(c: char)
    ensures forall d | d in EscapeChar(c) :: !Guarded(d)
    ensures EscapeChar(c) == [c] <==> !Guarded(c) && c != '"' && c != '\\'
    ensures |EscapeChar(c)| >= 1 && (|EscapeChar(c)| > 1 ==> EscapeChar(c)[0] == '\\')
  {
  }

  /** Nothing a script or a line-based reader could trip over stands in an encoded line. */
  lemma {:induction false} EscapedIsSafe(s: string)
    ensures forall d | d in Escape(s) :: !Guarded(d)
    decreases |s|
  {
    hide EscapeChar, Guarded;
    if s == "" {
    } else {
      EscapedCharIsSafe(s[0]);
      EscapedIsSafe(s[1..]);
    }
  }

  /** Exactly the lines without such a character, a quote or a backslash are written as they are. */
  lemma {:induction false} EscapedKeepsIff(s: string)
    ensures Escape(s) == s <==> forall c | c in s :: !Guarded(c) && c != '"' && c != '\\'
    ensures |Escape(s)| >= |s|
    decreases |s|
  {
    hide EscapeChar, Guarded;
    if s == "" {
    } else {
      EscapedCharIsSafe(s[0]);
      EscapedKeepsIff(s[1..]);
      assert forall c :: c in s <==> c == s[0] || c in s[1..];
      assert s == [s[0]] + s[1..];
      if Escape(s) == s {
        SameLengths(EscapeChar(s[0]), Escape(s[1..]), [s[0]], s[1..]);
      }
    }
  }

  lemma SameLengths(a: string, b: string, c: string, d: string)
    requires a + b == c + d && |a| >= |c| && |b| >= |d|
    ensures a == c && b == d
  {
    assert |a| == |c|;
    assert a == (a + b)[..|a|] && c == (c + d)[..|c|];
    assert b == (a + b)[|a|..] && d == (c + d)[|c|..];
  }

  /** The document around the directives. */
  lemma DocumentText(directives: string)
    ensures Wrap(directives) ==
            ("{\n\t\"directives_map\": {" + "\n\t\t\"default\": [") + ("\n\t\t\t" + directives + "\n\t\t]"
            + ("\n\t},\n\t\"default_directives\"" + ": \"default\"\n}"))
  {
  }

  /** Two directives are written on two lines. */
  lemma TwoDirectives(a: string, b: string)
    ensures Join(QuoteAll([a, b]), SEPARATOR) == ['"'] + Escape(a) + ['"'] + ",\n\t\t\t" + (['"'] + Escape(b) + ['"'])
  {
    hide Escape;
    assert QuoteAll([a, b])[1..] == [Quote(b)];
  }
}
