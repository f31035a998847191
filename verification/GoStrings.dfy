/**
 * The string library calls the environment-file printer and reader rest on:
 * splitting, cutting, trimming, and Go's quoted string syntax.  Strings are
 * sequences of Unicode scalar values; which characters from U+00A0 on count as
 * printable is left open.
 */
module GoStrings {
  import opened Common

  /** unicode.IsSpace. */
  predicate Space(c: char) {
    || c == ' ' || '\t' <= c <= '\r'
    || c == '\U{85}' || c == '\U{A0}' || c == '\U{1680}' || '\U{2000}' <= c <= '\U{200A}'
    || c == '\U{2028}' || c == '\U{2029}' || c == '\U{202F}' || c == '\U{205F}' || c == '\U{3000}'
  }

  /** unicode.IsControl. */
  predicate Control(c: char) {
    c < ' ' || '\U{7F}' <= c <= '\U{9F}'
  }

  /** The code points of unicode.IsSpace. */
  lemma SpaceIff(c: char)
    ensures Space(c) <==>
      c as int in {9, 10, 11, 12, 13, 0x20, 0x85, 0xA0, 0x1680, 0x2028, 0x2029, 0x202F, 0x205F, 0x3000} || 0x2000 <= c as int <= 0x200A
  {
  }

  function TrimLeft(s: string): string {
    if s != "" && Space(s[0]) then TrimLeft(s[1..]) else s
  }

  function TrimRight(s: string): string {
    if s != "" && Space(s[|s| - 1]) then TrimRight(s[..|s| - 1]) else s
  }

  function Trim(s: string): string {
    TrimRight(TrimLeft(s))
  }

  /** A part of a string with nothing but spaces around it. */
  ghost predicate Amid(part: string, s: string, at: nat) {
    && at + |part| <= |s| && s[at..at + |part|] == part
    && (forall i | 0 <= i < at :: Space(s[i]))
    && (forall i | at + |part| <= i < |s| :: Space(s[i]))
  }

  /** Trimming takes spaces from both ends and stops at the first character that is none. */
  lemma {:induction false} TrimStrips(s: string)
    ensures exists at: nat :: Amid(Trim(s), s, at)
    ensures Trim(s) != "" ==> !Space(Trim(s)[0]) && !Space(Trim(s)[|Trim(s)| - 1])
  {
    hide Space, TrimLeft, TrimRight;
    var cut := TrimLeft(s);
    LeftStrips(s);
    RightStrips(cut);
    TrimLeftShrinks(s);
    var at, end := |s| - |cut|, |s| - |cut| + |Trim(s)|;
    forall i | 0 <= i < at ensures Space(s[i]) {
      assert s[..at][i] == s[i];
    }
    forall i | end <= i < |s| ensures Space(s[i]) {
      assert cut[|Trim(s)|..][i - end] == s[i];
    }
    assert s[at..end] == cut[..|Trim(s)|];
    assert Amid(Trim(s), s, at);
  }

  lemma {:induction false} LeftStrips(s: string)
    ensures |TrimLeft(s)| <= |s| && s[|s| - |TrimLeft(s)|..] == TrimLeft(s)
    ensures forall c | c in s[..|s| - |TrimLeft(s)|] :: Space(c)
  {
    if s != "" && Space(s[0]) {
      LeftStrips(s[1..]);
      assert s[..|s| - |TrimLeft(s)|] == [s[0]] + s[1..][..|s| - 1 - |TrimLeft(s)|];
    }
  }

  lemma {:induction false} RightStrips(s: string)
    ensures |TrimRight(s)| <= |s| && s[..|TrimRight(s)|] == TrimRight(s)
    ensures forall c | c in s[|TrimRight(s)|..] :: Space(c)
    ensures TrimRight(s) != "" ==> !Space(TrimRight(s)[|TrimRight(s)| - 1])
  {
    if s != "" && Space(s[|s| - 1]) {
      RightStrips(s[..|s| - 1]);
      assert s[|TrimRight(s)|..] == s[..|s| - 1][|TrimRight(s)|..] + [s[|s| - 1]];
    }
  }

  /** A string is its own trimming exactly when no end of it is a space. */
  lemma TrimIsIdentityIff(s: string)
    ensures Trim(s) == s <==> s == "" || (!Space(s[0]) && !Space(s[|s| - 1]))
  {
    TrimLeftShrinks(s);
    TrimRightShrinks(TrimLeft(s));
  }

  lemma {:induction false} TrimLeftShrinks(s: string)
    ensures |TrimLeft(s)| <= |s|
    ensures s != "" && Space(s[0]) ==> |TrimLeft(s)| < |s|
    ensures TrimLeft(s) == s[|s| - |TrimLeft(s)|..]
    ensures TrimLeft(s) != "" ==> !Space(TrimLeft(s)[0])
  {
    if s != "" && Space(s[0]) {
      TrimLeftShrinks(s[1..]);
    }
  }

  lemma {:induction false} TrimRightShrinks(s: string)
    ensures |TrimRight(s)| <= |s|
    ensures s != "" && Space(s[|s| - 1]) ==> |TrimRight(s)| < |s|
    ensures TrimRight(s) == s[..|TrimRight(s)|]
  {
    if s != "" && Space(s[|s| - 1]) {
      TrimRightShrinks(s[..|s| - 1]);
    }
  }

  /** The two sides of the first separator. */
  function Cut(s: string, separator: char): Option<(string, string)> {
    if s == "" then None
    else if s[0] == separator then Some(("", s[1..]))
    else
      match Cut(s[1..], separator)
      case None => None
      case Some((before, after)) => Some(([s[0]] + before, after))
  }

  lemma {:induction false} CutAtFirst(before: string, separator: char, after: string)
    requires separator !in before
    ensures Cut(before + [separator] + after, separator) == Some((before, after))
  {
    var s := before + [separator] + after;
    if before == "" {
      assert s[0] == separator && s[1..] == after;
    } else {
      CutAtFirst(before[1..], separator, after);
      assert s[0] == before[0] && s[1..] == before[1..] + [separator] + after;
      assert before == [before[0]] + before[1..];
    }
  }

  /** A cut is where the first separator is. */
  lemma {:induction false} CutRejoins(s: string, separator: char)
    ensures Cut(s, separator).Some? ==>
      var (before, after) := Cut(s, separator).value;
      s == before + [separator] + after && separator !in before
    ensures Cut(s, separator).None? <==> separator !in s
  {
    if s != "" && s[0] != separator {
      CutRejoins(s[1..], separator);
      assert s == [s[0]] + s[1..];
    }
  }

  /** The parts between separators; always at least one. */
  function Split(s: string, separator: char): (parts: seq<string>)
    ensures parts != []
  {
    if s == "" then [""]
    else
      var rest := Split(s[1..], separator);
      if s[0] == separator then [""] + rest else [[s[0]] + rest[0]] + rest[1..]
  }

  /** Each line followed by a line break. */
  function Lines(lines: seq<string>): string {
    if lines == [] then "" else lines[0] + "\n" + Lines(lines[1..])
  }

  lemma {:induction false} SplitFirst(line: string, rest: string)
    requires '\n' !in line
    ensures Split(line + "\n" + rest, '\n') == [line] + Split(rest, '\n')
  {
    var s := line + "\n" + rest;
    if line == "" {
      assert s[0] == '\n' && s[1..] == rest;
    } else {
      SplitFirst(line[1..], rest);
      assert s[0] == line[0] && s[1..] == line[1..] + "\n" + rest;
      assert ([line[1..]] + Split(rest, '\n'))[1..] == Split(rest, '\n');
      assert line == [line[0]] + line[1..];
    }
  }

  /** Splitting printed lines gives the lines back, and one empty part after the last break. */
  lemma {:induction false} SplitLines(lines: seq<string>)
    requires forall i | 0 <= i < |lines| :: '\n' !in lines[i]
    ensures Split(Lines(lines), '\n') == lines + [""]
  {
    if lines != [] {
      SplitLines(lines[1..]);
      SplitFirst(lines[0], Lines(lines[1..]));
      assert lines == [lines[0]] + lines[1..];
    }
  }

  /** No part contains the separator. */
  lemma {:induction false} SplitParts(s: string, separator: char)
    ensures forall part | part in Split(s, separator) :: separator !in part
  {
    if s != "" {
      SplitParts(s[1..], separator);
    }
  }

  // ---------------------------------------------------------------------------------------------
  // Quoting
  // ---------------------------------------------------------------------------------------------

  /** strconv.IsPrint, open from U+00A0 on. */
  predicate Printable(shown: char -> bool, c: char) {
    if c < '\U{7F}' then c >= ' ' else if c < '\U{A0}' then false else shown(c)
  }

  const HEX := "0123456789abcdef"

  function Hex(n: nat, width: nat): string {
    if width == 0 then "" else Hex(n / 16, width - 1) + [HEX[n % 16]]
  }

  function HexValue(c: char): Option<nat> {
    if '0' <= c <= '9' then Some(c as int - '0' as int)
    else if 'a' <= c <= 'f' then Some(c as int - 'a' as int + 10)
    else if 'A' <= c <= 'F' then Some(c as int - 'A' as int + 10)
    else None
  }

  function ParseHex(s: string): Option<nat> {
    if s == "" then Some(0)
    else
      match ParseHex(s[..|s| - 1])
      case None => None
      case Some(high) =>
        match HexValue(s[|s| - 1])
        case None => None
        case Some(low) => Some(high * 16 + low)
  }

  function Power16(width: nat): nat {
    if width == 0 then 1 else 16 * Power16(width - 1)
  }

  lemma HexDigitRoundTrip(n: nat)
    requires n < 16
    ensures HexValue(HEX[n]) == Some(n)
  {
  }

  lemma {:induction false} HexRoundTrip(n: nat, width: nat)
    requires n < Power16(width)
    ensures |Hex(n, width)| == width && ParseHex(Hex(n, width)) == Some(n)
  {
    if width > 0 {
      HexRoundTrip(n / 16, width - 1);
      HexDigitRoundTrip(n % 16);
      var s := Hex(n, width);
      assert s[..width - 1] == Hex(n / 16, width - 1);
    }
  }

  /** One character of a quoted string. */
  function Escape(shown: char -> bool, c: char): string {
    if c == '"' || c == '\\' then ['\\', c]
    else if Printable(shown, c) then [c]
    else
      match c
      case '\U{07}' => "\\a"
      case '\U{08}' => "\\b"
      case '\U{0C}' => "\\f"
      case '\n' => "\\n"
      case '\r' => "\\r"
      case '\t' => "\\t"
      case '\U{0B}' => "\\v"
      case _ =>
        if c < ' ' || c == '\U{7F}' then "\\x" + Hex(c as int, 2)
        else if c as int < 0x10000 then "\\u" + Hex(c as int, 4)
        else "\\U" + Hex(c as int, 8)
  }

  function EscapeAll(shown: char -> bool, s: string): string {
    if s == "" then "" else Escape(shown, s[0]) + EscapeAll(shown, s[1..])
  }

  /** strconv.Quote. */
  function Quote(shown: char -> bool, s: string): string {
    "\"" + EscapeAll(shown, s) + "\""
  }

  predicate Scalar(n: nat) {
    n < 0xD800 || 0xE000 <= n < 0x11_0000
  }

  /** A hexadecimal escape of the given width at the head of a string. */
  function HexEscape(s: string, width: nat, limit: nat): Option<(char, string)> {
    if |s| < width then None
    else
      match ParseHex(s[..width])
      case None => None
      case Some(n) => if Scalar(n) && n < limit then Some((n as char, s[width..])) else None
  }

  /** The first character of a quoted string's body, and what follows it. */
  function Unescape(s: string): Option<(char, string)>
    requires s != ""
  {
    if s[0] == '"' || s[0] == '\n' then None
    else if s[0] != '\\' then Some((s[0], s[1..]))
    else if |s| == 1 then None
    else
      match s[1]
      case 'a' => Some(('\U{07}', s[2..]))
      case 'b' => Some(('\U{08}', s[2..]))
      case 'f' => Some(('\U{0C}', s[2..]))
      case 'n' => Some(('\n', s[2..]))
      case 'r' => Some(('\r', s[2..]))
      case 't' => Some(('\t', s[2..]))
      case 'v' => Some(('\U{0B}', s[2..]))
      case '\\' => Some(('\\', s[2..]))
      case '"' => Some(('"', s[2..]))
      case 'x' => HexEscape(s[2..], 2, 0x80)
      case 'u' => HexEscape(s[2..], 4, 0x11_0000)
      case 'U' => HexEscape(s[2..], 8, 0x11_0000)
      case _ => None
  }

  lemma UnescapeShrinks(s: string)
    requires s != ""
    ensures Unescape(s).Some? ==> |Unescape(s).value.1| < |s|
  {
  }

  function UnescapeAll(s: string): Option<string>
    decreases |s|
  {
    if s == "" then Some("")
    else
      UnescapeShrinks(s);
      match Unescape(s)
      case None => None
      case Some((c, rest)) =>
        match UnescapeAll(rest)
        case None => None
        case Some(tail) => Some([c] + tail)
  }

  /** strconv.Unquote of a double-quoted string. */
  function Unquote(s: string): Option<string> {
    if |s| < 2 || s[0] != '"' || s[|s| - 1] != '"' then None else UnescapeAll(s[1..|s| - 1])
  }

  lemma HexEscapeRoundTrip(n: nat, width: nat, limit: nat, rest: string)
    requires n < Power16(width) && Scalar(n) && n < limit
    ensures HexEscape(Hex(n, width) + rest, width, limit) == Some((n as char, rest))
  {
    HexRoundTrip(n, width);
    var s := Hex(n, width) + rest;
    assert s[..width] == Hex(n, width) && s[width..] == rest;
  }

  lemma EscapeRoundTrip(shown: char -> bool, c: char, rest: string)
    ensures var s := Escape(shown, c) + rest; s != "" && Unescape(s) == Some((c, rest))
  {
    var e := Escape(shown, c);
    var s := e + rest;
    assert e != "" && s[0] == e[0];
    if |e| == 1 {
      assert s[1..] == rest;
    } else {
      assert s[1] == e[1];
      assert s[2..] == e[2..] + rest;
      if |e| > 2 {
        HexFormRoundTrip(shown, c, rest);
      }
    }
  }

  lemma HexFormRoundTrip(shown: char -> bool, c: char, rest: string)
    requires |Escape(shown, c)| > 2
    ensures Unescape(Escape(shown, c) + rest) == Some((c, rest))
  {
    hide HexEscape, Power16, Printable;
    PowersOf16();
    var e := Escape(shown, c);
    assert (e + rest)[2..] == e[2..] + rest && (e + rest)[0] == '\\';
    if e[1] == 'x' {
      assert e[2..] == Hex(c as int, 2);
      HexEscapeRoundTrip(c as int, 2, 0x80, rest);
    } else if e[1] == 'u' {
      assert e[2..] == Hex(c as int, 4);
      HexEscapeRoundTrip(c as int, 4, 0x11_0000, rest);
    } else {
      assert e[2..] == Hex(c as int, 8);
      HexEscapeRoundTrip(c as int, 8, 0x11_0000, rest);
    }
  }

  lemma PowersOf16()
    ensures Power16(2) == 0x100 && Power16(4) == 0x10000 && Power16(8) == 0x1_0000_0000
  {
  }

  lemma {:induction false} EscapeAllRoundTrip(shown: char -> bool, s: string)
    ensures UnescapeAll(EscapeAll(shown, s)) == Some(s)
  {
    if s != "" {
      EscapeAllRoundTrip(shown, s[1..]);
      EscapeRoundTrip(shown, s[0], EscapeAll(shown, s[1..]));
      assert s == [s[0]] + s[1..];
    }
  }

  /** Unquoting undoes quoting. */
  lemma QuoteRoundTrip(shown: char -> bool, s: string)
    ensures Unquote(Quote(shown, s)) == Some(s)
  {
    EscapeAllRoundTrip(shown, s);
    var q := Quote(shown, s);
    assert q[1..|q| - 1] == EscapeAll(shown, s);
  }

  /** A quoted string has no control character, and so stays on one line. */
  lemma {:induction false} QuoteHasNoBreak(shown: char -> bool, s: string)
    ensures forall c | c in EscapeAll(shown, s) :: c as int >= 0x20 && !(0x7F <= c as int <= 0x9F)
    ensures '\n' !in EscapeAll(shown, s)
  {
    if s != "" {
      QuoteHasNoBreak(shown, s[1..]);
      EscapeHasNoBreak(shown, s[0]);
    }
  }

  lemma EscapeHasNoBreak(shown: char -> bool, c: char)
    ensures forall e | e in Escape(shown, c) :: e as int >= 0x20 && !(0x7F <= e as int <= 0x9F)
  {
    HexHasNoBreak(c as int, 2);
    HexHasNoBreak(c as int, 4);
    HexHasNoBreak(c as int, 8);
  }

  lemma {:induction false} HexHasNoBreak(n: nat, width: nat)
    ensures forall e | e in Hex(n, width) :: e as int >= 0x20 && !(0x7F <= e as int <= 0x9F)
  {
    if width > 0 {
      HexHasNoBreak(n / 16, width - 1);
      HexDigitRoundTrip(n % 16);
    }
  }

  /** Plain ASCII text without quotes and backslashes is quoted as it stands. */
  lemma {:induction false} PlainTextIsKept(shown: char -> bool, s: string)
    requires forall c | c in s :: ' ' <= c <= '~' && c != '"' && c != '\\'
    ensures Quote(shown, s) == "\"" + s + "\""
  {
    PlainIsNotEscaped(shown, s);
  }

  lemma {:induction false} PlainIsNotEscaped(shown: char -> bool, s: string)
    requires forall c | c in s :: ' ' <= c <= '~' && c != '"' && c != '\\'
    ensures EscapeAll(shown, s) == s
  {
    if s != "" {
      assert s[0] in s && forall c | c in s[1..] :: c in s;
      PlainIsNotEscaped(shown, s[1..]);
      assert s == [s[0]] + s[1..];
    }
  }
}
