/**
 * The environment file: the renderer prints overrides into a template, and the
 * Compose runner reads single values back out of the file.
 */
module DotEnv {
  import opened Common
  import opened GoStrings

  /** The reader's answer for one key. */
  datatype Reading = Value(value: string) | Missing | Empty | Malformed

  /** Characters that force quotes. */
  predicate Special(c: char) {
    Control(c) || c == '\\' || c == '"' || c == '#' || c == '$' || c == '\''
  }

  predicate NeedsQuote(value: string) {
    value == "" || Trim(value) != value || exists i :: 0 <= i < |value| && Special(value[i])
  }

  /** The loop over the characters of a value. */
  method CheckNeedsQuote(value: string) returns (needed: bool)
    ensures needed == NeedsQuote(value)
    // An empty value, a space at an end, a control character, a backslash, a quote, a hash or a dollar sign.
    ensures needed <==>
      || value == "" || Space(value[0]) || Space(value[|value| - 1])
      || (exists i :: 0 <= i < |value| && (value[i] as int < 0x20 || 0x7F <= value[i] as int <= 0x9F || value[i] in "\\\"#$'"))
  {
    TrimIsIdentityIff(value);
    needed := value == "" || Trim(value) != value;
    for k := 0 to |value|
      invariant needed || forall i | 0 <= i < k :: !Special(value[i])
      invariant needed ==> NeedsQuote(value)
      invariant !needed ==> value != "" && Trim(value) == value
    {
      if Special(value[k]) {
        return true;
      }
    }
  }

  function DoubleDollars(s: string): string {
    if s == "" then "" else (if s[0] == '$' then "$$" else [s[0]]) + DoubleDollars(s[1..])
  }

  /** escapeDotEnv. */
  function EscapeValue(shown: char -> bool, value: string): string {
    if NeedsQuote(value) then Quote(shown, DoubleDollars(value)) else value
  }

  /** The text after the first equals sign, as the reader understands it. */
  function ReadValue(text: string): Reading {
    var value := Trim(text);
    if value != "" && value[0] == '"' then
      match Unquote(value)
      case None => Malformed
      case Some(unquoted) => if unquoted == "" then Empty else Value(unquoted)
    else if value == "" then Empty
    else Value(value)
  }

  /** The line defines the key for the reader. */
  predicate Defines(line: string, key: string) {
    Cut(line, '=').Some? && Trim(Cut(line, '=').value.0) == key
  }

  /** requiredDotEnvValue over the lines of a file: the first definition counts. */
  function Read(lines: seq<string>, key: string): Reading {
    if lines == [] then Missing
    else if Defines(lines[0], key) then ReadValue(Cut(lines[0], '=').value.1)
    else Read(lines[1..], key)
  }

  method RequiredDotEnvValue(contents: string, key: string) returns (reading: Reading)
    ensures reading == Read(Split(contents, '\n'), key)
  {
    var lines := Split(contents, '\n');
    for k := 0 to |lines|
      invariant Read(lines, key) == Read(lines[k..], key)
    {
      assert lines[k..][1..] == lines[k + 1..];
      if Defines(lines[k], key) {
        return ReadValue(Cut(lines[k], '=').value.1);
      }
    }
    return Missing;
  }

  // ---------------------------------------------------------------------------------------------
  // Printing
  // ---------------------------------------------------------------------------------------------

  function Definition(shown: char -> bool, key: string, value: string): string {
    key + "=" + EscapeValue(shown, value)
  }

  /** A template line that an override replaces: a definition, not a comment. */
  predicate Overridden(line: string, overrides: map<string, string>) {
    var trimmed := Trim(line);
    trimmed != "" && trimmed[0] != '#' && Cut(line, '=').Some? && Trim(Cut(line, '=').value.0) in overrides
  }

  function KeyOf(line: string): string
    requires Cut(line, '=').Some?
  {
    Trim(Cut(line, '=').value.0)
  }

  function Rewrite(shown: char -> bool, line: string, overrides: map<string, string>): string {
    if Overridden(line, overrides) then Definition(shown, KeyOf(line), overrides[KeyOf(line)]) else line
  }

  function RewriteAll(shown: char -> bool, lines: seq<string>, overrides: map<string, string>): (r: seq<string>)
    ensures |r| == |lines|
    ensures forall i | 0 <= i < |lines| :: r[i] == Rewrite(shown, lines[i], overrides)
  {
    if lines == [] then []
    else RewriteAll(shown, lines[..|lines| - 1], overrides) + [Rewrite(shown, lines[|lines| - 1], overrides)]
  }

  function Definitions(shown: char -> bool, keys: seq<string>, overrides: map<string, string>): (r: seq<string>)
    requires forall key | key in keys :: key in overrides
    ensures |r| == |keys|
    ensures forall i | 0 <= i < |keys| :: r[i] == Definition(shown, keys[i], overrides[keys[i]])
  {
    if keys == [] then []
    else Definitions(shown, keys[..|keys| - 1], overrides)
         + [Definition(shown, keys[|keys| - 1], overrides[keys[|keys| - 1]])]
  }

  ghost predicate Seen(lines: seq<string>, overrides: map<string, string>, key: string) {
    exists i :: 0 <= i < |lines| && Overridden(lines[i], overrides) && KeyOf(lines[i]) == key
  }

  /** What a rendered file consists of: the rewritten template, then the overrides it does not mention. */
  ghost predicate Rendered(shown: char -> bool, template: seq<string>, overrides: map<string, string>, appended: seq<string>, lines: seq<string>) {
    && (forall key :: key in appended <==> key in overrides && !Seen(template, overrides, key))
    && lines == RewriteAll(shown, template, overrides) + Definitions(shown, appended, overrides)
  }

  lemma {:induction false} LinesAppend(front: seq<string>, last: string)
    ensures Lines(front + [last]) == Lines(front) + last + "\n"
  {
    if front == [] {
      assert [] + [last] == [last];
      assert Lines([last]) == last + "\n" + Lines([last][1..]);
    } else {
      LinesAppend(front[1..], last);
      assert (front + [last])[1..] == front[1..] + [last];
    }
  }

  /** First half of renderDotEnv: the template line by line. */
  method RewriteTemplate(shown: char -> bool, parts: seq<string>, overrides: map<string, string>) returns (text: string, seen: set<string>)
    ensures text == Lines(RewriteAll(shown, parts, overrides))
    ensures forall key :: key in seen <==> Seen(parts, overrides, key)
  {
    hide Seen, Trim, Cut, Definition, Lines;
    text, seen := "", {};
    NothingSeen(overrides);
    assert parts[..0] == [];
    for k := 0 to |parts|
      invariant text == Lines(RewriteAll(shown, parts[..k], overrides))
      invariant forall key :: key in seen <==> Seen(parts[..k], overrides, key)
    {
      ghost var before := RewriteAll(shown, parts[..k], overrides);
      var line := parts[k];
      SeenStep(parts, overrides, k);
      assert parts[..k + 1][..k] == parts[..k];
      if Overridden(line, overrides) {
        seen := seen + {KeyOf(line)};
        line := Definition(shown, KeyOf(line), overrides[KeyOf(line)]);
      }
      LinesAppend(before, line);
      assert RewriteAll(shown, parts[..k + 1], overrides) == before + [line];
      text := text + line + "\n";
    }
    assert parts[..|parts|] == parts;
  }

  lemma NothingSeen(overrides: map<string, string>)
    ensures forall key :: !Seen([], overrides, key)
    ensures Lines([]) == ""
  {
  }

  /** Second half: the overrides the template does not mention. */
  method AppendMissing(shown: char -> bool, front: string, ghost lines: seq<string>, overrides: map<string, string>, missing: set<string>) returns (text: string, appended: seq<string>)
    requires front == Lines(lines) && missing <= overrides.Keys
    ensures forall key :: key in appended <==> key in missing
    ensures text == Lines(lines + Definitions(shown, appended, overrides))
  {
    hide Definition, Lines;
    text, appended := front, [];
    var left := missing;
    assert lines + [] == lines;
    while left != {}
      invariant left <= missing
      invariant forall key :: key in appended <==> key in missing && key !in left
      invariant text == Lines(lines + Definitions(shown, appended, overrides))
      decreases |left|
    {
      var key :| key in left;
      var line := Definition(shown, key, overrides[key]);
      ghost var before := Definitions(shown, appended, overrides);
      var grown := appended + [key];
      LinesAppend(lines + before, line);
      assert grown[..|appended|] == appended;
      assert lines + (before + [line]) == lines + before + [line];
      text := text + line + "\n";
      appended := grown;
      left := left - {key};
    }
  }

  /** renderDotEnv. */
  method RenderDotEnv(shown: char -> bool, template: string, overrides: map<string, string>) returns (text: string, appended: seq<string>, ghost lines: seq<string>)
    ensures template == "" && overrides == map[] ==> text == ""
    ensures !(template == "" && overrides == map[]) ==>
      text == Lines(lines) && Rendered(shown, Split(template, '\n'), overrides, appended, lines)
  {
    hide Seen, Split, Lines, Definition;
    appended, lines := [], [];
    if template == "" && overrides == map[] {
      return "", [], [];
    }
    var parts := Split(template, '\n');
    var front, seen := RewriteTemplate(shown, parts, overrides);
    text, appended := AppendMissing(shown, front, RewriteAll(shown, parts, overrides), overrides, overrides.Keys - seen);
    lines := RewriteAll(shown, parts, overrides) + Definitions(shown, appended, overrides);
  }

  lemma SeenStep(lines: seq<string>, overrides: map<string, string>, k: nat)
    requires k < |lines|
    ensures forall key :: Seen(lines[..k + 1], overrides, key) <==>
      Seen(lines[..k], overrides, key) || (Overridden(lines[k], overrides) && KeyOf(lines[k]) == key)
  {
    var more, front := lines[..k + 1], lines[..k];
    forall key
      ensures Seen(more, overrides, key) <==> Seen(front, overrides, key) || (Overridden(lines[k], overrides) && KeyOf(lines[k]) == key)
    {
      if i :| 0 <= i < |front| && Overridden(front[i], overrides) && KeyOf(front[i]) == key {
        assert more[i] == front[i];
      }
      if i :| 0 <= i < |more| && Overridden(more[i], overrides) && KeyOf(more[i]) == key {
        assert i < k ==> front[i] == more[i];
      }
      assert more[k] == lines[k];
    }
  }

  // ---------------------------------------------------------------------------------------------
  // Round trip
  // ---------------------------------------------------------------------------------------------

  /** A name that can stand before the equals sign. */
  predicate Name(key: string) {
    Trim(key) == key && '=' !in key && '\n' !in key && (key != "" ==> key[0] != '#')
  }

  lemma {:induction false} DollarFree(s: string)
    ensures DoubleDollars(s) == s <==> '$' !in s
    ensures |DoubleDollars(s)| >= |s|
    ensures '$' in s ==> |DoubleDollars(s)| > |s|
  {
    if s != "" {
      DollarFree(s[1..]);
      assert s == [s[0]] + s[1..];
    }
  }

  /** What the reader makes of a printed value. */
  function Expected(value: string): Reading {
    if value == "" then Empty else Value(DoubleDollars(value))
  }

  /** Reading a printed value gives it back exactly when it is not empty and has no dollar sign. */
  lemma PrintedValueIsRead(shown: char -> bool, value: string)
    ensures ReadValue(EscapeValue(shown, value)) == Expected(value)
    ensures Expected(value) == Value(value) <==> value != "" && '$' !in value
    ensures '\n' !in EscapeValue(shown, value)
  {
    DollarFree(value);
    if NeedsQuote(value) {
      var doubled := DoubleDollars(value);
      var quoted := Quote(shown, doubled);
      QuoteRoundTrip(shown, doubled);
      QuoteHasNoBreak(shown, doubled);
      TrimIsIdentityIff(quoted);
      assert quoted[0] == '"' && quoted[|quoted| - 1] == '"';
      assert doubled == "" <==> value == "";
    } else {
      assert '$' !in value && '\n' !in value;
      assert !Special(value[0]);
    }
  }

  lemma DefinitionIsRead(shown: char -> bool, key: string, value: string)
    requires Name(key)
    ensures var line := Definition(shown, key, value);
      Defines(line, key) && ReadValue(Cut(line, '=').value.1) == Expected(value) && '\n' !in line
    ensures forall other :: Defines(Definition(shown, key, value), other) ==> other == key
  {
    PrintedValueIsRead(shown, value);
    CutAtFirst(key, '=', EscapeValue(shown, value));
  }

  /** A template line left alone defines no override. */
  lemma KeptLineDefinesNoOverride(line: string, overrides: map<string, string>, key: string)
    requires !Overridden(line, overrides) && key in overrides && Name(key)
    ensures !Defines(line, key)
  {
    if Defines(line, key) {
      CutRejoins(line, '=');
      var (before, after) := Cut(line, '=').value;
      TrimKeepsHead(before, '=', after);
    }
  }

  /** Trimming a line and trimming its part before a non-space agree on the first character. */
  lemma TrimKeepsHead(before: string, separator: char, after: string)
    requires !Space(separator)
    ensures var line := before + [separator] + after;
      Trim(line) != "" && (Trim(line)[0] == if Trim(before) == "" then separator else Trim(before)[0])
  {
    TrimLeftOfJoin(before, separator, after);
    var left := TrimLeft(before) + [separator] + after;
    TrimRightKeepsHead(left, |TrimLeft(before)|);
    TrimLeftShrinks(before);
    if TrimLeft(before) != "" {
      TrimRightKeepsHead(TrimLeft(before), 0);
    }
  }

  lemma {:induction false} TrimLeftOfJoin(before: string, separator: char, after: string)
    requires !Space(separator)
    ensures TrimLeft(before + [separator] + after) == TrimLeft(before) + [separator] + after
  {
    var s := before + [separator] + after;
    if before == "" {
      assert s[0] == separator;
    } else {
      assert s[0] == before[0] && s[1..] == before[1..] + [separator] + after;
      if Space(before[0]) {
        TrimLeftOfJoin(before[1..], separator, after);
      }
    }
  }

  /** Trimming on the right stops at the latest at a character that is no space. */
  lemma {:induction false} TrimRightKeepsHead(s: string, k: nat)
    requires k < |s| && !Space(s[k])
    ensures |TrimRight(s)| > k && TrimRight(s)[0] == s[0]
  {
    if Space(s[|s| - 1]) {
      TrimRightKeepsHead(s[..|s| - 1], k);
    }
  }

  /** When every definition of a key is the same line, that line decides. */
  lemma {:induction false} FirstDefinition(lines: seq<string>, key: string, line: string, at: nat)
    requires forall i | 0 <= i < |lines| && Defines(lines[i], key) :: lines[i] == line
    requires at < |lines| && Defines(lines[at], key)
    ensures Defines(line, key) && Read(lines, key) == ReadValue(Cut(line, '=').value.1)
  {
    if !Defines(lines[0], key) {
      FirstDefinition(lines[1..], key, line, at - 1);
    }
  }

  /** Each printed line is a template line left alone or the definition of an override. */
  lemma PrintedLine(shown: char -> bool, template: string, overrides: map<string, string>, appended: seq<string>, lines: seq<string>, i: nat)
    requires Rendered(shown, Split(template, '\n'), overrides, appended, lines) && i < |lines|
    requires forall k | k in overrides :: Name(k)
    ensures '\n' !in lines[i]
    ensures
      var parts := Split(template, '\n');
      || (i < |parts| && !Overridden(parts[i], overrides) && lines[i] == parts[i])
      || (exists k :: k in overrides && lines[i] == Definition(shown, k, overrides[k]))
  {
    var parts := Split(template, '\n');
    SplitParts(template, '\n');
    if i < |parts| {
      assert lines[i] == Rewrite(shown, parts[i], overrides);
      if Overridden(parts[i], overrides) {
        DefinitionIsRead(shown, KeyOf(parts[i]), overrides[KeyOf(parts[i])]);
      } else {
        assert parts[i] in parts;
      }
    } else {
      var k := appended[i - |parts|];
      assert k in appended && lines[i] == Definition(shown, k, overrides[k]);
      DefinitionIsRead(shown, k, overrides[k]);
    }
  }

  /** An override is printed somewhere. */
  lemma OverrideIsPrinted(shown: char -> bool, template: string, overrides: map<string, string>, appended: seq<string>, lines: seq<string>, key: string) returns (at: nat)
    requires Rendered(shown, Split(template, '\n'), overrides, appended, lines) && key in overrides
    ensures at < |lines| && lines[at] == Definition(shown, key, overrides[key])
  {
    hide Definition, Split, Trim, Cut;
    var parts := Split(template, '\n');
    if Seen(parts, overrides, key) {
      at :| 0 <= at < |parts| && Overridden(parts[at], overrides) && KeyOf(parts[at]) == key;
      assert lines[at] == Rewrite(shown, parts[at], overrides);
    } else {
      assert key in appended;
      var j :| 0 <= j < |appended| && appended[j] == key;
      at := |parts| + j;
    }
  }

  /**
   * Reading a key of the printed file: an override comes back exactly when it
   * is not empty and has no dollar sign, since the reader does not undo the
   * doubling; template lines that are not overridden stay in their places.
   */
  lemma RoundTrip(shown: char -> bool, template: string, overrides: map<string, string>, appended: seq<string>, lines: seq<string>, key: string)
    requires Rendered(shown, Split(template, '\n'), overrides, appended, lines)
    requires forall k | k in overrides :: Name(k)
    requires key in overrides
    ensures Read(Split(Lines(lines), '\n'), key) == Expected(overrides[key])
    ensures Read(Split(Lines(lines), '\n'), key) == Value(overrides[key]) <==> overrides[key] != "" && '$' !in overrides[key]
  {
    var parts, line := Split(template, '\n'), Definition(shown, key, overrides[key]);
    DefinitionIsRead(shown, key, overrides[key]);
    PrintedValueIsRead(shown, overrides[key]);
    PrintedFileSplits(shown, template, overrides, appended, lines);
    var whole := lines + [""];
    forall i | 0 <= i < |whole| && Defines(whole[i], key) ensures whole[i] == line {
      if i < |lines| {
        PrintedLine(shown, template, overrides, appended, lines, i);
        if i < |parts| && !Overridden(parts[i], overrides) && lines[i] == parts[i] {
          KeptLineDefinesNoOverride(parts[i], overrides, key);
        } else {
          var k :| k in overrides && lines[i] == Definition(shown, k, overrides[k]);
          DefinitionIsRead(shown, k, overrides[k]);
        }
      }
    }
    var at := OverrideIsPrinted(shown, template, overrides, appended, lines, key);
    FirstDefinition(whole, key, line, at);
  }

  lemma PrintedFileSplits(shown: char -> bool, template: string, overrides: map<string, string>, appended: seq<string>, lines: seq<string>)
    requires Rendered(shown, Split(template, '\n'), overrides, appended, lines)
    requires forall k | k in overrides :: Name(k)
    ensures Split(Lines(lines), '\n') == lines + [""]
    ensures
      var parts := Split(template, '\n');
      forall i | 0 <= i < |parts| && !Overridden(parts[i], overrides) :: Split(Lines(lines), '\n')[i] == parts[i]
  {
    forall i | 0 <= i < |lines| ensures '\n' !in lines[i] {
      PrintedLine(shown, template, overrides, appended, lines, i);
    }
    SplitLines(lines);
  }

  /** A key that is not overridden reads as it does in the template. */
  lemma OtherKeysUnchanged(shown: char -> bool, template: string, overrides: map<string, string>, appended: seq<string>, lines: seq<string>, key: string)
    requires Rendered(shown, Split(template, '\n'), overrides, appended, lines)
    requires forall k | k in overrides :: Name(k)
    requires key !in overrides
    ensures Read(Split(Lines(lines), '\n'), key) == Read(Split(template, '\n'), key)
  {
    hide Definition, Defines, Split, Lines, Read, Seen, Name;
    EmptyDefinesNothing(key);
    var parts := Split(template, '\n');
    PrintedFileSplits(shown, template, overrides, appended, lines);
    var rewritten, extra := RewriteAll(shown, parts, overrides), Definitions(shown, appended, overrides) + [""];
    assert lines + [""] == rewritten + extra;
    forall i | 0 <= i < |extra| ensures !Defines(extra[i], key) {
      if i < |appended| {
        assert appended[i] in appended;
        DefinitionIsRead(shown, appended[i], overrides[appended[i]]);
      }
    }
    forall i | 0 <= i < |parts| && Overridden(parts[i], overrides)
      ensures !Defines(parts[i], key) && !Defines(rewritten[i], key)
    {
      DefinesItsKey(parts[i], key);
      DefinitionIsRead(shown, KeyOf(parts[i]), overrides[KeyOf(parts[i])]);
    }
    SameReading(parts, rewritten, key);
    NoDefinitionAfter(rewritten, extra, key);
  }

  lemma EmptyDefinesNothing(key: string)
    ensures !Defines("", key)
  {
  }

  lemma DefinesItsKey(line: string, key: string)
    requires Cut(line, '=').Some?
    ensures Defines(line, key) <==> key == KeyOf(line)
  {
  }

  lemma {:induction false} SameReading(a: seq<string>, b: seq<string>, key: string)
    requires |a| == |b|
    requires forall i | 0 <= i < |a| && a[i] != b[i] :: !Defines(a[i], key) && !Defines(b[i], key)
    ensures Read(a, key) == Read(b, key)
  {
    if a != [] {
      SameReading(a[1..], b[1..], key);
    }
  }

  lemma {:induction false} NoDefinitionAfter(a: seq<string>, extra: seq<string>, key: string)
    requires forall i | 0 <= i < |extra| :: !Defines(extra[i], key)
    ensures Read(a + extra, key) == Read(a, key)
  {
    if a != [] {
      assert (a + extra)[1..] == a[1..] + extra;
      NoDefinitionAfter(a[1..], extra, key);
    } else if extra != [] {
      assert a + extra == extra;
      NoDefinitionAfter(a, extra[1..], key);
      assert a + extra[1..] == extra[1..];
    } else {
      assert a + extra == a;
    }
  }

  /** The printer and the reader together. */
  method PrintAndRead(shown: char -> bool, template: string, overrides: map<string, string>, key: string) returns (reading: Reading)
    requires forall k | k in overrides :: Name(k)
    ensures key in overrides ==> reading == Expected(overrides[key])
    ensures key in overrides ==> (reading == Value(overrides[key]) <==> overrides[key] != "" && '$' !in overrides[key])
    ensures key !in overrides && template != "" ==> reading == Read(Split(template, '\n'), key)
  {
    hide Split, Lines, Read, Expected, Rendered, Name;
    ghost var lines;
    var text, appended;
    text, appended, lines := RenderDotEnv(shown, template, overrides);
    reading := RequiredDotEnvValue(text, key);
    if key in overrides {
      RoundTrip(shown, template, overrides, appended, lines, key);
    } else if template != "" {
      OtherKeysUnchanged(shown, template, overrides, appended, lines, key);
    }
  }
}
