/**
 How a file becomes a string inside a JSON manifest: newlines, and for config.xml also quotes, are
 escaped for the replacement part of a sed command, whose result is then read as JSON.
 */
module Escape {
  import opened Options

  /** What awk prints after every record. */
  const SEPARATOR := "\\\\n"

  /** The length of the first record. */
  function RecordEnd(text: string): (end: nat)
    ensures end <= |text|
    ensures forall i | 0 <= i < end :: text[i] != '\n'
    ensures end < |text| ==> text[end] == '\n'
  {
    if text == [] || text[0] == '\n' then 0 else 1 + RecordEnd(text[1..])
  }

  /** escape_newlines: each record, whether or not a newline ends it, and the separator. */
  function EscapeNewlines(text: string): string {
    if text == [] then
      []
    else
      var end := RecordEnd(text);
      text[..end] + SEPARATOR + if end < |text| then EscapeNewlines(text[end + 1..]) else []
  }

  /** The pipe that puts two backslashes before every quote. */
  function EscapeQuotes(text: string): string {
    if text == [] then [] else (if text[0] == '"' then "\\\\\"" else [text[0]]) + EscapeQuotes(text[1..])
  }

  /** What stands in the sed command. Certificates and keys are inserted without escaping quotes. */
  function Replacement(text: string, quotes: bool): string {
    if quotes then EscapeQuotes(EscapeNewlines(text)) else EscapeNewlines(text)
  }

  /** What the replacement part of s|matched|replacement| stands for; None where the command ends
      early, refers to a group, or is otherwise not one that sed's definition gives a meaning. */
  function Sed(replacement: string, matched: string): Option<string> {
    if replacement == [] then
      Some([])
    else if replacement[0] == '\\' then
      if |replacement| == 1 then None
      else if replacement[1] == 'n' then Prepend("\n", Sed(replacement[2..], matched))
      else if replacement[1] in ['\\', '&', '|'] then Prepend([replacement[1]], Sed(replacement[2..], matched))
      else None
    else if replacement[0] == '|' || replacement[0] == '\n' then
      None
    else if replacement[0] == '&' then
      Prepend(matched, Sed(replacement[1..], matched))
    else
      Prepend([replacement[0]], Sed(replacement[1..], matched))
  }

  function Prepend(prefix: string, rest: Option<string>): Option<string> {
    if rest.None? then None else Some(prefix + rest.value)
  }

  /** The value of a JSON string, given what stands between its quotes. */
  function Decode(json: string): Option<string> {
    if json == [] then
      Some([])
    else if json[0] == '\\' then
      if |json| == 1 then None
      else if json[1] == 'u' then
        if |json| < 6 || CodeUnit(json[2..6]).None? then None
        else Prepend([CodeUnit(json[2..6]).value], Decode(json[6..]))
      else if Escaped(json[1]).None? then None
      else Prepend([Escaped(json[1]).value], Decode(json[2..]))
    else if json[0] == '"' || json[0] < ' ' then
      None
    else
      Prepend([json[0]], Decode(json[1..]))
  }

  function Escaped(c: char): Option<char> {
    if c == '"' || c == '\\' || c == '/' then Some(c)
    else if c == 'b' then Some(8 as char)
    else if c == 'f' then Some(12 as char)
    else if c == 'n' then Some('\n')
    else if c == 'r' then Some('\r')
    else if c == 't' then Some('\t')
    else None
  }

  function HexDigit(c: char): Option<nat> {
    if '0' <= c <= '9' then Some((c - '0') as nat)
    else if 'a' <= c <= 'f' then Some((c - 'a') as nat + 10)
    else if 'A' <= c <= 'F' then Some((c - 'A') as nat + 10)
    else None
  }

  /** Four hexadecimal digits, when they are not half of a surrogate pair. */
  function CodeUnit(digits: string): Option<char>
    requires |digits| == 4
  {
    var a, b, c, d := HexDigit(digits[0]), HexDigit(digits[1]), HexDigit(digits[2]), HexDigit(digits[3]);
    if a.None? || b.None? || c.None? || d.None? then None
    else
      var code := 4096 * a.value + 256 * b.value + 16 * c.value + d.value;
      if code < 0xD800 || 0xE000 <= code < 0x10000 then Some(code as char) else None
  }

  /** Every line ended by a newline, the last one too. */
  function Normal(text: string): string {
    if text == [] || text[|text| - 1] == '\n' then text else text + "\n"
  }

  /** The text as it arrives in the manifest. */
  function Arrives(text: string, quotes: bool, matched: string): Option<string> {
    var inserted := Sed(Replacement(text, quotes), matched);
    if inserted.None? then None else Decode(inserted.value)
  }

  predicate PlainChar(c: char, quotes: bool) {
    c != '\\' && c != '&' && c != '|' && (c < ' ' ==> c == '\n') && (c == '"' ==> quotes)
  }

  /** Nothing in the text that one of the layers takes for something else. */
  predicate Plain(text: string, quotes: bool) {
    forall i | 0 <= i < |text| :: PlainChar(text[i], quotes)
  }

  /** The escaping of one character. */
  function EscapeChar(c: char, quotes: bool): string {
    if c == '\n' then SEPARATOR else if c == '"' && quotes then "\\\\\"" else [c]
  }

  function EscapeEach(text: string, quotes: bool): string {
    if text == [] then [] else EscapeChar(text[0], quotes) + EscapeEach(text[1..], quotes)
  }

  lemma {:induction false} EscapeEachAppend(a: string, b: string, quotes: bool)
    ensures EscapeEach(a + b, quotes) == EscapeEach(a, quotes) + EscapeEach(b, quotes)
  {
    if a != [] {
      EscapeEachAppend(a[1..], b, quotes);
      assert (a + b)[1..] == a[1..] + b;
    } else {
      assert a + b == b;
    }
  }

  lemma {:induction false} EscapeEachPlain(text: string)
    requires forall i | 0 <= i < |text| :: text[i] != '\n'
    ensures EscapeEach(text, false) == text
  {
    if text != [] {
      EscapeEachPlain(text[1..]);
    }
  }

  lemma {:induction false} EscapeQuotesAppend(a: string, b: string)
    ensures EscapeQuotes(a + b) == EscapeQuotes(a) + EscapeQuotes(b)
  {
    if a != [] {
      EscapeQuotesAppend(a[1..], b);
      assert (a + b)[1..] == a[1..] + b;
    } else {
      assert a + b == b;
    }
  }

  lemma NormalOfRest(text: string, end: nat)
    requires end < |text| && text[end] == '\n'
    ensures Normal(text) == text[..end] + ("\n" + Normal(text[end + 1..]))
  {
  }

  lemma EscapeLine(line: string, rest: string)
    requires forall i | 0 <= i < |line| :: line[i] != '\n'
    ensures EscapeEach(line + ("\n" + rest), false) == line + SEPARATOR + EscapeEach(rest, false)
  {
    EscapeEachAppend(line, "\n" + rest, false);
    EscapeEachPlain(line);
    assert ("\n" + rest)[1..] == rest;
  }

  /** Working record by record does to every character of the normalised text the same thing. */
  lemma {:induction false} NewlinesEach(text: string)
    ensures EscapeNewlines(text) == EscapeEach(Normal(text), false)
    decreases |text|
  {
    hide EscapeEach;
    if text != [] {
      var end := RecordEnd(text);
      if end < |text| {
        hide Normal;
        NewlinesEach(text[end + 1..]);
        NormalOfRest(text, end);
        EscapeLine(text[..end], Normal(text[end + 1..]));
      } else {
        assert text[..end] == text && text + ("\n" + "") == Normal(text);
        EscapeLine(text, "");
        assert EscapeEach("", false) == "" by { EscapeEachPlain(""); }
      }
    } else {
      EscapeEachPlain("");
    }
  }

  lemma {:induction false} QuotesEach(text: string)
    ensures EscapeQuotes(EscapeEach(text, false)) == EscapeEach(text, true)
  {
    if text != [] {
      QuotesEach(text[1..]);
      EscapeQuotesAppend(EscapeChar(text[0], false), EscapeEach(text[1..], false));
      assert EscapeQuotes(EscapeChar(text[0], false)) == EscapeChar(text[0], true);
    }
  }

  lemma ReplacementEach(text: string, quotes: bool)
    ensures Replacement(text, quotes) == EscapeEach(Normal(text), quotes)
  {
    NewlinesEach(text);
    QuotesEach(Normal(text));
  }

  lemma PrependTwice(a: string, b: string, rest: Option<string>)
    ensures Prepend(a, Prepend(b, rest)) == Prepend(a + b, rest)
  {
    assert rest.Some? ==> a + (b + rest.value) == a + b + rest.value;
  }

  lemma SedSlash(rest: string, matched: string)
    ensures Sed("\\\\" + rest, matched) == Prepend("\\", Sed(rest, matched))
  {
    assert ("\\\\" + rest)[2..] == rest;
  }

  lemma SedOther(c: char, rest: string, matched: string)
    requires c != '\\'
    ensures Sed([c] + rest, matched) ==
      if c == '|' || c == '\n' then None else Prepend(if c == '&' then matched else [c], Sed(rest, matched))
  {
    assert ([c] + rest)[1..] == rest;
  }

  /** A character as the JSON file holds it. */
  function InJson(c: char, quotes: bool, matched: string): string {
    if c == '&' then matched else if c == '\n' then "\\n" else if c == '"' && quotes then "\\\"" else [c]
  }

  lemma SedStep(c: char, quotes: bool, rest: string, matched: string)
    requires c != '\\'
    ensures Sed(EscapeChar(c, quotes) + rest, matched) ==
      if c == '|' then None else Prepend(InJson(c, quotes, matched), Sed(rest, matched))
  {
    hide Sed;
    if c == '\n' || (c == '"' && quotes) {
      var last := if c == '\n' then 'n' else '"';
      assert EscapeChar(c, quotes) + rest == "\\\\" + ([last] + rest);
      SedSlash([last] + rest, matched);
      SedOther(last, rest, matched);
      PrependTwice("\\", [last], Sed(rest, matched));
      assert "\\" + [last] == InJson(c, quotes, matched);
    } else {
      SedOther(c, rest, matched);
    }
  }

  /** What sed puts for & is the placeholder itself: letters between two signs. */
  predicate Harmless(matched: string) {
    forall i | 0 <= i < |matched| :: PlainChar(matched[i], false) && matched[i] != '\n'
  }

  lemma {:induction false} DecodeHarmless(prefix: string, rest: string)
    requires Harmless(prefix)
    ensures Decode(prefix + rest) == Prepend(prefix, Decode(rest))
  {
    if prefix == [] {
      assert prefix + rest == rest;
      assert Decode(rest).Some? ==> prefix + Decode(rest).value == Decode(rest).value;
    } else {
      DecodeHarmless(prefix[1..], rest);
      assert (prefix + rest)[1..] == prefix[1..] + rest;
      PrependTwice([prefix[0]], prefix[1..], Decode(rest));
      assert [prefix[0]] + prefix[1..] == prefix;
    }
  }

  /** JSON refuses the character where it arrives. */
  predicate Refused(c: char, quotes: bool) {
    (c < ' ' && c != '\n') || (c == '"' && !quotes)
  }

  lemma DecodeStep(c: char, quotes: bool, rest: string, matched: string)
    requires c != '\\' && Harmless(matched)
    ensures Decode(InJson(c, quotes, matched) + rest) ==
      if Refused(c, quotes) then None else Prepend(if c == '&' then matched else [c], Decode(rest))
  {
    var all := InJson(c, quotes, matched) + rest;
    if c == '&' {
      DecodeHarmless(matched, rest);
    } else if c == '\n' || (c == '"' && quotes) {
      assert all[0] == '\\' && all[1] == (if c == '\n' then 'n' else '"') && all[2..] == rest;
    } else {
      assert all[0] == c && all[1..] == rest;
    }
  }

  /** The text with the placeholder in place of every &. */
  function Substituted(text: string, matched: string): string {
    if text == [] then [] else (if text[0] == '&' then matched else [text[0]]) + Substituted(text[1..], matched)
  }

  /** No character ends the sed command or is refused by JSON. */
  predicate Passes(text: string, quotes: bool) {
    forall i | 0 <= i < |text| :: text[i] != '|' && !Refused(text[i], quotes)
  }

  function Through(escaped: string, matched: string): Option<string> {
    var inserted := Sed(escaped, matched);
    if inserted.None? then None else Decode(inserted.value)
  }

  lemma ThroughStep(c: char, quotes: bool, rest: string, matched: string)
    requires c != '\\' && Harmless(matched)
    ensures Through(EscapeChar(c, quotes) + rest, matched) ==
      if c == '|' || Refused(c, quotes) then None
      else Prepend(if c == '&' then matched else [c], Through(rest, matched))
  {
    SedStep(c, quotes, rest, matched);
    if c != '|' && Sed(rest, matched).Some? {
      DecodeStep(c, quotes, Sed(rest, matched).value, matched);
    }
  }

  /** Exactly what becomes of an escaped text without backslashes. */
  lemma {:induction false} ThroughBoth(text: string, quotes: bool, matched: string)
    requires '\\' !in text && Harmless(matched)
    ensures Through(EscapeEach(text, quotes), matched) ==
      if Passes(text, quotes) then Some(Substituted(text, matched)) else None
  {
    if text != [] {
      hide Through, Refused;
      ThroughBoth(text[1..], quotes, matched);
      ThroughStep(text[0], quotes, EscapeEach(text[1..], quotes), matched);
      assert Passes(text, quotes) <==> text[0] != '|' && !Refused(text[0], quotes) && Passes(text[1..], quotes);
    }
  }

  function Slashes(text: string): nat {
    if text == [] then 0 else (if text[0] == '\\' then 1 else 0) + Slashes(text[1..])
  }

  /** The characters of a JSON string that are never written as themselves. */
  function Specials(text: string): nat {
    if text == [] then 0 else (if text[0] in ['\\', '"', '\n'] then 1 else 0) + Specials(text[1..])
  }

  lemma {:induction false} SlashesAppend(a: string, b: string)
    ensures Slashes(a + b) == Slashes(a) + Slashes(b)
  {
    if a != [] {
      SlashesAppend(a[1..], b);
      assert (a + b)[1..] == a[1..] + b;
    } else {
      assert a + b == b;
    }
  }

  lemma SlashesOfEscapedChar(c: char, quotes: bool)
    ensures Slashes(EscapeChar(c, quotes)) ==
      if c == '\n' || (c == '"' && quotes) then 2 else if c == '\\' then 1 else 0
  {
    assert Slashes("n") == 0 && Slashes("\\n") == 1 && Slashes("\"") == 0 && Slashes("\\\"") == 1;
    assert "\\\\n"[1..] == "\\n" && "\\\\\""[1..] == "\\\"";
  }

  lemma {:induction false} SlashesOfEscaped(text: string, quotes: bool)
    ensures Slashes(EscapeEach(text, quotes)) + Slashes(text) <= 2 * Specials(text)
    ensures !quotes ==> '"' in text ==> Slashes(EscapeEach(text, quotes)) + Slashes(text) < 2 * Specials(text)
  {
    if text != [] {
      SlashesOfEscaped(text[1..], quotes);
      SlashesAppend(EscapeChar(text[0], quotes), EscapeEach(text[1..], quotes));
      SlashesOfEscapedChar(text[0], quotes);
    }
  }

  /** sed uses up two backslashes for each that it leaves. */
  lemma {:induction false} SlashesOfSed(replacement: string, matched: string)
    requires Slashes(matched) == 0 && Sed(replacement, matched).Some?
    ensures 2 * Slashes(Sed(replacement, matched).value) <= Slashes(replacement)
    decreases |replacement|
  {
    if replacement != [] {
      if replacement[0] == '\\' {
        SlashesOfSed(replacement[2..], matched);
        assert replacement == replacement[..2] + replacement[2..];
        SlashesAppend(replacement[..2], replacement[2..]);
        var c := if replacement[1] == 'n' then '\n' else replacement[1];
        SlashesAppend([c], Sed(replacement[2..], matched).value);
      } else {
        SlashesOfSed(replacement[1..], matched);
        var put := if replacement[0] == '&' then matched else [replacement[0]];
        SlashesAppend(put, Sed(replacement[1..], matched).value);
      }
    }
  }

  lemma {:induction false} SpecialsAppend(a: string, b: string)
    ensures Specials(a + b) == Specials(a) + Specials(b)
  {
    if a != [] {
      SpecialsAppend(a[1..], b);
      assert (a + b)[1..] == a[1..] + b;
    } else {
      assert a + b == b;
    }
  }

  /** A JSON string spends a backslash on each of its special characters. */
  lemma {:induction false} SpecialsOfDecoded(json: string)
    requires Decode(json).Some?
    ensures Specials(Decode(json).value) <= Slashes(json)
    decreases |json|
  {
    if json != [] {
      var used := if json[0] != '\\' then 1 else if json[1] == 'u' then 6 else 2;
      SpecialsOfDecoded(json[used..]);
      var c, rest := Decode(json).value[0], Decode(json[used..]).value;
      assert Decode(json).value == [c] + rest;
      SpecialsAppend([c], rest);
      assert json == json[..used] + json[used..];
      SlashesAppend(json[..used], json[used..]);
    }
  }

  lemma {:induction false} SubstitutedSame(text: string, matched: string)
    requires Harmless(matched)
    ensures '&' !in Substituted(text, matched)
    ensures '&' !in text ==> Substituted(text, matched) == text
  {
    if text != [] {
      SubstitutedSame(text[1..], matched);
    }
  }

  lemma {:induction false} SlashesNone(text: string)
    ensures Slashes(text) == 0 <==> '\\' !in text
  {
    if text != [] {
      SlashesNone(text[1..]);
    }
  }

  /** Whatever arrives has lost a text's backslashes: each layer pays for what it decodes. */
  lemma RestoredHasNoSlash(text: string, quotes: bool, matched: string)
    requires Harmless(matched) && Through(EscapeEach(text, quotes), matched) == Some(text)
    ensures '\\' !in text
  {
    var escaped := EscapeEach(text, quotes);
    SlashesNone(matched);
    SlashesNone(text);
    SlashesOfEscaped(text, quotes);
    SlashesOfSed(escaped, matched);
    SpecialsOfDecoded(Sed(escaped, matched).value);
  }

  /** A file arrives in the manifest as it is, up to its last newline, exactly when it has neither
      a backslash, & or | nor a control character, nor a quote that is not escaped. */
  lemma ArrivesUnchanged(text: string, quotes: bool, matched: string)
    requires Harmless(matched)
    ensures Arrives(text, quotes, matched) == Some(Normal(text)) <==> Plain(text, quotes)
  {
    hide Through;
    var whole := Normal(text);
    ArrivesThrough(text, quotes, matched);
    if Arrives(text, quotes, matched) == Some(whole) {
      RestoredHasNoSlash(whole, quotes, matched);
    }
    NormalHas(text, '\\');
    if '\\' !in text {
      ThroughBoth(whole, quotes, matched);
      SubstitutedSame(whole, matched);
      PlainPasses(text, quotes);
    }
  }

  lemma ArrivesThrough(text: string, quotes: bool, matched: string)
    ensures Arrives(text, quotes, matched) == Through(EscapeEach(Normal(text), quotes), matched)
  {
    ReplacementEach(text, quotes);
  }

  lemma NormalHas(text: string, c: char)
    requires c != '\n'
    ensures c in Normal(text) <==> c in text
  {
  }

  lemma PlainPasses(text: string, quotes: bool)
    requires '\\' !in text
    ensures Plain(text, quotes) <==> Passes(Normal(text), quotes) && '&' !in Normal(text)
  {
    forall i | 0 <= i < |text|
      ensures PlainChar(text[i], quotes) <==> text[i] != '|' && !Refused(text[i], quotes) && text[i] != '&'
      ensures Normal(text)[i] == text[i]
    {
    }
  }

  /** What a text without backslashes becomes otherwise: the placeholder comes back for every &. */
  lemma ArrivesSubstituted(text: string, quotes: bool, matched: string)
    requires Harmless(matched) && '\\' !in text
    ensures Arrives(text, quotes, matched) ==
      if Passes(Normal(text), quotes) then Some(Substituted(Normal(text), matched)) else None
  {
    ArrivesThrough(text, quotes, matched);
    NormalHas(text, '\\');
    ThroughBoth(Normal(text), quotes, matched);
  }
}
