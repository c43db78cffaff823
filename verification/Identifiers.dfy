/** How PostgreSQL reads the texts that bootstrap.sql puts into its statements without quoting them. */
module Identifiers {
  import opened Options

  /** Beyond ASCII every character is a letter, and has no case. */
  predicate Letter(c: char) {
    'a' <= c <= 'z' || 'A' <= c <= 'Z' || c == '_' || c as int >= 128
  }

  predicate WordChar(c: char) {
    Letter(c) || '0' <= c <= '9' || c == '$'
  }

  /** An identifier that needs no quotes. */
  predicate Plain(s: string) {
    s != [] && Letter(s[0]) && forall i | 0 <= i < |s| :: WordChar(s[i])
  }

  function LowerChar(c: char): char {
    if 'A' <= c <= 'Z' then c - 'A' + 'a' else c
  }

  function Lower(s: string): (lower: string)
    ensures |lower| == |s| && forall i | 0 <= i < |s| :: lower[i] == LowerChar(s[i])
  {
    if s == [] then [] else [LowerChar(s[0])] + Lower(s[1..])
  }

  predicate OwnName(s: string) {
    Plain(s) && Lower(s) == s
  }

  /** A table that a statement can name without quotes is called so. */
  type TableName = s: string | OwnName(s) witness "t"

  /** The key words that do not stand for a name on their own. */
  predicate Keyword(s: string) {
    KeywordAToC(s) || KeywordDToI(s) || KeywordJToO(s) || KeywordPToZ(s)
  }

  predicate KeywordAToC(s: string) {
    s in {"all", "analyse", "analyze", "and", "any", "array", "as", "asc", "asymmetric", "authorization",
     "binary", "both", "case", "cast", "check", "collate", "collation", "column", "concurrently",
     "constraint", "create", "cross", "current_catalog", "current_date", "current_role",
     "current_schema", "current_time", "current_timestamp", "current_user"}
  }

  predicate KeywordDToI(s: string) {
    s in {"default", "deferrable", "desc", "distinct", "do", "else", "end", "except", "false", "fetch",
     "for", "foreign", "freeze", "from", "full", "grant", "group", "having", "ilike", "in", "initially",
     "inner", "intersect", "into", "is", "isnull"}
  }

  predicate KeywordJToO(s: string) {
    s in {"join", "lateral", "leading", "left", "like", "limit", "localtime", "localtimestamp",
     "natural", "not", "notnull", "null", "offset", "on", "only", "or", "order", "outer", "overlaps"}
  }

  predicate KeywordPToZ(s: string) {
    s in {"placing", "primary", "references", "returning", "right", "select", "session_user", "similar",
     "some", "symmetric", "table", "tablesample", "then", "to", "trailing", "true", "union", "unique",
     "user", "using", "variadic", "verbose", "when", "where", "window", "with"}
  }

  predicate White(c: char) {
    c == ' ' || c == '\t' || c == '\n' || c == '\r' || c as int == 12
  }

  function SkipWhite(s: string): (rest: string)
    ensures |rest| <= |s|
  {
    if s != [] && White(s[0]) then SkipWhite(s[1..]) else s
  }

  /** After a comment that goes on to the end of its line. */
  function SkipLine(s: string): (rest: Option<string>)
    ensures rest.Some? ==> |rest.value| < |s|
  {
    if s == [] then None else if s[0] == '\n' || s[0] == '\r' then Some(s[1..]) else SkipLine(s[1..])
  }

  /** After so many nested comments. */
  function SkipComment(s: string, depth: nat): (rest: Option<string>)
    ensures rest.Some? ==> |rest.value| <= |s|
  {
    if depth == 0 then Some(s)
    else if |s| < 2 then None
    else if s[..2] == "*/" then SkipComment(s[2..], depth - 1)
    else if s[..2] == "/*" then SkipComment(s[2..], depth + 1)
    else SkipComment(s[1..], depth)
  }

  /** From the next token on; None: a comment is not closed in the text. */
  function Skip(s: string): (rest: Option<string>)
    ensures rest.Some? ==> |rest.value| <= |s|
    decreases |s|
  {
    if s == [] then Some(s)
    else if White(s[0]) then Skip(s[1..])
    else if |s| >= 2 && s[..2] == "--" then
      var rest := SkipLine(s[2..]);
      if rest.None? then None else Skip(rest.value)
    else if |s| >= 2 && s[..2] == "/*" then
      var rest := SkipComment(s[2..], 1);
      if rest.None? then None else Skip(rest.value)
    else Some(s)
  }

  function WordEnd(s: string): (end: nat)
    ensures end <= |s| && forall i | 0 <= i < end :: WordChar(s[i])
  {
    if s != [] && WordChar(s[0]) then 1 + WordEnd(s[1..]) else 0
  }

  /** What stands before the closing quote, a doubled quote for a single one, and what after it. */
  function Unquoted(s: string): (inside: Option<(string, string)>)
    ensures inside.Some? ==> |inside.value.0| + |inside.value.1| < |s|
  {
    if s == [] then None
    else if s[0] == '"' && (|s| == 1 || s[1] != '"') then Some(([], s[1..]))
    else
      var rest := Unquoted(if s[0] == '"' then s[2..] else s[1..]);
      if rest.None? then None else Some(([s[0]] + rest.value.0, rest.value.1))
  }

  /** The first token of a text: an identifier with what follows it, no identifier, no token at all, or
      one that the text alone does not decide, as it is not closed there or has escapes. */
  datatype Head = Word(word: string, after: string) | InQuotes(name: string, after: string) | Wrong | Nothing | Unclear

  function HeadOf(s: string): Head {
    var skipped := Skip(s);
    if skipped.None? then Unclear
    else
      var rest := skipped.value;
      if rest == [] then Nothing
      else if Letter(rest[0]) then
        var end := WordEnd(rest);
        if (rest[..end] == "u" || rest[..end] == "U") && |rest| >= 3 && rest[1..3] == "&\"" then Unclear
        else Word(rest[..end], rest[end..])
      else if rest[0] != '"' then Wrong
      else
        var quoted := Unquoted(rest[1..]);
        if quoted.None? then Unclear
        else if quoted.value.0 == [] then Wrong
        else InQuotes(quoted.value.0, quoted.value.1)
  }

  /** No token follows. */
  predicate Ends(after: string) {
    Skip(after) == Some([])
  }

  /** What a text is where a statement wants a name: one name, an error for certain, or neither, as the
      text goes on with more of the statement or leaves a quote or a comment open. */
  datatype Reading = Name(value: string) | Failing | Other

  /** Between DROP TRIGGER and ON. After the name no other word than ON can follow, but IF EXISTS can
      come before it. */
  function Alone(s: string): Reading {
    match HeadOf(s)
    case Word(word, after) =>
      if Keyword(Lower(word)) then Failing
      else if Ends(after) then Name(Lower(word))
      else if Lower(word) == "if" || MayGoOn(after) then Other
      else Failing
    case InQuotes(name, after) => if Ends(after) then Name(name) else if MayGoOn(after) then Other else Failing
    case Wrong => Failing
    case Nothing => Failing
    case Unclear => Other
  }

  predicate MayGoOn(after: string) {
    var rest := Skip(after);
    rest.None? || (rest.value != [] && Letter(rest.value[0]) && Lower(rest.value[..WordEnd(rest.value)]) == "on")
  }

  /** At the end of a statement, after a schema and a dot, where key words are names too. */
  function InSchema(s: string): Reading {
    match HeadOf(s)
    case Word(word, after) => if Ends(after) then Name(Lower(word)) else Other
    case InQuotes(name, after) => if Ends(after) then Name(name) else Other
    case Wrong => Failing
    case Nothing => Other
    case Unclear => Other
  }

  /** A table's name that goes on as a child's, first of all in a cast to regclass, which knows no
      comments and takes nothing after a name but a dot. */
  function Prefixing(s: string): Reading {
    var rest := SkipWhite(s);
    if rest == [] || rest[0] == '-' || rest[0] == '/' then Other
    else if rest[0] == '"' then
      var quoted := Unquoted(rest[1..]);
      if quoted.Some? && Dotted(quoted.value.1) then Other else Failing
    else if !Letter(rest[0]) then Failing
    else
      var end := WordEnd(rest);
      if end == |rest| then Name(Lower(rest))
      else if White(rest[end]) && !Dotted(rest[end..]) then Failing
      else Other
  }

  predicate Dotted(after: string) {
    var rest := SkipWhite(after);
    rest != [] && rest[0] == '.'
  }

  /** A child's name, which also begins a constraint's: nothing may come between it and what follows. */
  function AsChild(s: string): Reading {
    match HeadOf(s)
    case Word(word, after) => if after == [] then Name(Lower(word)) else if Ends(after) then Failing else Other
    case InQuotes(name, after) => if Ends(after) then Failing else Other
    case Wrong => Failing
    case Nothing => Failing
    case Unclear => Other
  }

  /** A column's name, which also ends a constraint's: nothing may come before it. */
  function AsColumn(s: string): Reading {
    match HeadOf(s)
    case Word(word, after) =>
      if !Ends(after) then Other
      else if s == [] || !Letter(s[0]) || Keyword(Lower(word)) then Failing
      else Name(Lower(word))
    case InQuotes(name, after) => if Ends(after) then Failing else Other
    case Wrong => Other
    case Nothing => Failing
    case Unclear => Other
  }

  lemma {:induction false} WordEndOf(s: string)
    requires forall i | 0 <= i < |s| :: WordChar(s[i])
    ensures WordEnd(s) == |s|
  {
    if s != [] {
      WordEndOf(s[1..]);
    }
  }

  lemma SameLower(s: string)
    ensures Lower(s) == s <==> forall i | 0 <= i < |s| :: !('A' <= s[i] <= 'Z')
  {
    hide Lower;
    if Lower(s) == s {
      assert forall i | 0 <= i < |s| :: LowerChar(s[i]) == s[i];
    } else {
      assert exists i | 0 <= i < |s| :: LowerChar(s[i]) != s[i];
    }
  }

  lemma SmallLetters(name: string)
    requires name != [] && forall i | 0 <= i < |name| :: 'a' <= name[i] <= 'z' || name[i] == '_'
    ensures OwnName(name)
  {
    hide Lower;
    SameLower(name);
  }

  lemma SkipPlain(s: string)
    requires Plain(s)
    ensures Skip(s) == Some(s) && SkipWhite(s) == s
  {
  }

  lemma HeadOfPlain(s: string)
    requires Plain(s)
    ensures HeadOf(s) == Word(s, [])
  {
    hide Skip;
    SkipPlain(s);
    WordEndOf(s);
    assert s[..|s|] == s && s[|s|..] == [];
    assert |s| >= 3 ==> s[1..3][0] == s[1];
  }

  lemma NothingLeft()
    ensures Ends([])
  {
  }

  lemma {:induction false} SkipLineOn(s: string, more: string)
    requires SkipLine(s).Some?
    ensures SkipLine(s + more) == Some(SkipLine(s).value + more)
  {
    if s[0] == '\n' || s[0] == '\r' {
      assert (s + more)[1..] == s[1..] + more;
    } else {
      SkipLineOn(s[1..], more);
      assert (s + more)[1..] == s[1..] + more;
    }
  }

  lemma {:induction false} SkipCommentOn(s: string, depth: nat, more: string)
    requires SkipComment(s, depth).Some?
    ensures SkipComment(s + more, depth) == Some(SkipComment(s, depth).value + more)
    decreases |s|
  {
    if depth > 0 {
      assert (s + more)[..2] == s[..2] && (s + more)[2..] == s[2..] + more && (s + more)[1..] == s[1..] + more;
      if s[..2] == "*/" {
        SkipCommentOn(s[2..], depth - 1, more);
      } else if s[..2] == "/*" {
        SkipCommentOn(s[2..], depth + 1, more);
      } else {
        SkipCommentOn(s[1..], depth, more);
      }
    }
  }

  /** Blanks and closed comments before a text do not matter. */
  lemma {:induction false} SkipPadding(padding: string, s: string)
    requires Ends(padding)
    ensures Skip(padding + s) == Skip(s)
    decreases |padding|
  {
    hide SkipLine, SkipComment;
    if padding == [] {
      assert padding + s == s;
    } else if White(padding[0]) {
      SkipPadding(padding[1..], s);
      assert (padding + s)[1..] == padding[1..] + s;
    } else {
      assert (padding + s)[..2] == padding[..2] && (padding + s)[2..] == padding[2..] + s;
      if padding[..2] == "--" {
        SkipLineOn(padding[2..], s);
        SkipPadding(SkipLine(padding[2..]).value, s);
      } else {
        SkipCommentOn(padding[2..], 1, s);
        SkipPadding(SkipComment(padding[2..], 1).value, s);
      }
    }
  }

  lemma PaddingIsNoWord(padding: string)
    requires Ends(padding) && padding != []
    ensures !WordChar(padding[0]) && padding[0] != '&'
  {
  }

  lemma SkipStays(s: string)
    requires s != [] && Letter(s[0])
    ensures Skip(s) == Some(s)
  {
  }

  lemma {:induction false} WordEndBefore(s: string, after: string)
    requires (forall i | 0 <= i < |s| :: WordChar(s[i])) && (after == [] || !WordChar(after[0]))
    ensures WordEnd(s + after) == |s|
  {
    if s == [] {
      assert s + after == after;
    } else {
      WordEndBefore(s[1..], after);
      assert (s + after)[1..] == s[1..] + after;
    }
  }

  lemma HeadOfPadded(before: string, name: string, after: string)
    requires Ends(before) && Ends(after) && Plain(name)
    ensures HeadOf(before + name + after) == Word(name, after)
  {
    hide Skip, WordEnd, Unquoted;
    var text := name + after;
    assert before + name + after == before + text;
    SkipPadding(before, text);
    SkipStays(text);
    if after != [] {
      PaddingIsNoWord(after);
    }
    WordEndBefore(name, after);
    assert text[..|name|] == name && text[|name|..] == after;
    assert |text| >= 3 && |name| == 1 ==> after != [] && text[1..3][0] == after[0];
  }

  /** Blanks and closed comments around a name do not belong to it. */
  lemma AlonePadded(before: string, name: string, after: string)
    requires Ends(before) && Ends(after) && Plain(name)
    ensures Alone(before + name + after) == Alone(name) && InSchema(before + name + after) == InSchema(name)
  {
    hide Skip, HeadOf, Keyword, Lower, Ends, MayGoOn;
    HeadOfPadded(before, name, after);
    HeadOfPlain(name);
    NothingLeft();
  }

  /** QUOTE_IDENT, when it quotes. */
  function Doubled(s: string): string {
    if s == [] then [] else (if s[0] == '"' then "\"\"" else [s[0]]) + Doubled(s[1..])
  }

  function Quote(s: string): string {
    "\"" + Doubled(s) + "\""
  }

  lemma {:induction false} UnquotedDoubled(s: string)
    ensures Unquoted(Doubled(s) + "\"") == Some((s, []))
  {
    var text := Doubled(s) + "\"";
    if s == [] {
      assert text == "\"";
    } else {
      UnquotedDoubled(s[1..]);
      var rest := Doubled(s[1..]) + "\"";
      assert text == (if s[0] == '"' then "\"\"" else [s[0]]) + rest;
      assert text[if s[0] == '"' then 2 else 1..] == rest;
      assert [s[0]] + s[1..] == s;
    }
  }

  /** A name in quotes is read as it is, whatever its characters: so it would be dropped as it was made. */
  lemma QuotedIsRead(name: string)
    requires name != []
    ensures Alone(Quote(name)) == InSchema(Quote(name)) == Name(name)
  {
    hide Unquoted, Doubled;
    var rest := Doubled(name) + "\"";
    UnquotedDoubled(name);
    assert Quote(name) == "\"" + rest;
    assert Quote(name)[1..] == rest;
    assert Skip(Quote(name)) == Some(Quote(name));
    NothingLeft();
  }

  /** The ways in which a plain name is read. */
  lemma PlainIsRead(s: string)
    requires Plain(s)
    ensures Alone(s) == (if Keyword(Lower(s)) then Failing else Name(Lower(s)))
    ensures InSchema(s) == Prefixing(s) == AsChild(s) == Name(Lower(s))
    ensures AsColumn(s) == Alone(s)
  {
    hide Keyword, Lower, Skip, Unquoted, HeadOf, MayGoOn, Ends;
    HeadOfPlain(s);
    SkipPlain(s);
    WordEndOf(s);
    NothingLeft();
  }

  lemma TableIsRead(table: TableName)
    ensures InSchema(table) == Prefixing(table) == Name(table)
  {
    hide Keyword, Skip, HeadOf, InSchema, Prefixing, Lower;
    PlainIsRead(table);
  }

  lemma LowerIsPlain(word: string)
    requires word != [] && Letter(word[0]) && forall i | 0 <= i < |word| :: WordChar(word[i])
    ensures Plain(Lower(word)) && Lower(Lower(word)) == Lower(word)
  {
    hide Lower;
    SameLower(Lower(word));
  }

  lemma WordsArePlain(s: string)
    requires HeadOf(s).Word?
    ensures Plain(HeadOf(s).word)
  {
    hide Skip, Unquoted;
    var rest := Skip(s).value;
    assert WordChar(rest[0]);
  }

  lemma SkipShortens(s: string)
    ensures HeadOf(s).InQuotes? ==> |HeadOf(s).name| < |s|
  {
    hide Skip;
  }

  /** DROP TRIGGER reads a name as itself exactly if it is plain, has no capital and is no key word. */
  lemma AloneIsSelf(s: string)
    ensures Alone(s) == Name(s) <==>
      Plain(s) && !Keyword(s) && forall i | 0 <= i < |s| :: !('A' <= s[i] <= 'Z')
  {
    hide Keyword, Lower, Skip, Unquoted, HeadOf, MayGoOn, Ends;
    SameLower(s);
    if Plain(s) {
      PlainIsRead(s);
    } else if HeadOf(s).Word? {
      WordsArePlain(s);
      LowerIsPlain(HeadOf(s).word);
    } else {
      SkipShortens(s);
    }
  }

  /** No key word ends like the name of a trigger. */
  lemma KeywordsEndOtherwise(s: string)
    requires |s| >= 2 && s[|s| - 2] == 'r' && s[|s| - 1] == 't'
    ensures !Keyword(s)
  {
    hide KeywordAToC, KeywordDToI, KeywordJToO, KeywordPToZ;
    KeywordAToCEndOtherwise(s);
    KeywordDToIEndOtherwise(s);
    KeywordJToOEndOtherwise(s);
    KeywordPToZEndOtherwise(s);
  }

  lemma KeywordAToCEndOtherwise(s: string)
    requires |s| >= 2 && s[|s| - 2] == 'r' && s[|s| - 1] == 't'
    ensures !KeywordAToC(s)
  {
  }

  lemma KeywordDToIEndOtherwise(s: string)
    requires |s| >= 2 && s[|s| - 2] == 'r' && s[|s| - 1] == 't'
    ensures !KeywordDToI(s)
  {
  }

  lemma KeywordJToOEndOtherwise(s: string)
    requires |s| >= 2 && s[|s| - 2] == 'r' && s[|s| - 1] == 't'
    ensures !KeywordJToO(s)
  {
  }

  lemma KeywordPToZEndOtherwise(s: string)
    requires |s| >= 2 && s[|s| - 2] == 'r' && s[|s| - 1] == 't'
    ensures !KeywordPToZ(s)
  {
  }
}
