/**
 The chain of one-shot substitutions that fills a manifest template, against filling in all of a
 line's placeholders at once.
 */
module SedChain {
  import opened Options
  import opened Escape

  /** s|pattern|value| on a line: the leftmost match gives way to the value. */
  function Substitute(line: string, pattern: string, value: string): string
    requires pattern != []
  {
    if pattern <= line then value + line[|pattern|..]
    else if line == [] then []
    else [line[0]] + Substitute(line[1..], pattern, value)
  }

  /** Without a flag only the first match gives way. */
  lemma OnlyTheFirst(pattern: string, value: string, after: string)
    requires pattern != []
    ensures Substitute(pattern + after, pattern, value) == value + after
  {
    assert (pattern + after)[|pattern|..] == after;
  }

  predicate NameChar(c: char) {
    'A' <= c <= 'Z' || '0' <= c <= '9' || c == '_'
  }

  predicate IsName(s: string) {
    s != [] && forall i | 0 <= i < |s| :: NameChar(s[i])
  }

  function Placeholder(name: string): string {
    "@" + name + "@"
  }

  /** One -e option: the placeholder's name and the value in the replacement part. */
  datatype Edit = Edit(name: string, value: string)

  /** What the value stands for, when sed accepts it. */
  function Expansion(edit: Edit): Option<string> {
    Sed(edit.value, Placeholder(edit.name))
  }

  /** An option that sed accepts. */
  predicate Accepted(edit: Edit) {
    IsName(edit.name) && Expansion(edit).Some?
  }

  predicate AllAccepted(edits: seq<Edit>) {
    forall i | 0 <= i < |edits| :: Accepted(edits[i])
  }

  /** The chain: every option works on what the ones before it have left. */
  function Chain(line: string, edits: seq<Edit>): string
    requires AllAccepted(edits)
  {
    if edits == [] then
      line
    else
      var init, last := edits[..|edits| - 1], edits[|edits| - 1];
      Substitute(Chain(line, init), Placeholder(last.name), Expansion(last).value)
  }

  /** The pieces of a line between its @ signs. */
  function Split(line: string): (pieces: seq<string>)
    ensures pieces != []
  {
    if line == [] then [[]]
    else if line[0] == '@' then [[]] + Split(line[1..])
    else Glue([line[0]], Split(line[1..]))
  }

  /** Pieces with something more before the first. */
  function Glue(prefix: string, pieces: seq<string>): (glued: seq<string>)
    requires pieces != []
    ensures |glued| == |pieces| && glued[0] == prefix + pieces[0] && glued[1..] == pieces[1..]
  {
    [prefix + pieces[0]] + pieces[1..]
  }

  function Join(pieces: seq<string>): string
    requires pieces != []
  {
    if |pieces| == 1 then pieces[0] else pieces[0] + "@" + Join(pieces[1..])
  }

  predicate Clean(pieces: seq<string>) {
    forall i | 0 <= i < |pieces| :: '@' !in pieces[i]
  }

  lemma {:induction false} SplitJoins(line: string)
    ensures Join(Split(line)) == line && Clean(Split(line))
  {
    if line != [] {
      SplitJoins(line[1..]);
      if line[0] == '@' {
        assert Split(line)[1..] == Split(line[1..]);
      } else {
        JoinGlued([line[0]], Split(line[1..]));
      }
    }
  }

  lemma JoinGlued(prefix: string, pieces: seq<string>)
    requires pieces != []
    ensures Join(Glue(prefix, pieces)) == prefix + Join(pieces)
  {
    if |pieces| == 1 {
      assert Glue(prefix, pieces) == [prefix + pieces[0]];
    }
  }

  /** The last of the pieces and the first of the others become one. */
  function Meet(pieces: seq<string>, others: seq<string>): (met: seq<string>)
    requires pieces != [] && others != []
    ensures |met| == |pieces| + |others| - 1
  {
    pieces[..|pieces| - 1] + Glue(pieces[|pieces| - 1], others)
  }

  lemma {:induction false} JoinMet(pieces: seq<string>, others: seq<string>)
    requires pieces != [] && others != []
    ensures Join(Meet(pieces, others)) == Join(pieces) + Join(others)
  {
    if |pieces| == 1 {
      assert Meet(pieces, others) == Glue(pieces[0], others);
      JoinGlued(pieces[0], others);
    } else {
      var rest := Meet(pieces[1..], others);
      MeetRest(pieces, others);
      JoinMet(pieces[1..], others);
      assert ([pieces[0]] + rest)[1..] == rest;
      assert pieces[0] + "@" + (Join(pieces[1..]) + Join(others)) == pieces[0] + "@" + Join(pieces[1..]) + Join(others);
    }
  }

  lemma MeetRest(pieces: seq<string>, others: seq<string>)
    requires |pieces| >= 2 && others != []
    ensures Meet(pieces, others) == [pieces[0]] + Meet(pieces[1..], others)
  {
  }

  /** The first inner piece with a name makes way for a value's pieces, which join its neighbours. */
  function Fused(pieces: seq<string>, name: string, value: string): (fused: seq<string>)
    requires pieces != []
    ensures fused != []
  {
    if |pieces| < 3 then pieces
    else if pieces[1] == name then Glue(pieces[0], Meet(Split(value), pieces[2..]))
    else [pieces[0]] + Fused(pieces[1..], name, value)
  }

  lemma {:induction false} SubstituteSkips(prefix: string, rest: string, pattern: string, value: string)
    requires '@' !in prefix && pattern != [] && pattern[0] == '@'
    ensures Substitute(prefix + rest, pattern, value) == prefix + Substitute(rest, pattern, value)
  {
    if prefix == [] {
      assert prefix + rest == rest;
    } else {
      SubstituteSkips(prefix[1..], rest, pattern, value);
      assert (prefix + rest)[1..] == prefix[1..] + rest;
    }
  }

  lemma Behind(c: char, d: char, pattern: string, text: string)
    ensures [c] + pattern <= [d] + text <==> c == d && pattern <= text
  {
    assert ([d] + text)[1..] == text && ([c] + pattern)[1..] == pattern;
    assert [c] + pattern <= [d] + text ==> ([c] + pattern)[0] == ([d] + text)[0];
  }

  lemma {:induction false} Aligned(name: string, head: string, tail: string)
    requires '@' !in name && '@' !in head && (tail == [] || tail[0] == '@')
    ensures name + "@" <= head + tail <==> name == head && tail != []
  {
    if name == [] || head == [] {
      assert name + "@" <= head + tail ==> (name + "@")[0] == (head + tail)[0];
    } else {
      Aligned(name[1..], head[1..], tail);
      assert name + "@" == [name[0]] + (name[1..] + "@") && head + tail == [head[0]] + (head[1..] + tail);
      Behind(name[0], head[0], name[1..] + "@", head[1..] + tail);
      assert name == [name[0]] + name[1..] && head == [head[0]] + head[1..];
    }
  }

  /** What follows the first piece. */
  function Tail(pieces: seq<string>): (tail: string)
    requires pieces != []
    ensures Join(pieces) == pieces[0] + tail
    ensures if |pieces| == 1 then tail == [] else tail == "@" + Join(pieces[1..]) && tail[0] == '@'
  {
    if |pieces| == 1 then
      assert Join(pieces) == pieces[0] + [];
      []
    else
      assert Join(pieces) == pieces[0] + "@" + Join(pieces[1..]) == pieces[0] + ("@" + Join(pieces[1..]));
      "@" + Join(pieces[1..])
  }

  /** After an @ the placeholder stands exactly if the next piece is its name and another @ follows. */
  lemma MatchesPiece(name: string, pieces: seq<string>)
    requires '@' !in name && Clean(pieces) && pieces != []
    ensures Placeholder(name) <= "@" + Join(pieces) <==> |pieces| >= 2 && pieces[0] == name
  {
    hide Join, Placeholder, Clean;
    assert '@' !in pieces[0] by { FirstIsClean(pieces); }
    var tail := Tail(pieces);
    Aligned(name, pieces[0], tail);
    PlaceholderBehind(name, Join(pieces));
  }

  lemma FirstIsClean(pieces: seq<string>)
    requires Clean(pieces) && pieces != []
    ensures '@' !in pieces[0]
  {
  }

  lemma PlaceholderBehind(name: string, text: string)
    ensures Placeholder(name) <= "@" + text <==> name + "@" <= text
  {
    assert Placeholder(name) == ['@'] + (name + "@");
    Behind('@', '@', name + "@", text);
  }

  lemma SubstituteMatches(name: string, value: string, rest: string)
    ensures Substitute("@" + (name + ("@" + rest)), Placeholder(name), value) == value + rest
  {
    assert "@" + (name + ("@" + rest)) == Placeholder(name) + rest;
  }

  lemma SubstituteMisses(rest: string, pattern: string, value: string)
    requires pattern != [] && !(pattern <= "@" + rest)
    ensures Substitute("@" + rest, pattern, value) == "@" + Substitute(rest, pattern, value)
  {
    assert ("@" + rest)[1..] == rest;
  }

  /** A substitution in the text is one among the pieces. */
  lemma {:induction false} SubstituteFuses(pieces: seq<string>, name: string, value: string)
    requires '@' !in name && Clean(pieces) && pieces != []
    ensures Substitute(Join(pieces), Placeholder(name), value) == Join(Fused(pieces, name, value))
  {
    hide Join, Substitute, Placeholder, Split;
    var pattern := Placeholder(name);
    assert pattern != [] && pattern[0] == '@' by { PlaceholderOpens(name); }
    SubstituteSkips(pieces[0], Tail(pieces), pattern, value);
    if |pieces| == 1 {
      SubstituteEmpty(pattern, value);
    } else {
      var rest := pieces[1..];
      MatchesPiece(name, rest);
      if |rest| >= 2 && rest[0] == name {
        assert Tail(pieces) == "@" + (name + ("@" + Join(rest[1..]))) by { assert Tail(rest) == "@" + Join(rest[1..]); }
        SubstituteMatches(name, value, Join(rest[1..]));
        JoinGlued(pieces[0], Meet(Split(value), pieces[2..]));
        JoinMet(Split(value), pieces[2..]);
        SplitJoins(value);
        assert rest[1..] == pieces[2..];
      } else {
        SubstituteFuses(rest, name, value);
        SubstituteMisses(Join(rest), pattern, value);
        var fused := [pieces[0]] + Fused(rest, name, value);
        assert fused[1..] == Fused(rest, name, value);
        assert Join(fused) == pieces[0] + Tail(fused);
        assert |rest| == 1 ==> fused == pieces;
      }
    }
  }

  lemma PlaceholderOpens(name: string)
    ensures Placeholder(name) != [] && Placeholder(name)[0] == '@'
  {
  }

  lemma SubstituteEmpty(pattern: string, value: string)
    requires pattern != []
    ensures Substitute("", pattern, value) == ""
  {
  }

  /** All placeholders at once, in one pass over the pieces: of each the first occurrence. */
  function Fill(pieces: seq<string>, values: map<string, string>): (filled: seq<string>)
    requires pieces != []
    ensures filled != []
    decreases |pieces|
  {
    if |pieces| < 3 then
      pieces
    else if pieces[1] in values then
      Glue(pieces[0], Meet(Split(values[pieces[1]]), Fill(pieces[2..], values - {pieces[1]})))
    else
      [pieces[0]] + Fill(pieces[1..], values)
  }

  predicate NameAt(pieces: seq<string>, i: nat) {
    1 <= i < |pieces| - 1 && IsName(pieces[i])
  }

  predicate Inner(pieces: seq<string>, i: int) {
    1 <= i < |pieces| - 1
  }

  /** No two placeholders share an @, and none stands between two @ signs of its own. */
  predicate Untangled(pieces: seq<string>) {
    forall i: nat | i < |pieces| && NameAt(pieces, i) ::
      && !NameAt(pieces, i + 1)
      && !(Inner(pieces, i - 1) && Inner(pieces, i + 1) && pieces[i - 1] == "" && pieces[i + 1] == "")
  }

  /** At this placeholder the value's own pieces, joined to their neighbours, form no name. */
  predicate Fits(pieces: seq<string>, i: int, value: string) {
    var parts := Split(value);
    |parts| >= 2 ==>
    && (forall k | 1 <= k < |parts| - 1 :: !IsName(parts[k]))
    && (Inner(pieces, i - 1) ==> !IsName(pieces[i - 1] + parts[0]))
    && (Inner(pieces, i + 1) ==> !IsName(parts[|parts| - 1] + pieces[i + 1]))
  }

  /** Nothing is asked of a value whose placeholder is not on the line, or that has no @. */
  predicate Guarded(pieces: seq<string>, name: string, value: string) {
    forall i | 0 <= i < |pieces| && Inner(pieces, i) && pieces[i] == name :: Fits(pieces, i, value)
  }

  predicate AllGuarded(pieces: seq<string>, values: map<string, string>) {
    forall name | name in values :: IsName(name) && Guarded(pieces, name, values[name])
  }

  lemma UntangledRest(pieces: seq<string>, k: nat)
    requires Untangled(pieces) && k < |pieces|
    ensures Untangled(pieces[k..])
  {
    forall i: nat | i < |pieces[k..]| && NameAt(pieces[k..], i)
      ensures !NameAt(pieces[k..], i + 1)
      ensures !(Inner(pieces[k..], i - 1) && Inner(pieces[k..], i + 1)
        && pieces[k..][i - 1] == "" && pieces[k..][i + 1] == "")
    {
      assert NameAt(pieces, k + i);
      assert NameAt(pieces[k..], i + 1) ==> NameAt(pieces, k + i + 1);
    }
  }

  lemma GuardedRest(pieces: seq<string>, name: string, value: string, k: nat)
    requires Guarded(pieces, name, value) && k < |pieces|
    ensures Guarded(pieces[k..], name, value)
  {
    hide IsName, Split;
    forall i | 0 <= i < |pieces[k..]| && Inner(pieces[k..], i) && pieces[k..][i] == name
      ensures Fits(pieces[k..], i, value)
    {
      assert Inner(pieces, k + i) && Fits(pieces, k + i, value);
    }
  }

  lemma AllGuardedRest(pieces: seq<string>, values: map<string, string>, k: nat)
    requires AllGuarded(pieces, values) && k < |pieces|
    ensures AllGuarded(pieces[k..], values)
  {
    hide Guarded, IsName;
    forall name | name in values
      ensures Guarded(pieces[k..], name, values[name])
    {
      GuardedRest(pieces, name, values[name], k);
    }
  }

  lemma GlueTwice(first: string, second: string, pieces: seq<string>)
    requires pieces != []
    ensures Glue(first, Glue(second, pieces)) == Glue(first + second, pieces)
  {
    assert first + (second + pieces[0]) == first + second + pieces[0];
  }

  lemma FusedGlued(prefix: string, pieces: seq<string>, name: string, value: string)
    requires pieces != []
    ensures Fused(Glue(prefix, pieces), name, value) == Glue(prefix, Fused(pieces, name, value))
  {
    hide Split, Meet;
    var glued := Glue(prefix, pieces);
    if |pieces| >= 3 {
      assert glued[1..] == pieces[1..] && glued[2..] == pieces[2..];
      if pieces[1] == name {
        GlueTwice(prefix, pieces[0], Meet(Split(value), pieces[2..]));
      }
    }
  }

  /** The pieces of a value stay as they are when another placeholder after them is substituted. */
  lemma {:induction false} FusedMet(parts: seq<string>, rest: seq<string>, name: string, value: string)
    requires parts != [] && rest != []
    requires forall k | 1 <= k < |parts| - 1 :: parts[k] != name
    requires |parts| >= 2 && |rest| >= 2 ==> parts[|parts| - 1] + rest[0] != name
    ensures Fused(Meet(parts, rest), name, value) == Meet(parts, Fused(rest, name, value))
    decreases |parts|
  {
    hide Split;
    if |parts| == 1 {
      assert forall others: seq<string> | others != [] :: Meet(parts, others) == Glue(parts[0], others);
      FusedGlued(parts[0], rest, name, value);
    } else {
      var met := Meet(parts[1..], rest);
      MeetRest(parts, rest);
      MeetRest(parts, Fused(rest, name, value));
      FusedMet(parts[1..], rest, name, value);
      assert ([parts[0]] + met)[1..] == met;
      assert met[0] == if |parts| == 2 then parts[1] + rest[0] else parts[1];
    }
  }

  /** Not a name and not empty. */
  predicate Foreign(s: string) {
    exists i :: 0 <= i < |s| && !NameChar(s[i])
  }

  lemma ForeignIn(before: string, s: string, after: string)
    ensures Foreign(s) ==> Foreign(before + s + after) && Foreign(before + s) && Foreign(s + after)
    ensures IsName(s) || s == "" || Foreign(s)
    ensures Foreign(s) ==> !IsName(s)
  {
    if Foreign(s) {
      var i :| 0 <= i < |s| && !NameChar(s[i]);
      assert (before + s + after)[|before| + i] == s[i];
      assert (before + s)[|before| + i] == s[i] && (s + after)[i] == s[i];
    }
  }

  /** Filling in only adds to the first piece. */
  lemma FillHead(pieces: seq<string>, values: map<string, string>)
    requires pieces != []
    ensures pieces[0] <= Fill(pieces, values)[0]
    ensures Foreign(pieces[0]) ==> Foreign(Fill(pieces, values)[0])
  {
    hide Split, Foreign;
    var head := Fill(pieces, values)[0];
    ForeignIn("", pieces[0], head[|pieces[0]|..]);
    assert pieces[0] + head[|pieces[0]|..] == head;
  }

  /** Before a second piece that is to be filled in: no name has come into being. */
  lemma FillFront(pieces: seq<string>, values: map<string, string>)
    requires |pieces| >= 2 && Untangled(pieces) && AllGuarded(pieces, values)
    ensures var rest := Fill(pieces[1..], values);
      |rest| == 1 || rest[0] == pieces[1] || !IsName(rest[0])
    ensures IsName(pieces[1]) && |pieces| >= 3 ==>
      Fill(pieces[1..], values) == [pieces[1]] + Fill(pieces[2..], values)
  {
    hide Split, Guarded;
    var rest := pieces[1..];
    assert |rest| >= 2 ==> rest[1] == pieces[2];
    if |rest| >= 3 && rest[1] in values {
      assert NameAt(pieces, 2) && Inner(pieces, 1);
      assert !NameAt(pieces, 1);
      FilledFront(pieces, values);
    } else if |rest| >= 3 {
      assert rest[1..] == pieces[2..];
    } else if |rest| == 2 {
      assert Fill(pieces[2..], values) == [pieces[2]];
    }
  }

  lemma FilledFront(pieces: seq<string>, values: map<string, string>)
    requires |pieces| >= 4 && Untangled(pieces) && AllGuarded(pieces, values) && pieces[2] in values
    ensures var rest := Fill(pieces[1..], values); |rest| == 1 || !IsName(rest[0])
  {
    hide IsName, Foreign;
    var before, parts := pieces[1], Split(values[pieces[2]]);
    var after := Fill(pieces[3..], values - {pieces[2]});
    assert pieces[1..][2..] == pieces[3..];
    var rest := Glue(before, Meet(parts, after));
    assert Fill(pieces[1..], values) == rest;
    assert NameAt(pieces, 2);
    assert Fits(pieces, 2, values[pieces[2]]);
    ForeignIn("", before, "");
    assert !NameAt(pieces, 1);
    if |parts| >= 2 {
      assert rest[0] == before + parts[0];
    } else {
      assert rest[0] == before + (parts[0] + after[0]);
      FillHead(pieces[3..], values - {pieces[2]});
      if before != "" {
        ForeignIn("", before, parts[0] + after[0]);
        ForeignIn("", rest[0], "");
      } else if Inner(pieces, 3) {
        assert !NameAt(pieces, 3);
        ForeignIn("", pieces[3], "");
        ForeignIn(parts[0], after[0], "");
        ForeignIn("", rest[0], "");
        assert rest[0] == parts[0] + after[0];
      } else {
        assert after == pieces[3..];
      }
    }
  }

  lemma FillStep(pieces: seq<string>, values: map<string, string>)
    requires |pieces| >= 3
    ensures Fill(pieces, values) ==
      if pieces[1] in values
      then Glue(pieces[0], Meet(Split(values[pieces[1]]), Fill(pieces[2..], values - {pieces[1]})))
      else [pieces[0]] + Fill(pieces[1..], values)
  {
  }

  lemma FusedRest(before: string, rest: seq<string>, name: string, value: string)
    requires rest != [] && (|rest| == 1 || rest[0] != name)
    ensures Fused([before] + rest, name, value) == [before] + Fused(rest, name, value)
  {
    assert ([before] + rest)[1..] == rest;
  }

  lemma FusedHit(before: string, name: string, rest: seq<string>, value: string)
    requires rest != []
    ensures Fused([before, name] + rest, name, value) == Glue(before, Meet(Split(value), rest))
  {
    assert ([before, name] + rest)[2..] == rest;
  }

  /** Substituting one more placeholder after the others have been filled in. */
  lemma {:induction false} FusedFill(pieces: seq<string>, values: map<string, string>, name: string, value: string)
    requires pieces != [] && Untangled(pieces) && AllGuarded(pieces, values)
    requires IsName(name) && name !in values
    ensures Fused(Fill(pieces, values), name, value) == Fill(pieces, values[name := value])
    decreases |pieces|, 1
  {
    if |pieces| >= 3 {
      hide Untangled, AllGuarded, IsName, Fill, Fused, Split, Meet;
      if pieces[1] == name {
        FusedFillSelf(pieces, values, name, value);
      } else if pieces[1] in values {
        FusedFillHit(pieces, values, name, value);
      } else {
        FillStep(pieces, values);
        FillStep(pieces, values[name := value]);
        FillFront(pieces, values);
        UntangledRest(pieces, 1);
        AllGuardedRest(pieces, values, 1);
        FusedFill(pieces[1..], values, name, value);
        FusedRest(pieces[0], Fill(pieces[1..], values), name, value);
      }
    }
  }

  lemma FusedFillSelf(pieces: seq<string>, values: map<string, string>, name: string, value: string)
    requires |pieces| >= 3 && Untangled(pieces) && AllGuarded(pieces, values)
    requires IsName(name) && name !in values && pieces[1] == name
    ensures Fused(Fill(pieces, values), name, value) == Fill(pieces, values[name := value])
  {
    hide Untangled, AllGuarded, IsName, Fill, Fused, Split, Meet, Glue;
    var both, rest := values[name := value], Fill(pieces[2..], values);
    FillStep(pieces, values);
    FillStep(pieces, both);
    FillFront(pieces, values);
    assert both - {name} == values;
    assert Fill(pieces, both) == Glue(pieces[0], Meet(Split(value), rest));
    FusedHit(pieces[0], name, rest, value);
    assert Fill(pieces, values) == [pieces[0], name] + rest;
  }

  lemma FewerGuarded(pieces: seq<string>, values: map<string, string>, name: string)
    requires AllGuarded(pieces, values)
    ensures AllGuarded(pieces, values - {name})
  {
    hide Guarded, IsName;
  }

  lemma {:induction false} FusedFillHit(
    pieces: seq<string>, values: map<string, string>, name: string, value: string)
    requires |pieces| >= 3 && Untangled(pieces) && AllGuarded(pieces, values)
    requires IsName(name) && name !in values && pieces[1] in values
    ensures Fused(Fill(pieces, values), name, value) == Fill(pieces, values[name := value])
    decreases |pieces|, 0
  {
    hide Untangled, AllGuarded, IsName, Fill, Fused, Split, Meet;
    var both, others, parts := values[name := value], values - {pieces[1]}, Split(values[pieces[1]]);
    var rest := Fill(pieces[2..], others);
    FillStep(pieces, values);
    FillStep(pieces, both);
    assert both - {pieces[1]} == others[name := value];
    UntangledRest(pieces, 2);
    AllGuardedRest(pieces, values, 2);
    FewerGuarded(pieces[2..], values, pieces[1]);
    FusedFill(pieces[2..], others, name, value);
    PartsAreOther(pieces, values, name);
    FusedMet(parts, rest, name, value);
    FusedGlued(pieces[0], Meet(parts, rest), name, value);
  }

  /** No inner piece that a value brings is a name, joined to what follows or not. */
  lemma PartsAreOther(pieces: seq<string>, values: map<string, string>, name: string)
    requires |pieces| >= 3 && Untangled(pieces) && AllGuarded(pieces, values) && pieces[1] in values && IsName(name)
    ensures var parts, rest := Split(values[pieces[1]]), Fill(pieces[2..], values - {pieces[1]});
      && (forall k | 1 <= k < |parts| - 1 :: parts[k] != name)
      && (|parts| >= 2 && |rest| >= 2 ==> parts[|parts| - 1] + rest[0] != name)
  {
    hide Split, Fill, Foreign;
    var others, parts := values - {pieces[1]}, Split(values[pieces[1]]);
    var rest := Fill(pieces[2..], others);
    assert NameAt(pieces, 1);
    assert Fits(pieces, 1, values[pieces[1]]);
    if |parts| >= 2 && |rest| >= 2 {
      var last, next := parts[|parts| - 1], pieces[2];
      assert Inner(pieces, 2) by { LongEnough(pieces[2..], others); }
      UntangledRest(pieces, 1);
      AllGuardedRest(pieces, values, 1);
      FewerGuarded(pieces[1..], values, pieces[1]);
      FillFront(pieces[1..], others);
      assert pieces[1..][1..] == pieces[2..] && pieces[1..][1] == next;
      if rest[0] != next {
        FillHead(pieces[2..], others);
        ForeignIn("", last + next, rest[0][|next|..]);
        assert last + next + rest[0][|next|..] == last + rest[0];
        ForeignIn("", last + rest[0], "");
        ForeignIn(last, rest[0], "");
      }
    }
  }

  lemma LongEnough(pieces: seq<string>, values: map<string, string>)
    requires pieces != [] && |Fill(pieces, values)| >= 2
    ensures |pieces| >= 2
  {
  }

  /** The values of the options by their names. */
  function Values(edits: seq<Edit>): (values: map<string, string>)
    requires AllAccepted(edits)
  {
    if edits == [] then
      map[]
    else
      var last := edits[|edits| - 1];
      Values(edits[..|edits| - 1])[last.name := Expansion(last).value]
  }

  predicate Distinct(edits: seq<Edit>) {
    forall i, j | 0 <= i < j < |edits| :: edits[i].name != edits[j].name
  }

  lemma {:induction false} ValuesAre(edits: seq<Edit>)
    requires AllAccepted(edits)
    ensures forall name | name in Values(edits) :: IsName(name) && exists i | 0 <= i < |edits| :: edits[i].name == name
    ensures Distinct(edits) ==> forall i | 0 <= i < |edits| ::
      edits[i].name in Values(edits) && Values(edits)[edits[i].name] == Expansion(edits[i]).value
  {
    hide IsName, Expansion;
    if edits != [] {
      ValuesAre(edits[..|edits| - 1]);
    }
  }

  /** What each option's value asks of the line. */
  predicate LineGuarded(line: string, edits: seq<Edit>)
    requires AllAccepted(edits)
  {
    forall i | 0 <= i < |edits| :: Guarded(Split(line), edits[i].name, Expansion(edits[i]).value)
  }

  lemma ValuesGuarded(line: string, edits: seq<Edit>)
    requires AllAccepted(edits) && Distinct(edits) && LineGuarded(line, edits)
    ensures AllGuarded(Split(line), Values(edits))
  {
    hide Guarded, IsName, Expansion, Split;
    ValuesAre(edits);
    forall name | name in Values(edits)
      ensures IsName(name) && Guarded(Split(line), name, Values(edits)[name])
    {
      var i :| 0 <= i < |edits| && edits[i].name == name;
    }
  }

  lemma FillNothing(pieces: seq<string>)
    requires pieces != []
    ensures Fill(pieces, map[]) == pieces
  {
  }

  lemma MetClean(pieces: seq<string>, others: seq<string>)
    requires pieces != [] && others != [] && Clean(pieces) && Clean(others)
    ensures Clean(Meet(pieces, others))
  {
  }

  lemma {:induction false} FillClean(pieces: seq<string>, values: map<string, string>)
    requires pieces != [] && Clean(pieces)
    ensures Clean(Fill(pieces, values))
    decreases |pieces|
  {
    if |pieces| >= 3 {
      hide Split, Meet, Fill;
      FillStep(pieces, values);
      if pieces[1] in values {
        SplitJoins(values[pieces[1]]);
        FillClean(pieces[2..], values - {pieces[1]});
        MetClean(Split(values[pieces[1]]), Fill(pieces[2..], values - {pieces[1]}));
      } else {
        FillClean(pieces[1..], values);
      }
    }
  }

  /** On a line whose placeholders are not tangled the chain fills in all of them at once. */
  lemma {:induction false} ChainFills(line: string, edits: seq<Edit>)
    requires AllAccepted(edits) && Distinct(edits)
    requires Untangled(Split(line)) && LineGuarded(line, edits)
    ensures Chain(line, edits) == Join(Fill(Split(line), Values(edits)))
  {
    hide Untangled, Fill, Join, Expansion, IsName, Split, Substitute, Guarded;
    SplitJoins(line);
    if edits == [] {
      FillNothing(Split(line));
    } else {
      var init, last := edits[..|edits| - 1], edits[|edits| - 1];
      var values := Values(init);
      ChainFills(line, init);
      ValuesGuarded(line, init);
      ValuesAre(init);
      NameHasNoSign(last.name);
      FillClean(Split(line), values);
      SubstituteFuses(Fill(Split(line), values), last.name, Expansion(last).value);
      FusedFill(Split(line), values, last.name, Expansion(last).value);
    }
  }

  lemma NameHasNoSign(name: string)
    requires IsName(name)
    ensures '@' !in name
  {
  }

  /** So the order of the options does not matter. */
  lemma OrderIrrelevant(line: string, edits: seq<Edit>, others: seq<Edit>)
    requires AllAccepted(edits) && Distinct(edits) && AllAccepted(others) && Distinct(others)
    requires forall edit :: edit in edits <==> edit in others
    requires Untangled(Split(line)) && LineGuarded(line, edits)
    ensures Chain(line, edits) == Chain(line, others)
  {
    hide Untangled, Chain, Guarded, Split, Fill, Expansion;
    assert LineGuarded(line, others) by {
      forall j | 0 <= j < |others|
        ensures Guarded(Split(line), others[j].name, Expansion(others[j]).value)
      {
        assert others[j] in edits;
      }
    }
    ChainFills(line, edits);
    ChainFills(line, others);
    ValuesWithin(edits, others);
    ValuesWithin(others, edits);
    assert Values(edits) == Values(others);
  }

  lemma ValuesWithin(edits: seq<Edit>, others: seq<Edit>)
    requires AllAccepted(edits) && Distinct(edits) && AllAccepted(others) && Distinct(others)
    requires forall edit :: edit in edits ==> edit in others
    ensures forall name | name in Values(edits) ::
      name in Values(others) && Values(others)[name] == Values(edits)[name]
  {
    hide Values, Accepted, Expansion;
    ValuesAre(edits);
    ValuesAre(others);
    forall name | name in Values(edits)
      ensures name in Values(others) && Values(others)[name] == Values(edits)[name]
    {
      var i :| 0 <= i < |edits| && edits[i].name == name;
      assert edits[i] in others;
      var j :| 0 <= j < |others| && others[j] == edits[i];
    }
  }
}
