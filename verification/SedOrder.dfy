/** When the order of a chain's options matters: exactly on lines whose placeholders are tangled. */
module SedOrder {
  import opened Options
  import opened Escape
  import opened SedChain

  lemma SplitOne(value: string)
    requires '@' !in value
    ensures Split(value) == [value]
  {
    SplitPiece(value, "");
    assert value + "" == value;
  }

  function FuseAt(pieces: seq<string>, at: nat, value: string): seq<string>
    requires Inner(pieces, at)
  {
    pieces[..at - 1] + [pieces[at - 1] + value + pieces[at + 1]] + pieces[at + 2..]
  }

  lemma FusedFirst(pieces: seq<string>, name: string, value: string)
    requires |pieces| >= 3 && pieces[1] == name && '@' !in value
    ensures Fused(pieces, name, value) == FuseAt(pieces, 1, value)
  {
    hide Split, Meet;
    SplitOne(value);
    MeetOne(value, pieces[2..]);
    GlueTwice(pieces[0], value, pieces[2..]);
    assert Glue(pieces[0] + value, pieces[2..]) == [pieces[0] + value + pieces[2]] + pieces[3..];
  }

  lemma MeetOne(value: string, rest: seq<string>)
    requires rest != []
    ensures Meet([value], rest) == Glue(value, rest)
  {
  }

  lemma FusedLater(pieces: seq<string>, name: string, value: string, at: nat)
    requires |pieces| >= 3 && pieces[1] != name && Inner(pieces[1..], at)
    requires Fused(pieces[1..], name, value) == FuseAt(pieces[1..], at, value)
    ensures Fused(pieces, name, value) == FuseAt(pieces, at + 1, value)
  {
    hide Split, Meet;
    var rest := pieces[1..];
    assert rest[..at - 1] == pieces[1..at] && rest[at + 2..] == pieces[at + 3..];
    assert [pieces[0]] + pieces[1..at] == pieces[..at];
  }

  /** Where the substitution takes place; 0 for nowhere. */
  lemma {:induction false} FusedAt(pieces: seq<string>, name: string, value: string) returns (at: nat)
    requires pieces != [] && '@' !in value
    ensures forall j | 1 <= j < |pieces| - 1 && (at == 0 || j < at) :: pieces[j] != name
    ensures at == 0 ==> Fused(pieces, name, value) == pieces
    ensures at > 0 ==> Inner(pieces, at) && pieces[at] == name
    ensures at > 0 ==> Fused(pieces, name, value) == FuseAt(pieces, at, value)
  {
    hide Split, Meet, FuseAt;
    if |pieces| < 3 {
      at := 0;
    } else if pieces[1] == name {
      at := 1;
      FusedFirst(pieces, name, value);
    } else {
      at := FusedAt(pieces[1..], name, value);
      if at == 0 {
        forall j | 1 <= j < |pieces| - 1
          ensures pieces[j] != name
        {
          assert pieces[1..][j - 1] == pieces[j];
        }
      } else {
        FusedLater(pieces, name, value, at);
        at := at + 1;
        forall j | 1 <= j < at
          ensures pieces[j] != name
        {
          assert pieces[1..][j - 1] == pieces[j];
        }
      }
    }
  }

  predicate AtMostOnce(pieces: seq<string>) {
    forall i, j | 1 <= i < j < |pieces| - 1 :: IsName(pieces[i]) ==> pieces[i] != pieces[j]
  }

  lemma SplitChar(c: char, rest: string)
    requires c != '@'
    ensures Split([c] + rest) == Glue([c], Split(rest))
  {
    assert ([c] + rest)[1..] == rest;
  }

  lemma {:induction false} SplitPiece(piece: string, rest: string)
    requires '@' !in piece
    ensures Split(piece + rest) == Glue(piece, Split(rest))
  {
    if piece == [] {
      assert piece + rest == rest;
      assert Glue([], Split(rest)) == Split(rest) by { assert [] + Split(rest)[0] == Split(rest)[0]; }
    } else {
      hide Split, Glue;
      SplitPiece(piece[1..], rest);
      SplitChar(piece[0], piece[1..] + rest);
      GlueTwice([piece[0]], piece[1..], Split(rest));
      assert [piece[0]] + (piece[1..] + rest) == piece + rest && [piece[0]] + piece[1..] == piece;
    }
  }

  lemma {:induction false} SplitOfJoin(pieces: seq<string>)
    requires pieces != [] && Clean(pieces)
    ensures Split(Join(pieces)) == pieces
  {
    SplitPiece(pieces[0], Tail(pieces));
    if |pieces| == 1 {
      assert pieces[0] + [] == pieces[0];
    } else {
      SplitOfJoin(pieces[1..]);
      assert ("@" + Join(pieces[1..]))[1..] == Join(pieces[1..]);
      assert pieces[0] + [] == pieces[0];
    }
  }

  lemma {:induction false} FusedClean(pieces: seq<string>, name: string, value: string)
    requires pieces != [] && Clean(pieces)
    ensures Clean(Fused(pieces, name, value))
  {
    hide Split, Meet;
    if |pieces| >= 3 {
      if pieces[1] == name {
        SplitJoins(value);
        MetClean(Split(value), pieces[2..]);
      } else {
        FusedClean(pieces[1..], name, value);
      }
    }
  }

  lemma ChainOfTwo(line: string, first: Edit, second: Edit)
    requires Accepted(first) && Accepted(second)
    ensures Split(Chain(line, [first, second])) ==
      Fused(Fused(Split(line), first.name, Expansion(first).value), second.name, Expansion(second).value)
  {
    hide Expansion, Split, Join, Fused, IsName, Substitute, Clean;
    SplitJoins(line);
    NameHasNoSign(first.name);
    NameHasNoSign(second.name);
    var once := Fused(Split(line), first.name, Expansion(first).value);
    SubstituteFuses(Split(line), first.name, Expansion(first).value);
    FusedClean(Split(line), first.name, Expansion(first).value);
    SubstituteFuses(once, second.name, Expansion(second).value);
    FusedClean(once, second.name, Expansion(second).value);
    SplitOfJoin(Fused(once, second.name, Expansion(second).value));
    assert [first, second][..1] == [first] && [first][..0] == [];
    assert Chain(line, []) == line;
    assert Chain(line, [first]) == Join(once);
  }

  /** A value of letters, or a dot, stands for itself. */
  lemma {:induction false} SedOfLetters(value: string, matched: string)
    requires forall i | 0 <= i < |value| :: NameChar(value[i]) || value[i] == '.'
    ensures Sed(value, matched) == Some(value)
  {
    if value != [] {
      SedOfLetters(value[1..], matched);
      assert [value[0]] + value[1..] == value;
    }
  }

  lemma LettersAccepted(name: string, value: string)
    requires IsName(name) && forall i | 0 <= i < |value| :: NameChar(value[i]) || value[i] == '.'
    ensures Accepted(Edit(name, value)) && Expansion(Edit(name, value)) == Some(value)
  {
    SedOfLetters(value, Placeholder(name));
  }

  lemma FirstOfShared(pieces: seq<string>, i: nat)
    requires AtMostOnce(pieces) && NameAt(pieces, i) && NameAt(pieces, i + 1)
    ensures Fused(Fused(pieces, pieces[i], "."), pieces[i + 1], ".") == FuseAt(pieces, i, ".")
  {
    hide Fused, IsName;
    var at := FusedAt(pieces, pieces[i], ".");
    assert at == i;
    DotIsNoName(pieces[i - 1], pieces[i + 1], pieces[i + 1]);
    var later := FusedAt(FuseAt(pieces, i, "."), pieces[i + 1], ".");
    assert later == 0;
  }

  lemma SecondOfShared(pieces: seq<string>, i: nat)
    requires AtMostOnce(pieces) && NameAt(pieces, i) && NameAt(pieces, i + 1)
    ensures Fused(Fused(pieces, pieces[i + 1], "."), pieces[i], ".") == FuseAt(pieces, i + 1, ".")
  {
    hide Fused, IsName;
    var at := FusedAt(pieces, pieces[i + 1], ".");
    assert at == i + 1;
    DotIsNoName(pieces[i], pieces[i + 2], pieces[i]);
    var later := FusedAt(FuseAt(pieces, i + 1, "."), pieces[i], ".");
    assert later == 0;
  }

  /** Of two placeholders that share an @, whichever is filled in first takes it from the other. */
  lemma SharedSign(pieces: seq<string>, i: nat)
    requires AtMostOnce(pieces) && NameAt(pieces, i) && NameAt(pieces, i + 1)
    ensures var a, b := pieces[i], pieces[i + 1];
      a != b && Fused(Fused(pieces, a, "."), b, ".") != Fused(Fused(pieces, b, "."), a, ".")
  {
    hide Fused;
    FirstOfShared(pieces, i);
    SecondOfShared(pieces, i);
    assert |FuseAt(pieces, i, ".")[i - 1]| != |FuseAt(pieces, i + 1, ".")[i - 1]|;
  }

  lemma DotIsNoName(before: string, after: string, name: string)
    requires IsName(name)
    ensures before + "." + after != name
  {
    assert '.' !in name;
    assert (before + "." + after)[|before|] == '.';
  }

  lemma {:induction false} PieceIsShort(pieces: seq<string>, i: nat)
    requires i < |pieces|
    ensures |pieces[i]| <= |Join(pieces)|
  {
    if i > 0 {
      PieceIsShort(pieces[1..], i - 1);
    }
  }

  /** A placeholder between two more @ signs: its value can become a name. */
  lemma LooseSigns(pieces: seq<string>, i: nat, novel: string)
    requires AtMostOnce(pieces) && NameAt(pieces, i) && Inner(pieces, i - 1) && Inner(pieces, i + 1)
    requires pieces[i - 1] == "" && pieces[i + 1] == "" && novel !in pieces && '@' !in novel
    ensures Fused(Fused(pieces, pieces[i], novel), novel, ".") != Fused(Fused(pieces, novel, "."), pieces[i], novel)
  {
    var at := FusedAt(pieces, pieces[i], novel);
    assert at == i;
    var filled := FuseAt(pieces, i, novel);
    assert filled[i - 1] == novel && Inner(filled, i - 1);
    var again := FusedAt(filled, novel, ".");
    assert again > 0;
    var nowhere := FusedAt(pieces, novel, ".");
    assert nowhere == 0;
  }

  /** Two options whose order matters when two placeholders share an @. */
  lemma OrderMattersShared(line: string, i: nat) returns (one: Edit, other: Edit)
    requires AtMostOnce(Split(line)) && NameAt(Split(line), i) && NameAt(Split(line), i + 1)
    ensures Accepted(one) && Accepted(other) && one.name != other.name && Tame(one) && Tame(other)
    ensures Chain(line, [one, other]) != Chain(line, [other, one])
  {
    hide Fused, Expansion, Chain, Split, AtMostOnce;
    var pieces := Split(line);
    one, other := Edit(pieces[i], "."), Edit(pieces[i + 1], ".");
    SharedSign(pieces, i);
    LettersAccepted(one.name, one.value);
    LettersAccepted(other.name, other.value);
    PlainIsTame(one);
    PlainIsTame(other);
    ChainOfTwo(line, one, other);
    ChainOfTwo(line, other, one);
  }

  /** A name that the line does not have. */
  lemma NovelName(line: string) returns (name: string)
    ensures IsName(name) && name !in Split(line)
  {
    name := seq(|line| + 1, _ => 'A');
    SplitJoins(line);
    forall k | 0 <= k < |Split(line)|
      ensures Split(line)[k] != name
    {
      PieceIsShort(Split(line), k);
    }
  }

  lemma OrderMattersLoose(line: string, i: nat) returns (one: Edit, other: Edit)
    requires AtMostOnce(Split(line)) && NameAt(Split(line), i)
    requires Inner(Split(line), i - 1) && Inner(Split(line), i + 1)
    requires Split(line)[i - 1] == "" && Split(line)[i + 1] == ""
    ensures Accepted(one) && Accepted(other) && one.name != other.name && Tame(one) && Tame(other)
    ensures Chain(line, [one, other]) != Chain(line, [other, one])
  {
    hide Fused, Expansion, Chain, Split, AtMostOnce;
    var pieces := Split(line);
    var novel := NovelName(line);
    one, other := Edit(pieces[i], novel), Edit(novel, ".");
    NameHasNoSign(novel);
    LooseSigns(pieces, i, novel);
    LettersAccepted(one.name, one.value);
    LettersAccepted(other.name, other.value);
    PlainIsTame(one);
    PlainIsTame(other);
    ChainOfTwo(line, one, other);
    ChainOfTwo(line, other, one);
  }

  /** In every other case there are two options whose order does matter. */
  lemma OrderMatters(line: string) returns (one: Edit, other: Edit)
    requires AtMostOnce(Split(line)) && !Untangled(Split(line))
    ensures Accepted(one) && Accepted(other) && one.name != other.name && Tame(one) && Tame(other)
    ensures Chain(line, [one, other]) != Chain(line, [other, one])
  {
    hide Accepted, Chain, Split, AtMostOnce;
    var pieces := Split(line);
    var i: nat :| i < |pieces| && NameAt(pieces, i) && (NameAt(pieces, i + 1)
      || (Inner(pieces, i - 1) && Inner(pieces, i + 1) && pieces[i - 1] == "" && pieces[i + 1] == ""));
    if NameAt(pieces, i + 1) {
      one, other := OrderMattersShared(line, i);
    } else {
      one, other := OrderMattersLoose(line, i);
    }
  }

  /** A value without @, or of whose pieces between its @ signs none is a name: an address in small
      letters, for example. */
  predicate Tame(edit: Edit)
    requires Accepted(edit)
  {
    var parts := Split(Expansion(edit).value);
    |parts| >= 2 ==> forall k | 0 <= k < |parts| :: !IsName(parts[k])
  }

  lemma TameFits(pieces: seq<string>, edit: Edit)
    requires Untangled(pieces) && Accepted(edit) && Tame(edit)
    ensures Guarded(pieces, edit.name, Expansion(edit).value)
  {
    hide Expansion, Split, IsName, Foreign;
    var parts := Split(Expansion(edit).value);
    forall i | 0 <= i < |pieces| && Inner(pieces, i) && pieces[i] == edit.name
      ensures Fits(pieces, i, Expansion(edit).value)
    {
      assert NameAt(pieces, i);
      if |parts| >= 2 {
        if Inner(pieces, i - 1) {
          assert !NameAt(pieces, i - 1);
          NoNames(pieces[i - 1], parts[0]);
        }
        if Inner(pieces, i + 1) {
          assert !NameAt(pieces, i + 1);
          NoNames(parts[|parts| - 1], pieces[i + 1]);
        }
      }
    }
  }

  lemma NoNames(a: string, b: string)
    requires !IsName(a) && !IsName(b)
    ensures !IsName(a + b)
  {
    ForeignIn("", a, b);
    ForeignIn(a, b, "");
    ForeignIn("", a + b, "");
  }

  /** An e-mail address is tame when neither side of its @ looks like a name. */
  lemma AddressIsTame(name: string, user: string, host: string)
    requires IsName(name) && '@' !in user && '@' !in host && !IsName(user) && !IsName(host)
    requires forall c | c in user || c in host :: c !in ['\\', '&', '|', '\n']
    ensures var edit := Edit(name, user + "@" + host); Accepted(edit) && Tame(edit)
  {
    hide IsName, Sed;
    var address := user + "@" + host;
    SedOfOrdinary(address, Placeholder(name));
    SplitPiece(user, "@" + host);
    assert address == user + ("@" + host);
    SplitOne(host);
    assert ("@" + host)[1..] == host;
    assert Split("@" + host) == ["", host];
    assert user + "" == user;
    assert Split(address) == [user, host];
  }

  /** The default sender of the monitoring's messages. */
  lemma DefaultSenderIsTame(name: string)
    requires IsName(name)
    ensures Accepted(Edit(name, "zabbix@mon01.local")) && Tame(Edit(name, "zabbix@mon01.local"))
  {
    hide Sed, Split;
    var user, host := "zabbix", "mon01.local";
    assert !NameChar(user[0]) && !NameChar(host[0]);
    assert user + "@" + host == "zabbix@mon01.local";
    AddressIsTame(name, user, host);
  }

  lemma {:induction false} SedOfOrdinary(value: string, matched: string)
    requires forall i | 0 <= i < |value| :: value[i] !in ['\\', '&', '|', '\n']
    ensures Sed(value, matched) == Some(value)
  {
    if value != [] {
      SedOfOrdinary(value[1..], matched);
      assert [value[0]] + value[1..] == value;
    }
  }

  lemma PlainIsTame(edit: Edit)
    requires Accepted(edit) && '@' !in Expansion(edit).value
    ensures Tame(edit)
  {
    SplitOne(Expansion(edit).value);
  }

  /** The order of the options is irrelevant exactly on lines whose placeholders are not tangled. */
  lemma IrrelevantUnlessTangled(line: string)
    requires AtMostOnce(Split(line))
    ensures Untangled(Split(line)) <==>
      forall one: Edit, other: Edit | Accepted(one) && Accepted(other) && one.name != other.name
        && Tame(one) && Tame(other) :: Chain(line, [one, other]) == Chain(line, [other, one])
  {
    hide Chain, Accepted, Untangled, Tame, Expansion, Guarded, Split;
    if Untangled(Split(line)) {
      forall one: Edit, other: Edit | Accepted(one) && Accepted(other) && one.name != other.name
        && Tame(one) && Tame(other)
        ensures Chain(line, [one, other]) == Chain(line, [other, one])
      {
        TameIrrelevant(line, one, other);
      }
    } else {
      var one, other := OrderMatters(line);
    }
  }

  lemma TameIrrelevant(line: string, one: Edit, other: Edit)
    requires Untangled(Split(line)) && one.name != other.name
    requires Accepted(one) && Accepted(other) && Tame(one) && Tame(other)
    ensures Chain(line, [one, other]) == Chain(line, [other, one])
  {
    hide Tame, Expansion, Guarded, Split, Chain, Untangled;
    TameFits(Split(line), one);
    TameFits(Split(line), other);
    OrderIrrelevant(line, [one, other], [other, one]);
  }

  /** A line on which a value with a name among its pieces makes the order matter. */
  function Trap(name: string, first: bool, last: bool): seq<string> {
    (if first then [""] else []) + ["", name, ""] + (if last then [""] else [])
  }

  lemma TrapIsTidy(name: string, first: bool, last: bool)
    requires IsName(name) && !(first && last)
    ensures var line := Join(Trap(name, first, last));
      Split(line) == Trap(name, first, last) && Untangled(Split(line)) && AtMostOnce(Split(line))
  {
    NameHasNoSign(name);
    SplitOfJoin(Trap(name, first, last));
  }

  lemma TrapFused(name: string, first: bool, last: bool, value: string)
    requires IsName(name)
    ensures Fused(Trap(name, first, last), name, value) ==
      (if first then [""] else []) + Split(value) + (if last then [""] else [])
  {
    hide Split, IsName;
    var parts, end := Split(value), if last then ["", ""] else [""];
    assert name != "" by { assert IsName(name); NameNotEmpty(name); }
    assert parts[|parts| - 1] + "" == parts[|parts| - 1];
    assert Meet(parts, end) == parts + end[1..];
    assert Glue("", Meet(parts, end)) == Meet(parts, end) by {
      assert "" + Meet(parts, end)[0] == Meet(parts, end)[0];
    }
    var inner := ["", name] + end;
    assert inner[2..] == end;
    assert Fused(inner, name, value) == parts + end[1..];
    if first {
      assert Trap(name, first, last) == [""] + inner;
      FusedRest("", inner, name, value);
    } else {
      assert Trap(name, first, last) == inner;
    }
  }

  lemma NameNotEmpty(name: string)
    requires IsName(name)
    ensures name != ""
  {
  }

  /** With a value that brings another placeholder's name between @ signs the order can matter even
      where nothing is tangled. */
  lemma WildMatters(edit: Edit, k: nat) returns (line: string, other: Edit)
    requires Accepted(edit)
    requires var parts := Split(Expansion(edit).value);
      |parts| >= 2 && k < |parts| && IsName(parts[k]) && parts[k] != edit.name
    ensures Untangled(Split(line)) && AtMostOnce(Split(line))
    ensures Accepted(other) && Tame(other) && other.name != edit.name
    ensures Chain(line, [edit, other]) != Chain(line, [other, edit])
  {
    hide Expansion, Split, Chain, Fused, Untangled, AtMostOnce;
    var value := Expansion(edit).value;
    var parts := Split(value);
    var first, last := k == 0, k == |parts| - 1;
    var pieces := Trap(edit.name, first, last);
    line, other := Join(pieces), Edit(parts[k], ".");
    TrapIsTidy(edit.name, first, last);
    LettersAccepted(parts[k], ".");
    PlainIsTame(other);
    TrapFused(edit.name, first, last, value);
    var filled := Fused(pieces, edit.name, value);
    assert filled[if first then k + 1 else k] == parts[k] && Inner(filled, if first then k + 1 else k);
    var at := FusedAt(filled, parts[k], ".");
    NameNotEmpty(parts[k]);
    var nowhere := FusedAt(pieces, parts[k], ".");
    assert nowhere == 0;
    ChainOfTwo(line, edit, other);
    ChainOfTwo(line, other, edit);
  }
}
