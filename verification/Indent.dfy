/** The pretty printer of Zabbix templates: it rewrites the white space of an element tree in place. */
module Indent {
  import opened Options

  /** An element with its text, the text after it, and the elements in it. */
  datatype Tree = Tree(text: Option<string>, tail: Option<string>, children: seq<Tree>)

  /** What str.strip takes away. */
  predicate Space(c: char) {
    var n := c as int;
    || 9 <= n <= 13 || 28 <= n <= 32 || n == 0x85 || n == 0xA0 || n == 0x1680
    || 0x2000 <= n <= 0x200A || n == 0x2028 || n == 0x2029 || n == 0x202F || n == 0x205F || n == 0x3000
  }

  predicate Blank(s: Option<string>) {
    s.None? || forall i | 0 <= i < |s.value| :: Space(s.value[i])
  }

  function Spaces(level: nat): string {
    if level == 0 then "" else Spaces(level - 1) + "  "
  }

  function Line(level: nat): (line: string)
    ensures Blank(Some(line))
  {
    SpacesAreBlank(level);
    "\n" + Spaces(level)
  }

  lemma {:induction false} SpacesAreBlank(level: nat)
    ensures forall i | 0 <= i < |Spaces(level)| :: Space(Spaces(level)[i])
  {
    if level > 0 {
      SpacesAreBlank(level - 1);
    }
  }

  /** A line break and two blanks for each level. */
  lemma {:induction false} LineIs(level: nat)
    ensures |Line(level)| == 1 + 2 * level && Line(level)[0] == '\n'
    ensures forall i | 1 <= i < |Line(level)| :: Line(level)[i] == ' '
  {
    SpacesAre(level);
  }

  lemma {:induction false} SpacesAre(level: nat)
    ensures |Spaces(level)| == 2 * level && forall i | 0 <= i < |Spaces(level)| :: Spaces(level)[i] == ' '
  {
    if level > 0 {
      SpacesAre(level - 1);
    }
  }

  /** Whatever can be seen is no space, and what separates words is one. */
  lemma VisibleIsNoSpace(c: char)
    ensures '!' <= c <= '~' ==> !Space(c) && !Blank(Some([c]))
    ensures c in [' ', '\t', '\n', '\r'] ==> Space(c)
  {
    assert [c][0] == c;
  }

  /** A blank text or tail gives way to a line break and an indentation. */
  function Filled(s: Option<string>, level: nat): Option<string> {
    if Blank(s) then Some(Line(level)) else s
  }

  /** indent: the children are done first, then the last one's tail again. */
  function Indented(t: Tree, level: nat): Tree
    decreases t
  {
    if t.children == [] then
      if level > 0 then t.(tail := Filled(t.tail, level)) else t
    else
      Tree(Filled(t.text, level + 1), Filled(t.tail, level), LastRefilled(IndentedAll(t.children, level + 1), level))
  }

  function LastRefilled(ts: seq<Tree>, level: nat): (refilled: seq<Tree>)
    requires ts != []
  {
    var last := ts[|ts| - 1];
    ts[..|ts| - 1] + [last.(tail := Filled(last.tail, level))]
  }

  function IndentedAll(ts: seq<Tree>, level: nat): (done: seq<Tree>)
    ensures |done| == |ts|
    ensures forall i | 0 <= i < |ts| :: done[i] == Indented(ts[i], level)
    decreases ts
  {
    if ts == [] then [] else [Indented(ts[0], level)] + IndentedAll(ts[1..], level)
  }

  /** The same in one pass from the root: the level of an element's tail is that of what comes next,
      the following element or the end of the one it is in. */
  function Pretty(t: Tree, level: nat, next: nat): Tree
    decreases t
  {
    if t.children == [] then
      if level > 0 then t.(tail := Filled(t.tail, next)) else t
    else
      Tree(Filled(t.text, level + 1), Filled(t.tail, next), PrettyAll(t.children, level + 1))
  }

  function PrettyAll(ts: seq<Tree>, level: nat): (done: seq<Tree>)
    requires level > 0
    ensures |done| == |ts|
    decreases ts
  {
    if ts == [] then []
    else [Pretty(ts[0], level, if |ts| == 1 then level - 1 else level)] + PrettyAll(ts[1..], level)
  }

  lemma FilledTwice(s: Option<string>, a: nat, b: nat)
    ensures Filled(Filled(s, a), b) == Filled(s, b)
  {
  }

  /** Refilling the tail of an element that has been done. */
  lemma PrettyRefilled(t: Tree, level: nat, a: nat, b: nat)
    requires level > 0 || t.children != []
    ensures Pretty(t, level, a).(tail := Filled(Pretty(t, level, a).tail, b)) == Pretty(t, level, b)
  {
    FilledTwice(t.tail, a, b);
  }

  lemma {:induction false} IndentedIsPretty(t: Tree, level: nat)
    ensures Indented(t, level) == Pretty(t, level, level)
    decreases t
  {
    if t.children != [] {
      AllArePretty(t.children, level + 1);
    }
  }

  lemma {:induction false} AllArePretty(ts: seq<Tree>, level: nat)
    requires ts != [] && level > 0
    ensures LastRefilled(IndentedAll(ts, level), level - 1) == PrettyAll(ts, level)
    decreases ts
  {
    hide Filled, Pretty, Indented, LastRefilled, IndentedAll, PrettyAll;
    IndentedIsPretty(ts[0], level);
    AllStep(ts, level);
    if |ts| == 1 {
      LastIsPretty(ts[0], level);
    } else {
      AllArePretty(ts[1..], level);
      LastRefilledRest(Indented(ts[0], level), IndentedAll(ts[1..], level), level - 1);
    }
  }

  lemma AllStep(ts: seq<Tree>, level: nat)
    requires ts != [] && level > 0
    ensures IndentedAll(ts, level) == [Indented(ts[0], level)] + IndentedAll(ts[1..], level)
    ensures PrettyAll(ts, level) ==
      [Pretty(ts[0], level, if |ts| == 1 then level - 1 else level)] + PrettyAll(ts[1..], level)
    ensures |ts| == 1 ==> ts[1..] == [] && IndentedAll([], level) == [] && PrettyAll([], level) == []
  {
    hide Indented, Pretty;
  }

  lemma LastIsPretty(t: Tree, level: nat)
    requires level > 0 && Indented(t, level) == Pretty(t, level, level)
    ensures LastRefilled([Indented(t, level)] + [], level - 1) == [Pretty(t, level, level - 1)] + []
  {
    hide Filled, Pretty, Indented;
    PrettyRefilled(t, level, level, level - 1);
  }

  lemma LastRefilledRest(first: Tree, rest: seq<Tree>, level: nat)
    requires rest != []
    ensures LastRefilled([first] + rest, level) == [first] + LastRefilled(rest, level)
  {
    hide Filled;
  }

  /** For example, two leaves in an element. */
  lemma TwoLeaves(root: Tree, first: Tree, second: Tree)
    requires root.children == [first, second] && first.children == [] && second.children == []
    requires Blank(root.text) && Blank(root.tail) && Blank(first.tail) && Blank(second.tail)
    ensures Indented(root, 0) ==
      Tree(Some("\n  "), Some("\n"), [first.(tail := Some("\n  ")), second.(tail := Some("\n"))])
  {
    hide Blank;
    IndentedIsPretty(root, 0);
    assert Line(0) == "\n" && Line(1) == "\n  ";
    assert root.children[1..] == [second] && [second][1..] == [];
    assert PrettyAll([second], 1) == [Pretty(second, 1, 0)];
  }

  function Normal(s: Option<string>): Option<string> {
    if Blank(s) then None else s
  }

  /** What a tree means: the shape, all text that is not blank, and the text of elements without
      children whether blank or not. */
  function Meaning(t: Tree): Tree
    decreases t
  {
    Tree(if t.children == [] then t.text else Normal(t.text), Normal(t.tail), Meanings(t.children))
  }

  function Meanings(ts: seq<Tree>): (done: seq<Tree>)
    ensures |done| == |ts|
    decreases ts
  {
    if ts == [] then [] else [Meaning(ts[0])] + Meanings(ts[1..])
  }

  lemma {:induction false} PrettyMeans(t: Tree, level: nat, next: nat)
    ensures Meaning(Pretty(t, level, next)) == Meaning(t)
    decreases t
  {
    if t.children != [] {
      PrettyAllMean(t.children, level + 1);
    }
  }

  lemma {:induction false} PrettyAllMean(ts: seq<Tree>, level: nat)
    requires level > 0
    ensures Meanings(PrettyAll(ts, level)) == Meanings(ts)
    decreases ts
  {
    if ts != [] {
      PrettyMeans(ts[0], level, if |ts| == 1 then level - 1 else level);
      PrettyAllMean(ts[1..], level);
    }
  }

  lemma {:induction false} PrettyOfMeaning(t: Tree, level: nat, next: nat)
    requires level > 0 || t.children != []
    ensures Pretty(Meaning(t), level, next) == Pretty(t, level, next)
    decreases t
  {
    if t.children != [] {
      PrettyOfMeanings(t.children, level + 1);
    }
  }

  lemma {:induction false} PrettyOfMeanings(ts: seq<Tree>, level: nat)
    requires level > 0
    ensures PrettyAll(Meanings(ts), level) == PrettyAll(ts, level)
    decreases ts
  {
    if ts != [] {
      PrettyOfMeaning(ts[0], level, if |ts| == 1 then level - 1 else level);
      PrettyOfMeanings(ts[1..], level);
      assert Meanings(ts)[1..] == Meanings(ts[1..]);
    }
  }

  /** indent keeps what a tree means, and doing it again changes nothing. */
  lemma IndentKeepsMeaning(t: Tree, level: nat)
    ensures Meaning(Indented(t, level)) == Meaning(t)
    ensures Indented(Indented(t, level), level) == Indented(t, level)
  {
    var done := Indented(t, level);
    IndentedIsPretty(t, level);
    IndentedIsPretty(done, level);
    PrettyMeans(t, level, level);
    if level > 0 || t.children != [] {
      PrettyOfMeaning(t, level, level);
      PrettyOfMeaning(done, level, level);
    }
  }

  /** A root without children stays as it is. */
  predicate Untouched(t: Tree, level: nat) {
    level == 0 && t.children == []
  }

  /** Two trees are indented alike exactly if they mean the same: the result is a normal form. Where one
      is a root without children, exactly if they are the same. */
  lemma IndentIsNormalForm(a: Tree, b: Tree, level: nat)
    ensures Indented(a, level) == Indented(b, level) <==>
      if Untouched(a, level) || Untouched(b, level) then a == b else Meaning(a) == Meaning(b)
    ensures Untouched(a, level) ==> Indented(a, level) == a
  {
    if !Untouched(a, level) && !Untouched(b, level) {
      IndentKeepsMeaning(a, level);
      IndentKeepsMeaning(b, level);
      IndentedIsPretty(a, level);
      IndentedIsPretty(b, level);
      PrettyOfMeaning(a, level, level);
      PrettyOfMeaning(b, level, level);
    }
  }

  /** An element of the tree that is rewritten. */
  class Element {
    const children: seq<Element>
    ghost const Repr: set<Element>
    var text: Option<string>
    var tail: Option<string>

    /** The element is the root of a tree. */
    ghost predicate Valid()
      decreases Repr
    {
      && this in Repr
      && (forall i | 0 <= i < |children| ::
           children[i] in Repr && children[i].Repr < Repr && this !in children[i].Repr && children[i].Valid())
      && (forall i, j | 0 <= i < j < |children| :: children[i].Repr !! children[j].Repr)
    }

    ghost function Value(): Tree
      requires Valid()
      reads Repr
      decreases Repr, |children| + 1
    {
      Tree(text, tail, Values(|children|))
    }

    ghost function Values(n: nat): (values: seq<Tree>)
      requires Valid() && n <= |children|
      reads Repr
      ensures |values| == n && forall i | 0 <= i < n :: values[i] == children[i].Value()
      decreases Repr, n
    {
      if n == 0 then [] else Values(n - 1) + [children[n - 1].Value()]
    }

    constructor (text: Option<string>, tail: Option<string>, children: seq<Element>)
      requires forall i | 0 <= i < |children| :: children[i].Valid()
      requires forall i, j | 0 <= i < j < |children| :: children[i].Repr !! children[j].Repr
      ensures Valid() && this.children == children && this.text == text && this.tail == tail
      ensures fresh(Repr - set i, e | 0 <= i < |children| && e in children[i].Repr :: e)
    {
      this.text, this.tail, this.children := text, tail, children;
      Repr := {this} + set i, e | 0 <= i < |children| && e in children[i].Repr :: e;
    }

    method RefillText(level: nat)
      requires Valid()
      modifies this`text
      ensures Value() == old(Value()).(text := Filled(old(text), level))
    {
      hide Filled;
      text := Filled(text, level);
      assert Values(|children|) == old(Values(|children|));
    }

    method RefillTail(level: nat)
      requires Valid()
      modifies this`tail
      ensures Value() == old(Value()).(tail := Filled(old(tail), level))
    {
      hide Filled;
      tail := Filled(tail, level);
      assert Values(|children|) == old(Values(|children|));
    }

    method Indent(level: nat)
      requires Valid()
      modifies Repr
      ensures Value() == Indented(old(Value()), level)
      decreases Repr, 1
    {
      hide Filled;
      if |children| > 0 {
        ghost var was := Value();
        RefillText(level + 1);
        RefillTail(level);
        assert Value() == was.(text := Filled(was.text, level + 1), tail := Filled(was.tail, level));
        IndentChildren(level + 1);
        RefillLast(level);
      } else if level > 0 {
        RefillTail(level);
      }
    }

    method IndentChildren(level: nat)
      requires Valid()
      modifies Repr - {this}
      ensures Values(|children|) == IndentedAll(old(Values(|children|)), level)
      ensures text == old(text) && tail == old(tail)
      decreases Repr, 0
    {
      hide Indented, Value, Values;
      for i := 0 to |children|
        invariant text == old(text) && tail == old(tail)
        invariant forall j | 0 <= j < i :: children[j].Value() == Indented(old(children[j].Value()), level)
        invariant forall j | i <= j < |children| :: children[j].Value() == old(children[j].Value())
      {
        children[i].Indent(level);
      }
    }

    /** The loop variable still stands for the last child. */
    method RefillLast(level: nat)
      requires Valid() && |children| > 0
      modifies Repr - {this}
      ensures Values(|children|) == LastRefilled(old(Values(|children|)), level)
      ensures text == old(text) && tail == old(tail)
    {
      hide Filled;
      children[|children| - 1].RefillTail(level);
    }
  }
}
