/** JSON strings as section 7 of RFC 8259 has them, and sed's replacements: every way to write a text down. */
module JsonStrings {
  import opened Options
  import opened Escape

  /** How a character is written: as itself, with a letter after a backslash, or with four digits, each of
      which may be a capital. */
  datatype Form = Itself | Short | Hex(a: bool, b: bool, c: bool, d: bool)

  function ShortLetter(c: char): Option<char> {
    match c as int
    case 0x22 => Some('"')
    case 0x5C => Some('\\')
    case 0x2F => Some('/')
    case 0x08 => Some('b')
    case 0x0C => Some('f')
    case 0x0A => Some('n')
    case 0x0D => Some('r')
    case 0x09 => Some('t')
    case other => None
  }

  predicate Allowed(c: char, form: Form) {
    match form
    case Itself => 0x20 <= c as int && c as int != 0x22 && c as int != 0x5C
    case Short => ShortLetter(c).Some?
    case Hex(_, _, _, _) => c as int < 0x10000
  }

  function Digit(n: nat, capital: bool): char
    requires n < 16
  {
    (if capital then "0123456789ABCDEF" else "0123456789abcdef")[n]
  }

  /** The four digits of a character. */
  function Digits(c: char, form: Form): (digits: string)
    requires form.Hex? && c as int < 0x10000
    ensures |digits| == 4
  {
    var code := c as int;
    [Digit(code / 4096, form.a), Digit(code / 256 % 16, form.b),
     Digit(code / 16 % 16, form.c), Digit(code % 16, form.d)]
  }

  function Shown(c: char, form: Form): string
    requires Allowed(c, form)
  {
    match form
    case Itself => [c]
    case Short => ['\\', ShortLetter(c).value]
    case Hex(_, _, _, _) => ['\\', 'u'] + Digits(c, form)
  }

  /** The forms fit the text, one for each character. */
  predicate Fitting(text: string, forms: seq<Form>) {
    |forms| == |text| && forall i | 0 <= i < |text| :: Allowed(text[i], forms[i])
  }

  function Encoded(text: string, forms: seq<Form>): string
    requires Fitting(text, forms)
  {
    if text == [] then [] else Shown(text[0], forms[0]) + Encoded(text[1..], forms[1..])
  }

  lemma DigitIsRead(n: nat, capital: bool)
    requires n < 16
    ensures HexDigit(Digit(n, capital)) == Some(n)
  {
  }

  lemma ReadIsDigit(c: char) returns (capital: bool)
    requires HexDigit(c).Some?
    ensures HexDigit(c).value < 16 && Digit(HexDigit(c).value, capital) == c
  {
    capital := 'A' <= c <= 'F';
  }

  /** Sixteens, sixteens of sixteens and so on. */
  lemma Places(a: nat, b: nat, c: nat, d: nat, code: nat)
    requires a < 16 && b < 16 && c < 16 && d < 16 && code == 4096 * a + 256 * b + 16 * c + d
    ensures code / 4096 == a && code / 256 % 16 == b && code / 16 % 16 == c && code % 16 == d && code < 0x10000
  {
    assert code / 16 == 256 * a + 16 * b + c && code / 256 == 16 * a + b;
  }

  lemma PlacesOf(code: nat)
    requires code < 0x10000
    ensures code / 4096 < 16
    ensures code == 4096 * (code / 4096) + 256 * (code / 256 % 16) + 16 * (code / 16 % 16) + code % 16
  {
    var rest := code / 16;
    assert code == 16 * rest + code % 16 && code / 256 == rest / 16 && code / 4096 == rest / 16 / 16;
    assert rest / 16 == 16 * (rest / 16 / 16) + rest / 16 % 16;
  }

  lemma DigitsAreRead(c: char, form: Form)
    requires form.Hex? && c as int < 0x10000
    ensures CodeUnit(Digits(c, form)) == Some(c)
  {
    hide HexDigit, Digit;
    var code := c as int;
    DigitIsRead(code / 4096, form.a);
    DigitIsRead(code / 256 % 16, form.b);
    DigitIsRead(code / 16 % 16, form.c);
    DigitIsRead(code % 16, form.d);
    PlacesOf(code);
  }

  lemma ReadIsDigits(digits: string) returns (form: Form)
    requires |digits| == 4 && CodeUnit(digits).Some?
    ensures form.Hex? && CodeUnit(digits).value as int < 0x10000 && Digits(CodeUnit(digits).value, form) == digits
  {
    hide HexDigit, Digit;
    var a := ReadIsDigit(digits[0]);
    var b := ReadIsDigit(digits[1]);
    var c := ReadIsDigit(digits[2]);
    var d := ReadIsDigit(digits[3]);
    form := Hex(a, b, c, d);
    var code := CodeUnit(digits).value as int;
    Places(HexDigit(digits[0]).value, HexDigit(digits[1]).value,
           HexDigit(digits[2]).value, HexDigit(digits[3]).value, code);
    assert Digits(CodeUnit(digits).value, form) == digits;
  }

  lemma ShownIsRead(c: char, form: Form, rest: string)
    requires Allowed(c, form)
    ensures Decode(Shown(c, form) + rest) == Prepend([c], Decode(rest))
  {
    hide CodeUnit, Digits;
    var json := Shown(c, form) + rest;
    match form
    case Itself => assert json[0] == c && json[1..] == rest;
    case Short => assert json[0] == '\\' && json[1] == ShortLetter(c).value && json[2..] == rest;
    case Hex(_, _, _, _) =>
      DigitsAreRead(c, form);
      assert json[0] == '\\' && json[1] == 'u' && json[2..6] == Digits(c, form) && json[6..] == rest;
  }

  lemma {:induction false} EncodedIsRead(text: string, forms: seq<Form>)
    requires Fitting(text, forms)
    ensures Decode(Encoded(text, forms)) == Some(text)
  {
    hide Decode, Shown, Allowed;
    if text == [] {
      assert Decode([]) == Some([]) by { NothingIsRead(); }
    } else {
      EncodedIsRead(text[1..], forms[1..]);
      ShownIsRead(text[0], forms[0], Encoded(text[1..], forms[1..]));
      assert [text[0]] + text[1..] == text;
    }
  }

  lemma NothingIsRead()
    ensures Decode([]) == Some([])
  {
  }

  /** What a decoded string begins with. */
  lemma FirstIsShown(json: string) returns (c: char, form: Form, n: nat)
    requires json != [] && Decode(json).Some?
    ensures 0 < n <= |json| && Allowed(c, form) && json[..n] == Shown(c, form)
    ensures Decode(json) == Prepend([c], Decode(json[n..]))
  {
    hide CodeUnit, Digits;
    if json[0] != '\\' {
      c, form, n := json[0], Itself, 1;
    } else if json[1] != 'u' {
      c, form, n := Escaped(json[1]).value, Short, 2;
    } else {
      c, n := CodeUnit(json[2..6]).value, 6;
      form := ReadIsDigits(json[2..6]);
      assert json[..6] == ['\\', 'u'] + json[2..6];
    }
  }

  lemma {:induction false} ReadIsEncoded(json: string) returns (forms: seq<Form>)
    requires Decode(json).Some?
    ensures Fitting(Decode(json).value, forms) && json == Encoded(Decode(json).value, forms)
    decreases |json|
  {
    hide Decode, Shown, Allowed;
    forms := [];
    if json == [] {
      NothingIsRead();
    } else {
      var c, form, n := FirstIsShown(json);
      var rest := ReadIsEncoded(json[n..]);
      forms := [form] + rest;
      var text := Decode(json).value;
      assert text[1..] == Decode(json[n..]).value && forms[1..] == rest;
      assert json == json[..n] + json[n..];
    }
  }

  /** A text is what a JSON string stands for exactly if the string writes it down in one of the ways that
      the standard has for each of its characters, a surrogate pair aside. */
  lemma DecodesExactly(json: string, text: string)
    ensures Decode(json) == Some(text) <==> exists forms :: Fitting(text, forms) && json == Encoded(text, forms)
  {
    hide Decode, Encoded, Fitting;
    if Decode(json) == Some(text) {
      var forms := ReadIsEncoded(json);
    }
    forall forms | Fitting(text, forms) && json == Encoded(text, forms)
      ensures Decode(json) == Some(text)
    {
      EncodedIsRead(text, forms);
    }
  }

  /** A backslash before each character that means something to sed, and a newline as the letter n. */
  function Guarded(text: string): string {
    if text == [] then []
    else
      (if text[0] == '\n' then "\\n" else if text[0] in "\\&|" then ['\\', text[0]] else [text[0]])
      + Guarded(text[1..])
  }

  /** So every text can be put in the place of a placeholder. */
  lemma {:induction false} GuardedIsItself(text: string, matched: string)
    ensures Sed(Guarded(text), matched) == Some(text)
  {
    if text != [] {
      GuardedIsItself(text[1..], matched);
      var rest := Guarded(text[1..]);
      assert if text[0] == '\n' || text[0] in "\\&|" then Guarded(text)[2..] == rest else Guarded(text)[1..] == rest;
      assert [text[0]] + text[1..] == text;
    }
  }
}
