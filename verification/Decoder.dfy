/** The decoder: each token back to text, through the reverse tables.

    A placeholder becomes a space. An integer becomes its letter, or `?` when
    no letter has that integral value. A decimal becomes the letter of its
    integral part, or `?`, followed by one diacritic for every digit of its
    fraction text that has one, in the order the digits are written; the
    digits 0 and 5 have none and are dropped. */
module Decoder {
  import opened Options
  import opened Decimal
  import opened Tables
  import opened Tokens

  /** The letter with the integral value `n`, or `?`. */
  function LetterOrUnknown(n: int): (r: char)
    ensures r == '?' <==> LetterOfValue(n).None?
    ensures r != '?' ==> n >= 0 && LetterValue(r) == Some(Dec(n, []))
  {
    match LetterOfValue(n)
    case Some(c) =>
      LetterOfValueInverts(c, n);
      c
    case None => '?'
  }

  /** The digits that have a diacritic. */
  function Mapped(ds: seq<Digit>): (r: seq<Digit>)
    ensures |r| <= |ds|
    ensures forall i :: 0 <= i < |r| ==> TashkeelOfDigit(r[i]).Some?
    decreases |ds|
  {
    if ds == [] then []
    else if TashkeelOfDigit(ds[0]).Some? then [ds[0]] + Mapped(ds[1..])
    else Mapped(ds[1..])
  }

  /** A single digit is kept exactly when it has a diacritic. */
  lemma MappedOne(d: Digit)
    ensures Mapped([d]) == if TashkeelOfDigit(d).Some? then [d] else []
  {
    assert [d][1..] == [];
  }

  /** Keeping the digits that have a diacritic preserves their order: the
      kept digits of a concatenation are those of its parts, in turn. */
  lemma {:induction false} MappedAppend(a: seq<Digit>, b: seq<Digit>)
    ensures Mapped(a + b) == Mapped(a) + Mapped(b)
    decreases |a|
  {
    if a == [] {
      assert a + b == b;
    } else {
      assert (a + b)[0] == a[0];
      assert (a + b)[1..] == a[1..] + b;
      MappedAppend(a[1..], b);
    }
  }

  /** The diacritics of a digit string, in order; digits without one give
      nothing. */
  function Marks(ds: seq<Digit>): (r: string)
    ensures forall i :: 0 <= i < |r| ==> IsTashkeel(r[i])
    ensures TashkeelDigits(r) == Mapped(ds)
    decreases |ds|
  {
    if ds == [] then ""
    else
      var rest := Marks(ds[1..]);
      match TashkeelOfDigit(ds[0])
      case Some(m) =>
        TashkeelOfDigitInverts(m, ds[0]);
        TablesDisjoint(m);
        assert ([m] + rest)[1..] == rest;
        [m] + rest
      case None => rest
  }

  /** The text of one token. */
  function DecodeToken(t: Token): (r: string)
    ensures |r| >= 1
    ensures t.Placeholder? ==> r == " "
    ensures t.IntTok? ==> r == [LetterOrUnknown(t.n)]
    ensures t.DecTok? ==> r[0] == LetterOrUnknown(t.num.whole)
    ensures t.DecTok? ==> TashkeelDigits(r[1..]) == Mapped(t.num.frac)
    ensures t.DecTok? ==> r[1..] == Marks(Mapped(t.num.frac))
    ensures Lead(r[0])
    ensures forall i :: 1 <= i < |r| ==> IsTashkeel(r[i])
    ensures |TashkeelDigits(r)| == |r| - 1
  {
    match t
    case Placeholder =>
      LeadThenMarks(' ', "");
      " "
    case IntTok(n) =>
      LeadThenMarks(LetterOrUnknown(n), "");
      [LetterOrUnknown(n)]
    case DecTok(d) =>
      var text := FracText(Dec(d.whole, Strip(d.frac)));
      var marks := Marks(text);
      MappedIgnoresZeros(d.frac);
      LeadThenMarks(LetterOrUnknown(d.whole), marks);
      MarksOfTashkeelDigits(marks);
      [LetterOrUnknown(d.whole)] + marks
  }

  /** The character a token decodes to before its diacritics. */
  predicate Lead(c: char) {
    c == ' ' || c == '?' || IsBaseLetter(c)
  }

  lemma LeadNotTashkeel(c: char)
    requires Lead(c)
    ensures !IsTashkeel(c)
  {
    if c == ' ' {
      assert Classify(' ') == OtherChar;
    } else if c == '?' {
      assert Classify('?') == OtherChar;
    }
  }

  /** A leading character followed by diacritics: one character that is not
      a diacritic, then only diacritics. */
  lemma LeadThenMarks(c: char, marks: string)
    requires Lead(c)
    requires forall i :: 0 <= i < |marks| ==> IsTashkeel(marks[i])
    ensures ([c] + marks)[0] == c && ([c] + marks)[1..] == marks
    ensures |TashkeelDigits([c] + marks)| == |marks|
  {
    var s := [c] + marks;
    assert s[1..] == marks;
    LeadNotTashkeel(c);
    assert TashkeelDigits(s) == TashkeelDigits(marks);
  }

  /** Digits of the fraction text that have no diacritic do not matter: the
      text of a number and its digits with the trailing zeros kept, or with
      the `0` of an integral number, map to the same diacritics. */
  lemma MappedIgnoresZeros(ds: seq<Digit>)
    ensures Mapped(FracText(Dec(0, Strip(ds)))) == Mapped(ds)
  {
    var s := Strip(ds);
    MappedZeros(s, |ds| - |s|);
    if s == [] {
      assert Mapped([0]) == [];
    }
  }

  lemma {:induction false} MappedZeros(ds: seq<Digit>, n: nat)
    ensures Mapped(ds + Zeros(n)) == Mapped(ds)
    decreases |ds|, n
  {
    if ds == [] {
      assert ds + Zeros(n) == Zeros(n);
      if n > 0 {
        assert Zeros(n)[1..] == Zeros(n - 1);
        assert ds + Zeros(n - 1) == Zeros(n - 1);
        MappedZeros([], n - 1);
      }
    } else {
      assert (ds + Zeros(n))[1..] == ds[1..] + Zeros(n);
      MappedZeros(ds[1..], n);
    }
  }

  /** `decode` of abgd.py: the texts of the tokens, concatenated in order.
      Every character of the text is a space, `?`, a base letter or a
      diacritic, and each token contributes exactly one character that is not
      a diacritic. */
  function Decode(tokens: seq<Token>): (r: string)
    ensures |r| >= |tokens|
    ensures forall i :: 0 <= i < |r| ==> Lead(r[i]) || IsTashkeel(r[i])
    ensures |r| == |tokens| + |TashkeelDigits(r)|
    decreases |tokens|
  {
    if tokens == [] then ""
    else
      var h := DecodeToken(tokens[0]);
      var rest := Decode(tokens[1..]);
      TashkeelDigitsAppend(h, rest);
      h + rest
  }

  lemma {:induction false} DecodeAppend(a: seq<Token>, b: seq<Token>)
    ensures Decode(a + b) == Decode(a) + Decode(b)
    decreases |a|
  {
    if a == [] {
      assert a + b == b;
    } else {
      assert (a + b)[0] == a[0];
      assert (a + b)[1..] == a[1..] + b;
      DecodeAppend(a[1..], b);
      var h := DecodeToken(a[0]);
      assert h + (Decode(a[1..]) + Decode(b)) == h + Decode(a[1..]) + Decode(b);
    }
  }

  /** Reading the diacritics of a string of diacritics back gives the same
      string. */
  lemma {:induction false} MarksOfTashkeelDigits(m: string)
    requires forall i :: 0 <= i < |m| ==> IsTashkeel(m[i])
    ensures Marks(TashkeelDigits(m)) == m
    decreases |m|
  {
    if m != [] {
      var d := Classify(m[0]).digit;
      TashkeelOfDigitInverts(m[0], d);
      MarksOfTashkeelDigits(m[1..]);
      assert TashkeelDigits(m) == [d] + TashkeelDigits(m[1..]);
      assert m == [m[0]] + m[1..];
    }
  }
}
