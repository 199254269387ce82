/** Worked examples of the transcoder's behaviour, each derived from the
    general properties. */
module Examples {
  import opened Options
  import opened Decimal
  import opened Tables
  import opened Diacritics
  import opened Tokens
  import opened Encoder
  import opened Decoder
  import opened Properties

  const Fatha: char := '\U{064E}'
  const Shadda: char := '\U{0651}'

  /** Fatha then shadda on ba gives the token `2.16`. */
  lemma FathaShaddaOnBa()
    ensures Encode(['ب', Fatha, Shadda]) == [DecTok(Dec(2, [1, 6]))]
  {
    var m := [Fatha, Shadda];
    assert Classify('ب') == LetterChar(Dec(2, []));
    assert Classify(Fatha) == MarkChar(1) && Classify(Shadda) == MarkChar(6);
    assert AllTashkeel(m);
    assert TashkeelDigits(m) == [1, 6] by {
      assert m[1..] == [Shadda];
      assert TashkeelDigits([Shadda]) == [6];
    }
    EncodeSyllable('ب', m);
    assert ['ب'] + m == ['ب', Fatha, Shadda];
  }

  /** Two diacritics after any character encode the same in either order. */
  lemma MarkSwap(l: char, a: char, b: char)
    requires IsTashkeel(a) && IsTashkeel(b)
    ensures Encode([l, a, b]) == Encode([l, b, a])
  {
    var m1, m2 := [a, b], [b, a];
    assert AllTashkeel(m1) && AllTashkeel(m2);
    assert multiset(TashkeelDigits(m1)) == multiset(TashkeelDigits(m2)) by {
      assert m1[1..] == [b] && m2[1..] == [a];
      assert TashkeelDigits(m1) == [Classify(a).digit, Classify(b).digit];
      assert TashkeelDigits(m2) == [Classify(b).digit, Classify(a).digit];
    }
    EncodePermutedMarks([l], m1, m2, []);
    assert [l] + m1 + [] == [l, a, b];
    assert [l] + m2 + [] == [l, b, a];
  }

  /** On any letter, shadda then fatha encodes as fatha then shadda. */
  lemma ShaddaFathaSwap(l: char)
    ensures Encode([l, Shadda, Fatha]) == Encode([l, Fatha, Shadda])
  {
    assert IsTashkeel(Shadda) && IsTashkeel(Fatha);
    MarkSwap(l, Shadda, Fatha);
  }

  /** Shadda then fatha on ba gives the same token `2.16`: the digits are
      sorted, so fatha (1) comes before shadda (6), and the result is not
      `2.61`. */
  lemma ShaddaFathaOnBa()
    ensures Encode(['ب', Shadda, Fatha]) == [DecTok(Dec(2, [1, 6]))]
  {
    ShaddaFathaSwap('ب');
    FathaShaddaOnBa();
  }

  /** Alif with hamza above encodes to `1.01` and comes back as alif with a
      fatha. */
  lemma AlifHamzaDecodesToFatha()
    ensures Decode(Encode(['أ'])) == ['ا', Fatha]
  {
    assert Classify('أ') == LetterChar(Dec(1, [0, 1]));
    assert LetterOrUnknown(1) == 'ا';
    assert TashkeelOfDigit(1) == Some(Fatha);
    SpecialFormsNotRecovered('أ');
  }

  /** The lone hamza encodes to `0.01`; no letter has the value 0, so it comes
      back as `?` with a fatha. */
  lemma LoneHamzaDecodesToUnknown()
    ensures Decode(Encode(['ء'])) == ['?', Fatha]
  {
    assert Classify('ء') == LetterChar(Dec(0, [0, 1]));
    assert LetterOrUnknown(0) == '?';
    assert TashkeelOfDigit(1) == Some(Fatha);
    SpecialFormsNotRecovered('ء');
  }

  /** A diacritic, then a character that is neither a letter nor a
      diacritic, then a base letter: a placeholder, then the letter's value
      with the diacritic's digit. */
  lemma StrayMarkCarried(mark: char, other: char, l: char)
    requires IsTashkeel(mark) && Classify(other).OtherChar? && IsBaseLetter(l)
    ensures Encode([mark, other, l]) ==
              [Placeholder, DecTok(Dec(Classify(l).value.whole, [Classify(mark).digit]))]
  {
    var s := [mark, other];
    var d := Classify(mark).digit;
    assert LetterFree(s);
    assert CountOthers(s) == 1 by {
      assert s[1..] == [other];
      assert CountOthers([other]) == 1;
    }
    assert OnlyMarks(s) == [mark] by {
      assert s[1..] == [other];
      assert OnlyMarks([other]) == [];
    }
    assert Encode(s + [l] + []) == [Placeholder] + Encode([l] + [mark] + []) by {
      StrayMarksCarry(s, l, []);
      assert Placeholders(1) == [Placeholder];
    }
    assert Encode([l] + [mark]) == [DecTok(Dec(Classify(l).value.whole, [d]))] by {
      assert TashkeelDigits([mark]) == [d];
      EncodeSyllable(l, [mark]);
    }
    assert s + [l] + [] == [mark, other, l];
    assert [l] + [mark] + [] == [l] + [mark];
  }

  /** A fatha before a space and a letter is carried past the space onto the
      letter. */
  lemma StrayFathaCarried()
    ensures Encode([Fatha, ' ', 'ب']) == [Placeholder, DecTok(Dec(2, [1]))]
  {
    assert Classify('ب') == LetterChar(Dec(2, []));
    assert Classify(Fatha) == MarkChar(1) && Classify(' ') == OtherChar;
    StrayMarkCarried(Fatha, ' ', 'ب');
  }

  /** A letter, a character that is neither a letter nor a diacritic, a
      diacritic, and a base letter: the diacritic read after the placeholder
      goes to the second letter. */
  lemma MarkAfterPlaceholder(l1: char, other: char, mark: char, l2: char)
    requires IsBaseLetter(l1) && Classify(other).OtherChar?
    requires IsTashkeel(mark) && IsBaseLetter(l2)
    ensures Encode([l1, other, mark, l2]) ==
              [DecTok(Classify(l1).value), Placeholder,
               DecTok(Dec(Classify(l2).value.whole, [Classify(mark).digit]))]
  {
    var p := [l1, other];
    var d := Classify(mark).digit;
    var v2 := Classify(l2).value;
    var head := [DecTok(Classify(l1).value), Placeholder];
    var last := State(Some(v2), [d], []);
    assert Run(Start, p) == State(None, [], head) by {
      LetterThenOther(l1, other);
    }
    assert Encode([l1, other, mark, l2]) == head + Finish(last) by {
      OneMark(mark);
      StrayMarksCarryAfter(p, [mark], l2, []);
      EncodeNonePending(p);
      assert [] + [d] == [d];
      assert Placeholders(0) == [];
      Split4(l1, other, mark, l2);
    }
    assert Finish(last) == [DecTok(Dec(v2.whole, [d]))] by {
      FlushOneDigit(v2.whole, d);
    }
  }

  /** A letter then a character that is neither a letter nor a diacritic:
      the letter's token and a placeholder, with nothing pending. */
  lemma LetterThenOther(l: char, other: char)
    requires IsLetter(l) && Classify(other).OtherChar?
    ensures Run(Start, [l, other]) == State(None, [], [DecTok(Classify(l).value), Placeholder])
  {
    var v := Classify(l).value;
    var st := Run(Start, [l]);
    assert st == State(Some(v), [], []) by {
      LetterThenMarks(l, "");
      assert [l] + "" == [l];
    }
    assert Finish(st) == [DecTok(v)] by {
      EncodeLetter(l);
    }
    assert Run(Start, [l, other]) == Run(st, [other]) by {
      RunAppend(Start, [l], [other]);
      assert [l] + [other] == [l, other];
    }
    RunOther(st, other);
  }

  /** An integral letter value with one nonzero digit buffered. */
  lemma FlushOneDigit(n: nat, d: Digit)
    requires d != 0
    ensures Finish(State(Some(Dec(n, [])), [d], [])) == [DecTok(Dec(n, [d]))]
  {
    MergeSorted([d]);
    AddToIntegral(n, Merge([d]));
  }

  /** A single diacritic: no letter, no placeholder, one digit. */
  lemma OneMark(mark: char)
    requires IsTashkeel(mark)
    ensures LetterFree([mark]) && CountOthers([mark]) == 0
    ensures TashkeelDigits([mark]) == [Classify(mark).digit]
  {
    assert [mark][0] == mark && [mark][1..] == [];
    assert TashkeelDigits([mark]) == [Classify(mark).digit] + TashkeelDigits([]);
  }

  lemma Split4(a: char, b: char, c: char, d: char)
    ensures [a, b, c, d] == [a, b] + [c] + [d] + []
  {
  }
}
