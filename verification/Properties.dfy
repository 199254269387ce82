/** Properties relating the encoder and the decoder.

    Text is viewed as a sequence of units: a letter followed by its
    diacritics, or a single character that is neither a letter nor a
    diacritic. On such text the encoder emits exactly one token per unit
    (`EncodeUnits`); for base letters with diacritics written in ascending
    digit order and spaces between them, decoding gives the text back
    (`DecodeEncode`), and on the tokens such text produces, encoding the
    decoded text gives the tokens back (`EncodeDecode`). */
module Properties {
  import opened Options
  import opened Decimal
  import opened Tables
  import opened Diacritics
  import opened Tokens
  import opened Encoder
  import opened Decoder

  datatype Unit = Syllable(letter: char, marks: string) | Other(c: char)

  predicate AllTashkeel(m: string) {
    forall i :: 0 <= i < |m| ==> IsTashkeel(m[i])
  }

  predicate WellFormedUnit(u: Unit) {
    match u
    case Syllable(l, m) => IsLetter(l) && AllTashkeel(m)
    case Other(c) => Classify(c).OtherChar?
  }

  predicate WellFormed(us: seq<Unit>) {
    forall i :: 0 <= i < |us| ==> WellFormedUnit(us[i])
  }

  function RenderUnit(u: Unit): string {
    match u
    case Syllable(l, m) => [l] + m
    case Other(c) => [c]
  }

  function Render(us: seq<Unit>): string
    decreases |us|
  {
    if us == [] then "" else RenderUnit(us[0]) + Render(us[1..])
  }

  /** The token a unit stands for: a letter's value plus its merged
      diacritics, or a placeholder. A syllable whose first character is not
      a letter is not well formed and has no token of its own; it is given a
      placeholder only to keep the function total. */
  function TokenOf(u: Unit): Token {
    match u
    case Syllable(l, m) =>
      (match Classify(l)
       case LetterChar(v) => DecTok(Add(v, Merge(TashkeelDigits(m))))
       case _ => Placeholder)
    case Other(_) => Placeholder
  }

  function TokensOf(us: seq<Unit>): (r: seq<Token>)
    ensures |r| == |us|
    decreases |us|
  {
    if us == [] then [] else [TokenOf(us[0])] + TokensOf(us[1..])
  }

  /** Each unit has its own token, in order. */
  lemma {:induction false} TokensOfIndex(us: seq<Unit>, i: int)
    requires 0 <= i < |us|
    ensures TokensOf(us)[i] == TokenOf(us[i])
    decreases i
  {
    if i > 0 {
      TokensOfIndex(us[1..], i - 1);
    }
  }

  lemma WellFormedTail(us: seq<Unit>)
    requires WellFormed(us) && us != []
    ensures WellFormedUnit(us[0]) && WellFormed(us[1..])
  {
    forall i | 0 <= i < |us| - 1 ensures WellFormedUnit(us[1..][i]) {
      assert us[1..][i] == us[i + 1];
    }
  }

  /** Reading diacritics only appends their digits to the buffer. */
  lemma {:induction false} RunMarks(st: State, m: string)
    requires AllTashkeel(m)
    ensures Run(st, m) == State(st.pending, st.buffer + TashkeelDigits(m), st.out)
    decreases |m|
  {
    if m == [] {
      assert st.buffer + [] == st.buffer;
    } else {
      var init := m[..|m| - 1];
      var c := m[|m| - 1];
      RunMarks(st, init);
      assert m == init + [c];
      TashkeelDigitsAppend(init, [c]);
      assert TashkeelDigits([c]) == [Classify(c).digit];
    }
  }

  lemma RunOne(st: State, c: char)
    ensures Run(st, [c]) == Step(st, c)
  {
    assert [c][..0] == [];
  }

  /** A character that is neither a letter nor a diacritic: the pending
      letter's token, then a placeholder. */
  lemma RunOther(st: State, c: char)
    requires Classify(c).OtherChar?
    requires st.pending.None? ==> st.buffer == []
    ensures Run(st, [c]) == State(None, [], Finish(st) + [Placeholder])
  {
    RunOne(st, c);
    if st.pending.None? {
      assert Finish(st) == st.out + [];
    }
  }

  /** A letter and its diacritics: the pending letter's token, then the new
      letter pending with exactly its own diacritics buffered. */
  lemma RunSyllable(st: State, l: char, m: string)
    requires Classify(l).LetterChar? && AllTashkeel(m)
    requires st.pending.None? ==> st.buffer == []
    ensures Run(st, [l] + m) == State(Some(Classify(l).value), TashkeelDigits(m), Finish(st))
  {
    var st1 := State(Some(Classify(l).value), [], Finish(st));
    RunOne(st, l);
    if st.pending.None? {
      assert Finish(st) == st.out + [];
    }
    assert Run(st, [l]) == st1;
    RunAppend(st, [l], m);
    RunMarks(st1, m);
    assert [] + TashkeelDigits(m) == TashkeelDigits(m);
  }

  /** One unit read from a state whose buffer is empty unless a letter is
      pending: the token of the pending letter, if any, then the unit's own
      token once it is complete. */
  lemma RunUnit(st: State, u: Unit)
    requires WellFormedUnit(u)
    requires st.pending.None? ==> st.buffer == []
    ensures Finish(Run(st, RenderUnit(u))) == Finish(st) + [TokenOf(u)]
    ensures Run(st, RenderUnit(u)).pending.None? ==> Run(st, RenderUnit(u)).buffer == []
  {
    match u
    case Other(c) =>
      RunOther(st, c);
      assert Finish(State(None, [], Finish(st) + [Placeholder])) == Finish(st) + [Placeholder] + [];
    case Syllable(l, m) =>
      RunSyllable(st, l, m);
  }

  lemma {:induction false} RunUnits(st: State, us: seq<Unit>)
    requires WellFormed(us)
    requires st.pending.None? ==> st.buffer == []
    ensures Finish(Run(st, Render(us))) == Finish(st) + TokensOf(us)
    decreases |us|
  {
    if us == [] {
      assert Finish(st) + [] == Finish(st);
    } else {
      var u, rest := us[0], us[1..];
      WellFormedTail(us);
      var st1 := Run(st, RenderUnit(u));
      assert Finish(st1) == Finish(st) + [TokenOf(u)] && (st1.pending.None? ==> st1.buffer == []) by {
        RunUnit(st, u);
      }
      assert Finish(Run(st, Render(us))) == Finish(st1) + TokensOf(rest) by {
        RunAppend(st, RenderUnit(u), Render(rest));
        RunUnits(st1, rest);
      }
      Regroup(Finish(Run(st, Render(us))), Finish(st), TokenOf(u), TokensOf(rest), Finish(st1), TokensOf(us));
    }
  }

  lemma Regroup(x: seq<Token>, a: seq<Token>, t: Token, b: seq<Token>, f: seq<Token>, y: seq<Token>)
    requires x == f + b && f == a + [t] && y == [t] + b
    ensures x == a + y
  {
    assert a + [t] + b == a + ([t] + b);
  }

  /** Text made of units encodes unit by unit: one token per letter with the
      diacritics that follow it merged in, one placeholder per other
      character. */
  lemma EncodeUnits(us: seq<Unit>)
    requires WellFormed(us)
    ensures Encode(Render(us)) == TokensOf(us)
  {
    RunUnits(Start, us);
  }

  /** A unit that decoding gives back: a base letter with diacritics in
      ascending digit order, or a space. */
  predicate PlainUnit(u: Unit) {
    match u
    case Syllable(l, m) => IsBaseLetter(l) && AllTashkeel(m) && Sorted(TashkeelDigits(m))
    case Other(c) => c == ' '
  }

  predicate Plain(us: seq<Unit>) {
    forall i :: 0 <= i < |us| ==> PlainUnit(us[i])
  }

  lemma PlainTail(us: seq<Unit>)
    requires Plain(us) && us != []
    ensures PlainUnit(us[0]) && Plain(us[1..])
  {
    forall i | 0 <= i < |us| - 1 ensures PlainUnit(us[1..][i]) {
      assert us[1..][i] == us[i + 1];
    }
  }

  /** A number whose integral part is a base letter's value and whose
      fractional digits all are non-zero decodes to that letter followed by
      the diacritics of the digits. */
  lemma DecodeLetterToken(n: nat, ds: seq<Digit>)
    requires LetterOfValue(n).Some? && NoZeros(ds)
    ensures DecodeToken(DecTok(Dec(n, ds))) == [LetterOfValue(n).value] + Marks(ds)
  {
    assert Strip(ds) == ds by {
      if ds != [] {
        assert ds[|ds| - 1] != 0;
      }
    }
    assert Marks(FracText(Dec(n, ds))) == Marks(ds) by {
      if ds == [] {
        assert Marks([0]) == "";
      }
    }
    assert LetterOrUnknown(n) == LetterOfValue(n).value;
  }

  /** The token of a base letter with ascending diacritics: the letter's
      value, with the diacritic digits as the fraction. */
  lemma SyllableToken(l: char, m: string)
    requires IsBaseLetter(l) && AllTashkeel(m) && Sorted(TashkeelDigits(m))
    ensures NoZeros(TashkeelDigits(m))
    ensures TokenOf(Syllable(l, m)) == DecTok(Dec(Classify(l).value.whole, TashkeelDigits(m)))
  {
    var ds := TashkeelDigits(m);
    assert NoZeros(ds);
    MergeSorted(ds);
    AddToIntegral(Classify(l).value.whole, Merge(ds));
    assert Classify(l).value == Dec(Classify(l).value.whole, []);
  }

  /** A base letter with ascending diacritics decodes back from its token. */
  lemma DecodeSyllable(l: char, m: string)
    requires IsBaseLetter(l) && AllTashkeel(m) && Sorted(TashkeelDigits(m))
    ensures DecodeToken(TokenOf(Syllable(l, m))) == [l] + m
  {
    var v := Classify(l).value;
    var ds := TashkeelDigits(m);
    assert v == Dec(v.whole, []);
    assert LetterValue(l) == Some(Dec(v.whole, []));
    LetterOfValueInverts(l, v.whole);
    assert LetterOfValue(v.whole) == Some(l);
    SyllableToken(l, m);
    DecodeLetterToken(v.whole, ds);
    MarksOfTashkeelDigits(m);
  }

  lemma DecodeTokenOf(u: Unit)
    requires PlainUnit(u)
    ensures DecodeToken(TokenOf(u)) == RenderUnit(u)
  {
    if u.Syllable? {
      DecodeSyllable(u.letter, u.marks);
    }
  }

  lemma {:induction false} DecodeTokensOf(us: seq<Unit>)
    requires Plain(us)
    ensures Decode(TokensOf(us)) == Render(us)
    decreases |us|
  {
    if us != [] {
      PlainTail(us);
      DecodeTokenOf(us[0]);
      DecodeTokensOf(us[1..]);
      assert TokensOf(us)[0] == TokenOf(us[0]);
      assert TokensOf(us)[1..] == TokensOf(us[1..]);
    }
  }

  /** Round trip from text: base letters, each followed by diacritics in
      ascending digit order, with spaces between, decode to what was
      encoded. */
  lemma DecodeEncode(us: seq<Unit>)
    requires Plain(us)
    ensures Decode(Encode(Render(us))) == Render(us)
  {
    PlainWellFormed(us);
    EncodeUnits(us);
    DecodeTokensOf(us);
  }

  /** A token that decoding and re-encoding preserves: a placeholder, or a
      number whose integral part is a base letter's value and whose
      fractional digits are ascending and all have a diacritic. */
  predicate PlainToken(t: Token) {
    t.Placeholder? ||
    (t.DecTok? && LetterOfValue(t.num.whole).Some? && Sorted(t.num.frac) &&
     forall i :: 0 <= i < |t.num.frac| ==> TashkeelOfDigit(t.num.frac[i]).Some?)
  }

  function UnitOf(t: Token): (u: Unit)
    requires PlainToken(t)
  {
    if t.Placeholder? then Other(' ')
    else Syllable(LetterOfValue(t.num.whole).value, Marks(t.num.frac))
  }

  lemma {:induction false} MappedAll(ds: seq<Digit>)
    requires forall i :: 0 <= i < |ds| ==> TashkeelOfDigit(ds[i]).Some?
    ensures Mapped(ds) == ds
    decreases |ds|
  {
    if ds != [] {
      MappedAll(ds[1..]);
      assert ds == [ds[0]] + ds[1..];
    }
  }

  lemma UnitOfToken(t: Token)
    requires PlainToken(t)
    ensures PlainUnit(UnitOf(t))
    ensures TokenOf(UnitOf(t)) == t
  {
    if t.DecTok? {
      var d := t.num;
      var l := LetterOfValue(d.whole).value;
      var m := Marks(d.frac);
      assert IsBaseLetter(l) && Classify(l).value.whole == d.whole by {
        LetterOfValueInverts(l, d.whole);
      }
      assert TashkeelDigits(m) == d.frac by {
        MappedAll(d.frac);
      }
      assert PlainUnit(Syllable(l, m));
      SyllableToken(l, m);
    }
  }

  /** Round trip from tokens: a sequence of plain tokens encodes back from
      its decoded text. */
  lemma {:induction false} EncodeDecode(ts: seq<Token>)
    requires forall i :: 0 <= i < |ts| ==> PlainToken(ts[i])
    ensures Encode(Decode(ts)) == ts
  {
    var us := seq(|ts|, i requires 0 <= i < |ts| => UnitOf(ts[i]));
    assert Plain(us) && TokensOf(us) == ts by {
      forall i | 0 <= i < |ts| ensures PlainUnit(us[i]) && TokensOf(us)[i] == ts[i] {
        UnitOfToken(ts[i]);
        TokensOfIndex(us, i);
      }
    }
    assert Decode(ts) == Render(us) by {
      DecodeTokensOf(us);
    }
    PlainWellFormed(us);
    EncodeUnits(us);
  }

  lemma PlainWellFormed(us: seq<Unit>)
    requires Plain(us)
    ensures WellFormed(us)
  {
    forall i | 0 <= i < |us| ensures WellFormedUnit(us[i]) {
      assert PlainUnit(us[i]);
    }
  }

  /** Two states that differ at most in the order of their buffers. */
  predicate SameUpToBufferOrder(a: State, b: State) {
    a.pending == b.pending && a.out == b.out && multiset(a.buffer) == multiset(b.buffer)
  }

  lemma StepBufferOrder(a: State, b: State, c: char)
    requires SameUpToBufferOrder(a, b)
    ensures SameUpToBufferOrder(Step(a, c), Step(b, c))
  {
    MergeDependsOnlyOnMultiset(a.buffer, b.buffer);
  }

  lemma FinishBufferOrder(a: State, b: State)
    requires SameUpToBufferOrder(a, b)
    ensures Finish(a) == Finish(b)
  {
    MergeDependsOnlyOnMultiset(a.buffer, b.buffer);
  }

  /** Reading on from two states that differ only in the order of their
      buffers gives the same output. */
  lemma {:induction false} RunBufferOrder(a: State, b: State, text: string)
    requires SameUpToBufferOrder(a, b)
    ensures SameUpToBufferOrder(Run(a, text), Run(b, text))
    ensures Finish(Run(a, text)) == Finish(Run(b, text))
    decreases |text|
  {
    if text != [] {
      var init := text[..|text| - 1];
      RunBufferOrder(a, b, init);
      StepBufferOrder(Run(a, init), Run(b, init), text[|text| - 1]);
    }
    FinishBufferOrder(Run(a, text), Run(b, text));
  }

  /** Diacritics stacked on a letter in any order encode the same, wherever
      they stand in the text. */
  lemma EncodePermutedMarks(s: string, m1: string, m2: string, t: string)
    requires AllTashkeel(m1) && AllTashkeel(m2)
    requires multiset(TashkeelDigits(m1)) == multiset(TashkeelDigits(m2))
    ensures Encode(s + m1 + t) == Encode(s + m2 + t)
  {
    var st := Run(Start, s);
    RunAppend(Start, s + m1, t);
    RunAppend(Start, s, m1);
    RunAppend(Start, s + m2, t);
    RunAppend(Start, s, m2);
    RunMarks(st, m1);
    RunMarks(st, m2);
    RunBufferOrder(Run(st, m1), Run(st, m2), t);
  }

  /** The diacritics of a text, in order. */
  function OnlyMarks(s: string): (r: string)
    ensures AllTashkeel(r)
    ensures TashkeelDigits(r) == TashkeelDigits(s)
    decreases |s|
  {
    if s == [] then ""
    else
      var rest := OnlyMarks(s[1..]);
      if IsTashkeel(s[0]) then
        assert ([s[0]] + rest)[1..] == rest;
        [s[0]] + rest
      else rest
  }

  predicate LetterFree(s: string) {
    forall i :: 0 <= i < |s| ==> !IsLetter(s[i])
  }

  /** With no letter pending, a letter-free text emits one placeholder per
      character that is not a diacritic and only adds the digits of its
      diacritics to the buffer. */
  lemma {:induction false} RunLetterFree(st: State, s: string)
    requires st.pending.None? && LetterFree(s)
    ensures Run(st, s) == State(None, st.buffer + TashkeelDigits(s), st.out + Placeholders(CountOthers(s)))
    decreases |s|
  {
    if s == [] {
      assert st.buffer + [] == st.buffer;
      assert st.out + [] == st.out;
    } else {
      var init := s[..|s| - 1];
      var c := s[|s| - 1];
      assert s == init + [c];
      assert LetterFree(init) by {
        forall i | 0 <= i < |init| ensures !IsLetter(init[i]) {
          assert init[i] == s[i];
        }
      }
      RunLetterFree(st, init);
      var mid := Run(st, init);
      StepLetterFree(mid, c);
      assert mid.buffer + TashkeelDigits([c]) == st.buffer + TashkeelDigits(s) by {
        TashkeelDigitsAppend(init, [c]);
      }
      assert mid.out + Placeholders(CountOthers([c])) == st.out + Placeholders(CountOthers(s)) by {
        CountOthersAppend(init, [c]);
        PlaceholdersAppend(CountOthers(init), CountOthers([c]));
      }
    }
  }

  /** With no letter pending, one character that is not a letter. */
  lemma StepLetterFree(st: State, c: char)
    requires st.pending.None? && !IsLetter(c)
    ensures Step(st, c) ==
              State(None, st.buffer + TashkeelDigits([c]), st.out + Placeholders(CountOthers([c])))
  {
    assert [c][1..] == [];
    if IsTashkeel(c) {
      assert TashkeelDigits([c]) == [Classify(c).digit];
      assert st.out + Placeholders(0) == st.out;
    } else {
      assert TashkeelDigits([c]) == [];
      assert st.buffer + [] == st.buffer;
      assert Placeholders(1) == [Placeholder];
    }
  }

  lemma PlaceholdersAppend(a: nat, b: nat)
    ensures Placeholders(a) + Placeholders(b) == Placeholders(a + b)
  {
  }

  lemma {:induction false} CountOthersAppend(a: string, b: string)
    ensures CountOthers(a + b) == CountOthers(a) + CountOthers(b)
    decreases |a|
  {
    if a == [] {
      assert a + b == b;
    } else {
      assert (a + b)[1..] == a[1..] + b;
      CountOthersAppend(a[1..], b);
    }
  }

  /** A letter-free text encodes to its placeholders only: the diacritics in
      it are dropped, since no letter follows to carry them. */
  lemma LetterFreeEncode(s: string)
    requires LetterFree(s)
    ensures Encode(s) == Placeholders(CountOthers(s))
    ensures (forall i :: 0 <= i < |s| ==> IsTashkeel(s[i])) ==> Encode(s) == []
  {
    var ph := Placeholders(CountOthers(s));
    assert Run(Start, s) == State(None, TashkeelDigits(s), ph) by {
      RunLetterFree(Start, s);
      assert [] + TashkeelDigits(s) == TashkeelDigits(s);
      assert [] + ph == ph;
    }
    assert Finish(State(None, TashkeelDigits(s), ph)) == ph + [];
    if forall i :: 0 <= i < |s| ==> IsTashkeel(s[i]) {
      AllTashkeelNoOthers(s);
    }
  }

  lemma {:induction false} AllTashkeelNoOthers(s: string)
    requires AllTashkeel(s)
    ensures CountOthers(s) == 0
    decreases |s|
  {
    if s != [] {
      AllTashkeelNoOthers(s[1..]);
    }
  }

  /** Output already emitted is never revisited: reading on from a state
      appends to its output. */
  lemma {:induction false} RunKeepsOutput(st: State, pre: seq<Token>, text: string)
    ensures Run(st.(out := pre + st.out), text) == Run(st, text).(out := pre + Run(st, text).out)
    decreases |text|
  {
    if text != [] {
      RunKeepsOutput(st, pre, text[..|text| - 1]);
      var r := Run(st, text[..|text| - 1]);
      var f := Flush(r.pending, r.buffer);
      assert pre + r.out + f == pre + (r.out + f);
      assert pre + r.out + f + [Placeholder] == pre + (r.out + f + [Placeholder]);
      assert pre + r.out + [Placeholder] == pre + (r.out + [Placeholder]);
    }
  }

  /** A letter-free text followed by a letter: its placeholders are out, and
      the letter is pending with the text's diacritics in the buffer. */
  lemma StrayThenLetter(s: string, c: char)
    requires LetterFree(s) && IsLetter(c)
    ensures Run(Start, s + [c]) ==
              State(Some(Classify(c).value), TashkeelDigits(s), Placeholders(CountOthers(s)))
  {
    RunLetterFree(Start, s);
    assert Run(Start, s) == State(None, TashkeelDigits(s), Placeholders(CountOthers(s)));
    RunAppend(Start, s, [c]);
    RunOne(Run(Start, s), c);
  }

  /** A letter followed by diacritics only: the letter is pending with the
      diacritics in the buffer. */
  lemma LetterThenMarks(c: char, m: string)
    requires IsLetter(c) && AllTashkeel(m)
    ensures Run(Start, [c] + m) == State(Some(Classify(c).value), TashkeelDigits(m), [])
  {
    RunSyllable(Start, c, m);
    FinishStart();
  }

  /** A letter followed by diacritics only encodes to the letter's value
      plus the merged diacritics. */
  lemma EncodeLetterMarks(l: char, m: string)
    requires IsLetter(l) && AllTashkeel(m)
    ensures Encode([l] + m) == [DecTok(Add(Classify(l).value, Merge(TashkeelDigits(m))))]
  {
    var v := Classify(l).value;
    var ds := TashkeelDigits(m);
    assert Run(Start, [l] + m) == State(Some(v), ds, []) by {
      LetterThenMarks(l, m);
    }
    assert Finish(State(Some(v), ds, [])) == [] + [DecTok(Add(v, Merge(ds)))];
  }

  /** A base letter followed by diacritics in ascending digit order encodes
      to its value with the digits as the fraction. */
  lemma EncodeSyllable(l: char, m: string)
    requires IsBaseLetter(l) && AllTashkeel(m) && Sorted(TashkeelDigits(m))
    ensures Encode([l] + m) == [DecTok(Dec(Classify(l).value.whole, TashkeelDigits(m)))]
  {
    EncodeLetterMarks(l, m);
    SyllableToken(l, m);
  }

  /** Stray diacritics are carried forward: diacritics read while no letter
      is pending, even across other characters, are merged into the token of
      the next letter, exactly as if they had been written right after it. */
  lemma StrayMarksCarry(s: string, c: char, t: string)
    requires LetterFree(s) && IsLetter(c)
    ensures Encode(s + [c] + t) == Placeholders(CountOthers(s)) + Encode([c] + OnlyMarks(s) + t)
  {
    var ph := Placeholders(CountOthers(s));
    var st := State(Some(Classify(c).value), TashkeelDigits(s), []);
    var r := Run(st, t);
    assert Run(Start, s + [c] + t) == r.(out := ph + r.out) by {
      StrayThenLetter(s, c);
      RunAppend(Start, s + [c], t);
      assert st.(out := ph + st.out) == Run(Start, s + [c]);
      RunKeepsOutput(st, ph, t);
    }
    assert Run(Start, [c] + OnlyMarks(s) + t) == r by {
      LetterThenMarks(c, OnlyMarks(s));
      RunAppend(Start, [c] + OnlyMarks(s), t);
    }
    FinishKeepsOutput(r, ph);
  }

  /** With no letter pending, the tokens so far are the output so far. */
  lemma EncodeNonePending(p: string)
    requires Run(Start, p).pending.None?
    ensures Encode(p) == Run(Start, p).out
  {
    var q := Run(Start, p);
    assert Finish(q) == q.out + [];
  }

  /** Mid-text, after a prefix that leaves no letter pending, a letter-free
      text adds only its placeholders: its diacritics join the buffer and
      are dropped if no letter follows. */
  lemma LetterFreeEncodeAfter(p: string, s: string)
    requires Run(Start, p).pending.None? && LetterFree(s)
    ensures Encode(p + s) == Encode(p) + Placeholders(CountOthers(s))
  {
    var q := Run(Start, p);
    EncodeNonePending(p);
    assert Run(Start, p + s) ==
             State(None, q.buffer + TashkeelDigits(s), q.out + Placeholders(CountOthers(s))) by {
      RunAppend(Start, p, s);
      RunLetterFree(q, s);
    }
    EncodeNonePending(p + s);
  }

  /** Mid-text carry-over: after a prefix that leaves no letter pending, the
      diacritics of a letter-free text join those already buffered and are
      merged into the token of the next letter, after the text's
      placeholders. */
  lemma StrayMarksCarryAfter(p: string, s: string, c: char, t: string)
    requires Run(Start, p).pending.None? && LetterFree(s) && IsLetter(c)
    ensures Encode(p + s + [c] + t) ==
              Encode(p) + Placeholders(CountOthers(s)) +
              Finish(Run(State(Some(Classify(c).value), Run(Start, p).buffer + TashkeelDigits(s), []), t))
  {
    var q := Run(Start, p);
    var pre := q.out + Placeholders(CountOthers(s));
    var st := State(Some(Classify(c).value), q.buffer + TashkeelDigits(s), []);
    EncodeNonePending(p);
    assert Run(Start, p + s + [c]) == st.(out := pre + st.out) by {
      RunAppend(Start, p, s);
      RunLetterFree(q, s);
      RunAppend(Start, p + s, [c]);
      RunOne(Run(Start, p + s), c);
      assert pre + [] == pre;
    }
    var r := Run(st, t);
    assert Run(Start, p + s + [c] + t) == r.(out := pre + r.out) by {
      RunAppend(Start, p + s + [c], t);
      RunKeepsOutput(st, pre, t);
    }
    FinishKeepsOutput(r, pre);
  }

  lemma FinishKeepsOutput(st: State, pre: seq<Token>)
    ensures Finish(st.(out := pre + st.out)) == pre + Finish(st)
  {
    var f := Flush(st.pending, st.buffer);
    assert pre + st.out + f == pre + (st.out + f);
  }

  /** A special form alone decodes to two characters, never to itself: the
      letter of its integral part (or `?`) and the diacritic of its tag
      digit. */
  lemma SpecialFormsNotRecovered(c: char)
    requires IsLetter(c) && !IsBaseLetter(c)
    ensures Decode(Encode([c])) ==
              [LetterOrUnknown(Classify(c).value.whole),
               TashkeelOfDigit(Classify(c).value.frac[1]).value]
    ensures Decode(Encode([c])) != [c]
  {
    var v := Classify(c).value;
    assert |v.frac| == 2 && v.frac[0] == 0 && 1 <= v.frac[1] <= 3;
    var k := v.frac[1];
    EncodeLetter(c);
    var mark := MarkOfDigit(k);
    assert Decode([DecTok(v)]) == [LetterOrUnknown(v.whole), mark] by {
      assert Strip(v.frac) == v.frac;
      assert v.frac == [0, k];
      MarksOfDigits(k);
    }
  }

  /** A letter alone encodes to its value. */
  lemma EncodeLetter(c: char)
    requires IsLetter(c)
    ensures Encode([c]) == [DecTok(Classify(c).value)]
  {
    var v := Classify(c).value;
    LetterThenMarks(c, "");
    assert [c] + "" == [c];
    assert Add(v, Merge([])) == v by {
      CanonicalUnique(Add(v, Zero), v);
    }
  }

  /** The diacritic of a tag digit of a special form. */
  function MarkOfDigit(k: Digit): (r: char)
    requires 1 <= k <= 3
    ensures TashkeelOfDigit(k) == Some(r)
    ensures IsTashkeel(r)
  {
    var m := TashkeelOfDigit(k).value;
    TashkeelOfDigitInverts(m, k);
    m
  }

  lemma MarksOfDigits(k: Digit)
    requires 1 <= k <= 3
    ensures Marks([0, k]) == [MarkOfDigit(k)]
  {
    assert [0, k][1..] == [k];
    assert [k][1..] == [];
  }
}
