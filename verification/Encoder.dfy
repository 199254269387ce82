/** Tokens of the encoded sequence. `abgd.py` emits floats and `None`;
    here a float is an exact `Dec` and `None` is `Placeholder`. The decoder
    also accepts plain integers, so `IntTok` is kept although the encoder
    never produces one. */
module Tokens {
  import opened Decimal

  datatype Token = Placeholder | IntTok(n: int) | DecTok(num: Dec)

  /** What a character or token stands for, ignoring values: a letter, or
      anything that is neither a letter nor a diacritic. */
  datatype Kind = LetterKind | OtherKind

  function TokenKind(t: Token): Kind {
    if t.Placeholder? then OtherKind else LetterKind
  }

  function TokenKinds(ts: seq<Token>): (r: seq<Kind>)
    ensures |r| == |ts|
    ensures forall i :: 0 <= i < |ts| ==> r[i] == TokenKind(ts[i])
  {
    seq(|ts|, i requires 0 <= i < |ts| => TokenKind(ts[i]))
  }

  function Placeholders(n: nat): (r: seq<Token>)
    ensures |r| == n
    ensures forall i :: 0 <= i < n ==> r[i] == Placeholder
  {
    seq(n, _ => Placeholder)
  }
}

/** The encoder: a left-to-right scan with two pieces of state, the value of
    the letter read but not yet emitted (`pending`) and the diacritic digits
    read since the buffer was last cleared (`buffer`).

    The buffer is cleared only when a pending letter is emitted. Diacritics
    read while no letter is pending therefore stay in the buffer and are added
    to the next letter's token, even across placeholders, and are lost only
    if no letter follows. */
module Encoder {
  import opened Options
  import opened Decimal
  import opened Tables
  import opened Diacritics
  import opened Tokens

  datatype State = State(pending: Option<Dec>, buffer: seq<Digit>, out: seq<Token>)

  const Start: State := State(None, [], [])

  /** The token of a pending letter, if there is one: the letter's value plus
      the merged diacritics. */
  function Flush(pending: Option<Dec>, buffer: seq<Digit>): seq<Token>
  {
    if pending.Some? then [DecTok(Add(pending.value, Merge(buffer)))] else []
  }

  /** One character of the scan. */
  function Step(st: State, c: char): State {
    Advance(st, Classify(c))
  }

  /** One character of the scan, by its class. */
  function Advance(st: State, k: CharClass): State {
    match k
    case LetterChar(v) =>
      if st.pending.Some? then
        State(Some(v), [], st.out + Flush(st.pending, st.buffer))
      else
        State(Some(v), st.buffer, st.out)
    case MarkChar(d) =>
      State(st.pending, st.buffer + [d], st.out)
    case OtherChar =>
      if st.pending.Some? then
        State(None, [], st.out + Flush(st.pending, st.buffer) + [Placeholder])
      else
        State(None, st.buffer, st.out + [Placeholder])
  }

  /** The scan of a whole text from a given state: the state after reading
      all of it but the last character, stepped over the last character. */
  function Run(st: State, text: string): State
    decreases |text|
  {
    if text == [] then st else Step(Run(st, text[..|text| - 1]), text[|text| - 1])
  }

  /** End of input: emit the pending letter, if any. */
  function Finish(st: State): seq<Token>
  {
    st.out + Flush(st.pending, st.buffer)
  }

  /** The letters of a text as `LetterKind` and the characters that are
      neither letters nor diacritics as `OtherKind`, in order; diacritics are
      skipped. */
  function Kinds(text: string): (r: seq<Kind>)
    ensures |r| <= |text|
    decreases |text|
  {
    if text == [] then [] else ClassKinds(Classify(text[0])) + Kinds(text[1..])
  }

  /** The kind of a character of the given class, if it has one. */
  function ClassKinds(k: CharClass): (r: seq<Kind>)
    ensures |r| <= 1
  {
    match k
    case LetterChar(_) => [LetterKind]
    case MarkChar(_) => []
    case OtherChar => [OtherKind]
  }

  function CountLetters(text: string): nat
    decreases |text|
  {
    if text == [] then 0
    else (if IsLetter(text[0]) then 1 else 0) + CountLetters(text[1..])
  }

  function CountOthers(text: string): nat
    decreases |text|
  {
    if text == [] then 0
    else (if Classify(text[0]).OtherChar? then 1 else 0) + CountOthers(text[1..])
  }

  function PendingKind(p: Option<Dec>): seq<Kind> {
    if p.Some? then [LetterKind] else []
  }

  predicate NoIntTokens(ts: seq<Token>) {
    forall i :: 0 <= i < |ts| ==> !ts[i].IntTok?
  }

  lemma TokenKindsAppend(a: seq<Token>, b: seq<Token>)
    ensures TokenKinds(a + b) == TokenKinds(a) + TokenKinds(b)
  {
  }

  lemma {:induction false} KindsLength(text: string)
    ensures |Kinds(text)| == CountLetters(text) + CountOthers(text)
    decreases |text|
  {
    if text != [] {
      KindsLength(text[1..]);
    }
  }

  /** The token of a pending letter, if any, is a letter token. */
  lemma FlushKinds(pending: Option<Dec>, buffer: seq<Digit>)
    ensures TokenKinds(Flush(pending, buffer)) == PendingKind(pending)
    ensures NoIntTokens(Flush(pending, buffer))
  {
  }

  /** Emitting the pending letter, if any, and then `extra`. */
  lemma EmitKinds(st: State, extra: seq<Token>)
    ensures TokenKinds(st.out + Flush(st.pending, st.buffer) + extra)
         == TokenKinds(st.out) + PendingKind(st.pending) + TokenKinds(extra)
    ensures NoIntTokens(st.out) && NoIntTokens(extra) ==>
              NoIntTokens(st.out + Flush(st.pending, st.buffer) + extra)
  {
    var f := Flush(st.pending, st.buffer);
    FlushKinds(st.pending, st.buffer);
    TokenKindsAppend(st.out, f);
    TokenKindsAppend(st.out + f, extra);
  }

  /** One character adds its kind, if it has one, after the kinds already
      emitted and pending. */
  lemma AdvanceKinds(st: State, k: CharClass)
    ensures TokenKinds(Advance(st, k).out) + PendingKind(Advance(st, k).pending)
         == TokenKinds(st.out) + PendingKind(st.pending) + ClassKinds(k)
    ensures NoIntTokens(st.out) ==> NoIntTokens(Advance(st, k).out)
  {
    match k
    case LetterChar(_) =>
      if st.pending.Some? {
        EmitKinds(st, []);
        assert st.out + Flush(st.pending, st.buffer) + [] == st.out + Flush(st.pending, st.buffer);
      }
    case MarkChar(_) =>
    case OtherChar =>
      EmitKinds(st, [Placeholder]);
  }

  lemma StepKinds(st: State, c: char)
    ensures TokenKinds(Step(st, c).out) + PendingKind(Step(st, c).pending)
         == TokenKinds(st.out) + PendingKind(st.pending) + Kinds([c])
    ensures NoIntTokens(st.out) ==> NoIntTokens(Step(st, c).out)
  {
    AdvanceKinds(st, Classify(c));
    assert Kinds([c]) == ClassKinds(Classify(c)) + Kinds([]);
  }

  /** Reading a text emits one letter token for the pending letter and for
      every letter read but the last, and one placeholder for every other
      non-diacritic character, in reading order; the last letter read stays
      pending. */
  lemma {:induction false} RunKinds(st: State, text: string)
    ensures TokenKinds(Run(st, text).out) + PendingKind(Run(st, text).pending)
         == TokenKinds(st.out) + PendingKind(st.pending) + Kinds(text)
    ensures NoIntTokens(st.out) ==> NoIntTokens(Run(st, text).out)
    decreases |text|
  {
    if text != [] {
      var init := text[..|text| - 1];
      var c := text[|text| - 1];
      var mid := Run(st, init);
      RunKinds(st, init);
      assert TokenKinds(Run(st, text).out) + PendingKind(Run(st, text).pending)
          == TokenKinds(st.out) + PendingKind(st.pending) + Kinds(text) by {
        assert Run(st, text) == Step(mid, c);
        StepKinds(mid, c);
        KindsAppend(init, [c]);
        assert text == init + [c];
      }
      assert NoIntTokens(st.out) ==> NoIntTokens(Run(st, text).out) by {
        assert Run(st, text) == Step(mid, c);
        StepKinds(mid, c);
      }
    }
  }

  lemma {:induction false} KindsAppend(a: string, b: string)
    ensures Kinds(a + b) == Kinds(a) + Kinds(b)
    decreases |a|
  {
    if a != [] {
      assert (a + b)[1..] == a[1..] + b;
      KindsAppend(a[1..], b);
    } else {
      assert a + b == b;
    }
  }

  lemma FinishKinds(st: State)
    ensures TokenKinds(Finish(st)) == TokenKinds(st.out) + PendingKind(st.pending)
    ensures NoIntTokens(st.out) ==> NoIntTokens(Finish(st))
  {
    var f := Flush(st.pending, st.buffer);
    TokenKindsAppend(st.out, f);
    assert TokenKinds(f) == PendingKind(st.pending);
  }

  lemma FinishStart()
    ensures Finish(Start) == []
  {
  }

  /** `encode` of abgd.py: the tokens of a text, in reading order, one per
      letter and one placeholder per character that is neither a letter nor
      a diacritic. Diacritics produce no token of their own, and every token
      is a decimal or a placeholder. */
  function Encode(text: string): (r: seq<Token>)
    ensures TokenKinds(r) == Kinds(text)
    ensures |r| == CountLetters(text) + CountOthers(text)
    ensures NoIntTokens(r)
  {
    EncodeKinds(text);
    Finish(Run(Start, text))
  }

  /** The kinds of the tokens of a whole scan from the start. */
  lemma EncodeKinds(text: string)
    ensures TokenKinds(Finish(Run(Start, text))) == Kinds(text)
    ensures |Finish(Run(Start, text))| == CountLetters(text) + CountOthers(text)
    ensures NoIntTokens(Finish(Run(Start, text)))
  {
    var st := Run(Start, text);
    assert TokenKinds(st.out) + PendingKind(st.pending) == Kinds(text) by {
      RunKinds(Start, text);
      assert TokenKinds(Start.out) + PendingKind(Start.pending) == [];
    }
    assert NoIntTokens(st.out) by {
      RunKinds(Start, text);
    }
    FinishKinds(st);
    assert |TokenKinds(Finish(st))| == |Kinds(text)|;
    KindsLength(text);
  }

  /** Reading a concatenation is reading its parts one after the other. */
  lemma {:induction false} RunAppend(st: State, a: string, b: string)
    ensures Run(st, a + b) == Run(Run(st, a), b)
    decreases |b|
  {
    if b == [] {
      assert a + b == a;
    } else {
      var init := b[..|b| - 1];
      assert (a + b)[..|a + b| - 1] == a + init;
      assert (a + b)[|a + b| - 1] == b[|b| - 1];
      RunAppend(st, a, init);
    }
  }

  /** The body of the loop of `encode`: one character read into the state
      variables `lastBase`, `buffer` and `result`. */
  method ReadChar(lastBase: Option<Dec>, buffer: seq<Digit>, result: seq<Token>, c: char)
    returns (lastBase': Option<Dec>, buffer': seq<Digit>, result': seq<Token>)
    ensures State(lastBase', buffer', result') == Step(State(lastBase, buffer, result), c)
  {
    lastBase', buffer', result' := lastBase, buffer, result;
    if LetterValue(c).Some? {
      if lastBase'.Some? {
        result' := result' + [DecTok(Add(lastBase'.value, Merge(buffer')))];
        buffer' := [];
      }
      lastBase' := LetterValue(c);
    } else if TashkeelDigit(c).Some? {
      buffer' := buffer' + [TashkeelDigit(c).value];
    } else {
      if lastBase'.Some? {
        result' := result' + [DecTok(Add(lastBase'.value, Merge(buffer')))];
        lastBase' := None;
        buffer' := [];
      }
      result' := result' + [Placeholder];
    }
  }

  /** `encode` of abgd.py as the loop it is written as, with the loop state
      held in variables. */
  method EncodeLoop(text: string) returns (result: seq<Token>)
    ensures result == Encode(text)
  {
    result := [];
    var lastBase: Option<Dec> := None;
    var buffer: seq<Digit> := [];
    var i := 0;
    while i < |text|
      invariant 0 <= i <= |text|
      invariant State(lastBase, buffer, result) == Run(Start, text[..i])
    {
      lastBase, buffer, result := ReadChar(lastBase, buffer, result, text[i]);
      assert text[..i + 1][..i] == text[..i];
      i := i + 1;
    }
    if lastBase.Some? {
      result := result + [DecTok(Add(lastBase.value, Merge(buffer)))];
    }
    assert text[..i] == text;
  }
}
