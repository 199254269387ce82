/** An optional value, for table lookups that may miss. */
module Options {
  datatype Option<+T> = None | Some(value: T)
}

/** The two constant tables of the transcoder and their inverses.

    `LetterValue` is the abjad letter-value table: 28 base letters with the
    classical integer values 1..1000, and 8 special forms (alif and the other
    hamza carriers, alif maqsura, ta marbuta) whose value is an integral part
    (a base value, or 0 for the lone hamza) plus a two-digit tag `0.0d`.
    `TashkeelDigit` is the diacritic order table: eight marks with the
    distinct digits 1-4 and 6-9.

    `LetterOfValue` and `TashkeelOfDigit` are the decoder's reverse tables.
    `abgd.py` builds them by inverting the forward tables at run time, keeping
    only the integral letter values; here they are written out and
    `LetterOfValueInverts` and `TashkeelOfDigitInverts` prove that they are
    exactly those inverses. */
module Tables {
  import opened Options
  import opened Decimal

  /** The letter-value table. */
  function LetterValue(c: char): (r: Option<Dec>)
    ensures r.Some? ==> Canonical(r.value)
    ensures r.Some? && r.value.frac == [] ==> 1 <= r.value.whole <= 1000
    ensures r.Some? && r.value.frac != [] ==>
              |r.value.frac| == 2 && r.value.frac[0] == 0 && 1 <= r.value.frac[1] <= 3
    ensures r.Some? && r.value.frac != [] ==>
              r.value.whole == 0 || LetterOfValue(r.value.whole).Some?
  {
    match c
    case 'ا' => Some(Dec(1, []))        // alif
    case 'ب' => Some(Dec(2, []))        // ba
    case 'ج' => Some(Dec(3, []))        // jim
    case 'د' => Some(Dec(4, []))        // dal
    case 'ه' => Some(Dec(5, []))        // ha
    case 'و' => Some(Dec(6, []))        // waw
    case 'ز' => Some(Dec(7, []))        // zay
    case 'ح' => Some(Dec(8, []))        // hha
    case 'ط' => Some(Dec(9, []))        // tta
    case 'ي' => Some(Dec(10, []))       // ya
    case 'ك' => Some(Dec(20, []))       // kaf
    case 'ل' => Some(Dec(30, []))       // lam
    case 'م' => Some(Dec(40, []))       // mim
    case 'ن' => Some(Dec(50, []))       // nun
    case 'س' => Some(Dec(60, []))       // sin
    case 'ع' => Some(Dec(70, []))       // ain
    case 'ف' => Some(Dec(80, []))       // fa
    case 'ص' => Some(Dec(90, []))       // sad
    case 'ق' => Some(Dec(100, []))      // qaf
    case 'ر' => Some(Dec(200, []))      // ra
    case 'ش' => Some(Dec(300, []))      // shin
    case 'ت' => Some(Dec(400, []))      // ta
    case 'ث' => Some(Dec(500, []))      // tha
    case 'خ' => Some(Dec(600, []))      // kha
    case 'ذ' => Some(Dec(700, []))      // dhal
    case 'ض' => Some(Dec(800, []))      // dad
    case 'ظ' => Some(Dec(900, []))      // dha
    case 'غ' => Some(Dec(1000, []))     // ghain
    case 'أ' => Some(Dec(1, [0, 1]))    // alif with hamza above, 1.01
    case 'إ' => Some(Dec(1, [0, 2]))    // alif with hamza below, 1.02
    case 'آ' => Some(Dec(1, [0, 3]))    // alif with madda, 1.03
    case 'ء' => Some(Dec(0, [0, 1]))    // lone hamza, 0.01
    case 'ى' => Some(Dec(10, [0, 2]))   // alif maqsura, 10.02
    case 'ؤ' => Some(Dec(6, [0, 1]))    // waw with hamza, 6.01
    case 'ئ' => Some(Dec(10, [0, 1]))   // ya with hamza, 10.01
    case 'ة' => Some(Dec(400, [0, 1]))  // ta marbuta, 400.01
    case _ => None
  }

  /** The diacritic order table. */
  function TashkeelDigit(c: char): (r: Option<Digit>)
    ensures r.Some? ==> 1 <= r.value <= 9 && r.value != 5
  {
    match c
    case '\U{064E}' => Some(1)  // fatha
    case '\U{064F}' => Some(2)  // damma
    case '\U{0650}' => Some(3)  // kasra
    case '\U{0652}' => Some(4)  // sukun
    case '\U{0651}' => Some(6)  // shadda
    case '\U{064B}' => Some(7)  // tanwin fath
    case '\U{064C}' => Some(8)  // tanwin damm
    case '\U{064D}' => Some(9)  // tanwin kasr
    case _ => None
  }

  /** How the encoder treats a character: the letter-value table is
      consulted first, then the diacritic table; anything else is other. */
  datatype CharClass = LetterChar(value: Dec) | MarkChar(digit: Digit) | OtherChar

  function Classify(c: char): (r: CharClass)
    ensures r.LetterChar? <==> LetterValue(c).Some?
    ensures r.LetterChar? ==> LetterValue(c) == Some(r.value)
    ensures r.MarkChar? <==> TashkeelDigit(c).Some?
    ensures r.MarkChar? ==> TashkeelDigit(c) == Some(r.digit)
  {
    match LetterValue(c)
    case Some(v) => LetterChar(v)
    case None =>
      match TashkeelDigit(c)
      case Some(d) => MarkChar(d)
      case None => OtherChar
  }

  predicate IsLetter(c: char) {
    Classify(c).LetterChar?
  }

  /** One of the 28 letters with an integral value. */
  predicate IsBaseLetter(c: char) {
    IsLetter(c) && Classify(c).value.frac == []
  }

  predicate IsTashkeel(c: char) {
    Classify(c).MarkChar?
  }

  /** The decoder's reverse letter table, keyed by integral letter value. */
  function LetterOfValue(n: int): Option<char>
  {
    match n
    case 1 => Some('ا')
    case 2 => Some('ب')
    case 3 => Some('ج')
    case 4 => Some('د')
    case 5 => Some('ه')
    case 6 => Some('و')
    case 7 => Some('ز')
    case 8 => Some('ح')
    case 9 => Some('ط')
    case 10 => Some('ي')
    case 20 => Some('ك')
    case 30 => Some('ل')
    case 40 => Some('م')
    case 50 => Some('ن')
    case 60 => Some('س')
    case 70 => Some('ع')
    case 80 => Some('ف')
    case 90 => Some('ص')
    case 100 => Some('ق')
    case 200 => Some('ر')
    case 300 => Some('ش')
    case 400 => Some('ت')
    case 500 => Some('ث')
    case 600 => Some('خ')
    case 700 => Some('ذ')
    case 800 => Some('ض')
    case 900 => Some('ظ')
    case 1000 => Some('غ')
    case _ => None
  }

  /** The decoder's reverse diacritic table, keyed by digit. */
  function TashkeelOfDigit(d: int): Option<char>
  {
    match d
    case 1 => Some('\U{064E}')
    case 2 => Some('\U{064F}')
    case 3 => Some('\U{0650}')
    case 4 => Some('\U{0652}')
    case 6 => Some('\U{0651}')
    case 7 => Some('\U{064B}')
    case 8 => Some('\U{064C}')
    case 9 => Some('\U{064D}')
    case _ => None
  }

  /** The integral letter values: the keys of the reverse letter table. */
  const AbjadNumbers: set<int> :=
    {1, 2, 3, 4, 5, 6, 7, 8, 9, 10, 20, 30, 40, 50, 60, 70, 80, 90,
     100, 200, 300, 400, 500, 600, 700, 800, 900, 1000}

  /** The reverse letter table holds exactly the integral entries of the
      letter-value table, each once: a key `n` maps to `c` if and only if `c`
      has the integral value `n`. */
  lemma LetterOfValueInverts(c: char, n: nat)
    ensures LetterOfValue(n) == Some(c) <==> LetterValue(c) == Some(Dec(n, []))
  {
  }

  lemma LetterOfValueKeys(n: int)
    ensures LetterOfValue(n).Some? <==> n in AbjadNumbers
  {
  }

  /** The base letter values are pairwise distinct, so reversing them loses
      nothing. */
  lemma BaseValuesDistinct(c1: char, c2: char)
    requires LetterValue(c1).Some? && LetterValue(c1).value.frac == []
    requires LetterValue(c1) == LetterValue(c2)
    ensures c1 == c2
  {
    var n := LetterValue(c1).value.whole;
    LetterOfValueInverts(c1, n);
    LetterOfValueInverts(c2, n);
  }

  const Units: set<int> := {1, 2, 3, 4, 5, 6, 7, 8, 9}
  const Tens: set<int> := {10, 20, 30, 40, 50, 60, 70, 80, 90}
  const Hundreds: set<int> := {100, 200, 300, 400, 500, 600, 700, 800, 900, 1000}

  /** There are 28 integral letter values: nine units, nine tens, and nine
      hundreds with one thousand. */
  lemma AbjadNumbersCount()
    ensures |AbjadNumbers| == 28
  {
    RanksCount();
    RanksDisjoint();
    assert AbjadNumbers == Units + Tens + Hundreds;
  }

  lemma RanksCount()
    ensures |Units| == 9 && |Tens| == 9 && |Hundreds| == 10
  {
    UnitsCount();
    TensCount();
    HundredsCount();
  }

  lemma UnitsCount()
    ensures |Units| == 9
  {
  }

  lemma TensCount()
    ensures |Tens| == 9
  {
  }

  lemma HundredsCount()
    ensures |Hundreds| == 10
  {
  }

  lemma RanksDisjoint()
    ensures Units * Tens == {} && (Units + Tens) * Hundreds == {}
  {
    assert forall x :: x in Units + Tens ==> x < 100;
  }

  /** No two diacritics share a digit. */
  lemma TashkeelDigitsDistinct(c1: char, c2: char)
    requires TashkeelDigit(c1).Some? && TashkeelDigit(c1) == TashkeelDigit(c2)
    ensures c1 == c2
  {
    TashkeelOfDigitInverts(c1, TashkeelDigit(c1).value);
    TashkeelOfDigitInverts(c2, TashkeelDigit(c1).value);
  }

  /** The reverse diacritic table is a bijection between the digits
      1-4, 6-9 and the eight diacritics. */
  lemma TashkeelOfDigitInverts(c: char, d: int)
    ensures TashkeelOfDigit(d) == Some(c) <==> TashkeelDigit(c) == Some(d)
  {
  }

  lemma TashkeelOfDigitKeys(d: int)
    ensures TashkeelOfDigit(d).Some? <==> 1 <= d <= 9 && d != 5
  {
  }

  /** The digits of the diacritics of a text, in order; other characters
      are skipped. */
  function TashkeelDigits(s: string): (r: seq<Digit>)
    ensures |r| <= |s|
    ensures forall i :: 0 <= i < |r| ==> 1 <= r[i] <= 9 && r[i] != 5
    ensures (forall i :: 0 <= i < |s| ==> IsTashkeel(s[i])) ==> |r| == |s|
    decreases |s|
  {
    if s == [] then []
    else match Classify(s[0])
      case MarkChar(d) => [d] + TashkeelDigits(s[1..])
      case _ => TashkeelDigits(s[1..])
  }

  lemma {:induction false} TashkeelDigitsAppend(a: string, b: string)
    ensures TashkeelDigits(a + b) == TashkeelDigits(a) + TashkeelDigits(b)
    decreases |a|
  {
    if a == [] {
      assert a + b == b;
    } else {
      assert (a + b)[1..] == a[1..] + b;
      TashkeelDigitsAppend(a[1..], b);
    }
  }

  /** No character is in both tables. */
  lemma TablesDisjoint(c: char)
    ensures !(LetterValue(c).Some? && TashkeelDigit(c).Some?)
  {
  }
}
