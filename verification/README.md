# Abjad transcoder model

A Dafny model of `abgd.py`, a transcoder between Arabic text and numbers. Its
encoding is based on the abjad letter values:

- Each letter becomes its abjad value plus a decimal fraction. The fraction's
  digits are the codes of the diacritics (tashkeel) that follow the letter,
  sorted in ascending order.
- Every character that is neither a letter nor a diacritic becomes a
  placeholder.
- Decoding maps each number back to a letter through the integral table
  entries. Each fractional digit becomes a diacritic, and each placeholder
  becomes a space.

## How the model is organised

- `Decimal` holds exact non-negative decimals. A decimal is an integral part
  plus its fractional digits. It also defines their real value, exact
  addition and trailing-zero stripping. The program's tokens are binary
  floats; here they are these exact decimals.
- `Tables` holds the letter-value table and the diacritic-digit table, and the
  decoder's reverse tables. Proofs show that the reverse tables are exactly
  the inverses `abgd.py` builds at run time.
- `Diacritics` holds `merge_tashkeel`: sort the buffered digits and read them
  as `0.<digits>`.
- `Tokens` and `Encoder` hold `encode`:
  - `Encode` is a pure left-to-right scan over a state
    `(pending letter, buffer, output)`.
  - `EncodeLoop` and `ReadChar` model the loop as it is written, with state
    variables, and are proved equal to `Encode`.
- `Decoder` holds `decode`, token by token.
- `Properties` relates the two directions:
  - it views text as units, each one a letter with its diacritics or a single
    other character;
  - it proves that encoding yields one token per unit;
  - it proves the round trips in both directions on plain text;
  - it proves that diacritic order does not matter, that stray diacritics are
    carried forward, and that special forms do not round-trip.
- `Examples` gives concrete instances of these properties.

### Where the code departs from the obvious reading

The model follows the code in each case.

- The header comment on line 2 of `abgd.py` says shadda with fatha encodes as
  `0.61`. The code sorts the digits (line 30), so both orders give `0.16`
  (`Examples.ShaddaFathaOnBa`).
- Special forms might be expected to lose their tag, encoding `أ` as `1.0`,
  or to decode to `?`. The table on line 10 gives `أ` the value `1.01`:
  - `أ` therefore encodes to `1.01` and decodes to alif followed by a fatha
    (`Examples.AlifHamzaDecodesToFatha`);
  - only the lone hamza, with integral part 0, decodes to `?`
    (`Examples.LoneHamzaDecodesToUnknown`).
- A diacritic with no letter before it might be expected to be dropped. The
  buffer is cleared only when a letter is flushed (lines 44 and 52), so such
  a diacritic is added to the next letter's token, even across placeholders
  (`Properties.StrayMarksCarry`, `Examples.StrayFathaCarried`). This holds in
  the middle of a text too: a diacritic after a placeholder joins the next
  letter (`Properties.StrayMarksCarryAfter`, `Examples.MarkAfterPlaceholder`).
  It is lost only when no letter follows (`Properties.LetterFreeEncode`,
  `Properties.LetterFreeEncodeAfter`).

## Model

| member | source | states |
|---|---|---|
| `Tables.LetterValue` | abgd.py:5-11 | Every table value is canonical. An integral value lies in 1..1000. A non-integral value has an integral part that is a base value, or 0 for the lone hamza, plus a tag `0.0d` with d in 1..3. |
| `Tables.TashkeelDigit` | abgd.py:14-23 | Every diacritic digit lies in 1..9 and is never 5. |
| `Tables.Classify` | abgd.py:41-53 | The encoder treats a character as a letter exactly when it is in the letter table. It treats a character as a diacritic exactly when it is in the diacritic table. Either way, the table's entry is carried along. |
| `Tables.TablesDisjoint` | abgd.py:5-23 | No character is in both tables, so the order of the two tests in `encode` does not matter. |
| `Tables.LetterOfValueInverts` | abgd.py:63 | The reverse letter table maps `n` to `c` exactly when the letter table gives `c` the integral value `n`. Special forms are not keys. |
| `Tables.LetterOfValueKeys` | abgd.py:63 | The keys of the reverse letter table are exactly the integral abjad values. |
| `Tables.AbjadNumbersCount` | abgd.py:5-9 | There are 28 integral abjad values. |
| `Tables.BaseValuesDistinct` | abgd.py:5-9 | Two letters with the same integral value are the same letter, so inverting the base values loses nothing. |
| `Tables.TashkeelOfDigitInverts` | abgd.py:64 | The reverse diacritic table maps `d` to `c` exactly when the diacritic table maps `c` to `d`. |
| `Tables.TashkeelOfDigitKeys` | abgd.py:64 | The keys of the reverse diacritic table are exactly the digits 1-4 and 6-9. |
| `Tables.TashkeelDigitsDistinct` | abgd.py:14-23 | No two diacritics share a digit. |
| `Diacritics.Sort` | abgd.py:30 | The result is sorted ascending and is a permutation of the input. |
| `Diacritics.Merge` | abgd.py:26-31 | The empty buffer gives 0. Otherwise the result is below one and canonical. Its digits are ascending, and together with the dropped zeros they are the buffer's digits. When the buffer has no zero, the digits are exactly a permutation of the buffer. |
| `Diacritics.MergeDigits` | abgd.py:28-31 | The merged digits are all of the buffer's digits, in ascending order. The one exception is a buffer of zeros only, which merges to zero. The fraction is empty exactly when every buffered digit is 0. |
| `Diacritics.MergeValue` | abgd.py:26-31 | The merged value lies in [0, 1). It is strictly positive for a non-empty buffer of diacritic digits. |
| `Diacritics.MergeDependsOnlyOnMultiset` | abgd.py:30 | Two buffers holding the same digits in any order merge to the same number. |
| `Diacritics.MergeSorted` | abgd.py:30-31 | An ascending buffer without zeros merges to exactly its own digits. |
| `Decimal.Add` | abgd.py:43 | The sum is canonical and its value is the exact sum of the values. |
| `Decimal.AddToIntegral` | abgd.py:43 | Adding a merged fraction to an integral letter value appends the fraction's digits to that value. |
| `Decimal.CanonicalUnique` | abgd.py:70 | Two canonical decimals with the same value are equal, so the digit text after the point is determined by the number. |
| `Encoder.Encode` | abgd.py:34-58 | There is one token per letter and one placeholder per character that is neither a letter nor a diacritic, in reading order. The output length is that count. No token is an integer. |
| `Encoder.RunKinds` | abgd.py:40-53 | After reading a text from any state, one token has been added for each letter except the last, which stays pending. One placeholder has been added for each other non-diacritic character, in order. |
| `Encoder.RunAppend` | abgd.py:40-53 | Scanning a concatenation is the same as scanning its parts in turn. |
| `Encoder.ReadChar` | abgd.py:41-53 | One pass of the loop body, written with state variables, is one step of the scan. |
| `Encoder.EncodeLoop` | abgd.py:34-58 | The loop with its final flush returns exactly the tokens of `Encode`. |
| `Decoder.LetterOrUnknown` | abgd.py:71 | The result is `?` exactly when no letter has the integral value `n`. Otherwise it is the letter with that value. |
| `Decoder.Marks` | abgd.py:72 | The result is made only of diacritics. Their digits are the input digits that have a diacritic, in order. |
| `Decoder.MappedIgnoresZeros` | abgd.py:70-72 | Mapping the fraction text of a number (trailing zeros stripped, or `0` when integral) gives the same diacritics as mapping its digits. |
| `Decoder.DecodeToken` | abgd.py:67-77 | A placeholder gives a space. An integer gives its letter or `?`. A decimal gives the letter of its integral part or `?`, then exactly the diacritics of its fractional digits in stored order, with digits that have none dropped. Only diacritics follow the first character. |
| `Decoder.Mapped` | abgd.py:72 | Only digits that have a diacritic are kept, and the result is no longer than the input. |
| `Decoder.MappedOne` | abgd.py:72 | A single digit is kept exactly when it has a diacritic. |
| `Decoder.MappedAppend` | abgd.py:72 | Filtering a concatenation is filtering each part in turn, so every digit with a diacritic is kept, in the order given. |
| `Decoder.Decode` | abgd.py:61-78 | Every character of the text is a space, `?`, a base letter or a diacritic. Each token contributes exactly one character that is not a diacritic, so the text's length is the number of tokens plus the number of diacritics. |
| `Decoder.DecodeAppend` | abgd.py:65-78 | Decoding a concatenation of token lists gives the concatenation of their texts. |
| `Decoder.MarksOfTashkeelDigits` | abgd.py:64-72 | Turning a string of diacritics into digits and back gives the same string. |
| `Properties.EncodeUnits` | abgd.py:34-58 | On text made of letters, each followed by its diacritics, and of other characters, encoding gives one token per unit. Each letter's token is its value plus its merged diacritics, and each other character gives a placeholder. |
| `Properties.DecodeSyllable` | abgd.py:67-73 | A base letter followed by diacritics in ascending digit order decodes back to itself. |
| `Properties.DecodeEncode` | abgd.py:34-78 | For text made of base letters, each followed by diacritics in ascending digit order, and of spaces, decoding the encoding gives the text back. |
| `Properties.EncodeDecode` | abgd.py:34-78 | On placeholders and on numbers that have a base letter's integral part and ascending diacritic digits, encoding the decoding gives the tokens back. |
| `Properties.RunBufferOrder` | abgd.py:40-56 | Two scans whose buffers hold the same digits in a different order stay that way and finish with the same output. |
| `Properties.EncodePermutedMarks` | abgd.py:26-47 | Replacing a run of diacritics anywhere in a text by any permutation of it leaves the encoding unchanged. |
| `Properties.LetterFreeEncode` | abgd.py:46-56 | A text with no letter encodes to one placeholder per other character. A text of diacritics alone encodes to nothing. |
| `Properties.StrayMarksCarry` | abgd.py:38-56 | Diacritics before the first letter, even with other characters between them, are added to the first letter's token. The other characters still give their placeholders first. |
| `Properties.EncodeNonePending` | abgd.py:55-58 | When no letter is pending after a prefix, the final flush adds nothing, so the encoding is the tokens emitted so far. |
| `Properties.LetterFreeEncodeAfter` | abgd.py:46-56 | After any prefix that leaves no letter pending, a letter-free suffix adds one placeholder per other character and nothing for its diacritics. |
| `Properties.StrayMarksCarryAfter` | abgd.py:38-56 | After any prefix that leaves no letter pending, diacritics before the next letter, even with other characters between them, join that letter's buffer together with whatever the prefix left buffered. The other characters still give their placeholders first. |
| `Properties.EncodeLetter` | abgd.py:41-56 | A letter alone encodes to its table value. |
| `Properties.EncodeLetterMarks` | abgd.py:41-56 | A letter followed by diacritics encodes to one token: the letter's value plus the merged digits. |
| `Properties.EncodeSyllable` | abgd.py:26-56 | A base letter followed by diacritics in ascending order encodes to the letter's value with exactly those digits as its fraction. |
| `Properties.SpecialFormsNotRecovered` | abgd.py:63-72 | A special form alone decodes to two characters. The first is the letter of its integral part, or `?`. The second is the diacritic of its tag digit (line 10). It never decodes to itself. |
| `Examples.FathaShaddaOnBa` | abgd.py:26-56 | Ba with fatha then shadda encodes to `2.16`. |
| `Examples.MarkSwap` | abgd.py:30 | Two diacritics after any character encode the same in either order. |
| `Examples.ShaddaFathaSwap` | abgd.py:30 | On any letter, shadda then fatha encodes the same as fatha then shadda. |
| `Examples.ShaddaFathaOnBa` | abgd.py:26-31 | Ba with shadda then fatha also encodes to `2.16`, not `2.61`. |
| `Examples.AlifHamzaDecodesToFatha` | abgd.py:61-73 | Alif with hamza above, encoded alone and decoded, gives alif followed by a fatha. |
| `Examples.LoneHamzaDecodesToUnknown` | abgd.py:61-73 | The lone hamza, encoded and decoded, gives `?` followed by a fatha. |
| `Examples.StrayMarkCarried` | abgd.py:44-53 | A diacritic, then a character that is neither a letter nor a diacritic, then a base letter, encodes to a placeholder followed by the letter's value with that diacritic's digit. |
| `Examples.StrayFathaCarried` | abgd.py:44-53 | A fatha, then a space, then ba, encodes to a placeholder followed by `2.1`. |
| `Examples.MarkAfterPlaceholder` | abgd.py:41-56 | A base letter, another character, a diacritic and a second base letter encode to the first letter's value, a placeholder, and the second letter's value with the diacritic's digit. The diacritic is carried forward, not attached to the first letter. |

## Left out

- Binary floating point. Tokens are exact decimals, so the rounding of
  `last_base + merge_tashkeel(buffer)` is not modelled, and neither is the
  rounding of `str(float)`, such as spurious trailing digits. `str(float)` is
  modelled as the shortest decimal text. Its exponent form is not modelled,
  because `encode` never produces numbers small or large enough to need it.
- Negative, infinite and NaN floats, and `bool` tokens (a `bool` is an `int` in
  Python). `encode` produces none of these. The token type has no such cases.
- `isinstance` dispatch in `decode`. It is replaced by the token datatype
  `Placeholder | IntTok | DecTok`. The integer branch is kept even though
  `encode` never produces an integer.
- The Arabic comments and docstrings, which carry no logic.
- Decoder.Decode: its own contract does not state the content of the text.
  The content per token is stated by `Decoder.DecodeToken`, and
  `Decoder.DecodeAppend` states that the texts are concatenated in token order.
