# Mood2Emoji decision rule in Dafny

Mood2Emoji is a small web form. It takes a sentence and answers with an emoji,
a short explanation and a score. The answer comes from an ordered chain of checks in `app.py`:

1. blank text gets the prompt "Please type something!";
2. text holding an entry of the fixed bad-word list gets a reminder to be kind;
3. any other text is put in one of three bands by its sentiment polarity:
   above 0.1 is happy, below -0.1 is sad, anything else is neutral.

The project models that rule in three modules:

- `Text` (`text.dfy`) models the Python string operations the rule uses.
  `Strip` is `str.strip()`, built from `TrimLeft` and `TrimRight`.
  `Lower` is `str.lower()`. `IsSubstring` is `w in t`.
- `BadWords` (`badwords.dfy`) holds the list `BAD_WORDS` and the specification
  `HasBadWord`: some entry occurs in the lowered text.
  It also holds the filter `ContainsBadWords`, a method with the source's loop and early exit.
  The method is proved to return exactly `HasBadWord`.
- `Mood` (`mood.dfy`) holds the classifier `AnalyzeMood(text, polarity)`, a pure function.
  It returns the source's triple as `Analysis(emoji, explanation, score)`.
  `AnalyzeMood` is written with `HasBadWord`, the specification `ContainsBadWords` is proved to compute.
  A function cannot call a method, so it does not call the method itself.

The sentiment library is not modelled. The polarity it computes is the
`polarity: real` parameter of `AnalyzeMood`, and it may be any real number.
The classifier uses it only in the third branch, and `EarlyAnswerIgnoresPolarity` proves this.

The code and its own teacher-mode description differ in one place.
The flow diagram (app.py:59) says the first check is "Is text empty?".
The code tests `not text.strip()` instead, so whitespace-only text also gets the prompt.
The model follows the code.

## Model

| member | source | states |
|---|---|---|
| Text.TrimLeft | app.py:21 | the leading-whitespace half of `strip`: the result is a suffix of the input, everything dropped is whitespace, and the result does not start with whitespace |
| Text.TrimRight | app.py:21 | the trailing-whitespace half of `strip`: the result is a prefix, everything dropped is whitespace, and the result does not end with whitespace |
| Text.Strip | app.py:21 | `text.strip()` occurs in the text at some offset, is surrounded only by whitespace, and neither starts nor ends with whitespace |
| Text.StripEmptyIffBlank | app.py:21-22 | `not text.strip()` holds exactly when every character of the text is whitespace (both directions) |
| Text.Lower | app.py:10 | `text.lower()` has the same length and maps each character through the A–Z to a–z lowering |
| Text.LowerIdempotent | app.py:10 | lowering an already lowered text changes nothing |
| BadWords.ContainsBadWords | app.py:8-14 | the loop with early return answers true exactly when some entry of `BAD_WORDS` occurs as a contiguous piece of the lowered text |
| BadWords.CaseInsensitive | app.py:10 | a text and its lowered form get the same filter verdict |
| BadWords.SameLowerSameVerdict | app.py:10 | any two texts that are equal once lowered get the same verdict |
| BadWords.Monotone | app.py:11-13 | matching is by substring, not by whole word: a text containing a flagged text as a contiguous piece is flagged too |
| BadWords.BlankNeverFlagged | app.py:21-26 | whitespace-only text never holds a bad word, since every entry starts with a letter |
| BadWords.FlagsInsideWords | app.py:11-13 | an entry inside a longer word is found: "Whatever" is flagged because it contains "hate" |
| BadWords.MultiWordEntryFlagged | app.py:6 | the entry "shut up" is found in any letter case: "Shut UP" is flagged |
| BadWords.MultiWordEntryNeedsSpace | app.py:6 | "shut up" must appear with its space: "shutup" is not flagged by any entry |
| Mood.BandOf | app.py:33-41 | the polarity bands: happy exactly above 0.1, sad exactly below -0.1, neutral exactly on the closed interval [-0.1, 0.1]; the three are exhaustive and exclusive |
| Mood.AnalyzeMood | app.py:16-43 | the score is 0.0 for blank or unkind text and the polarity otherwise; each emoji is returned exactly when its branch's condition holds, in order of precedence |
| Mood.BlankGetsPrompt | app.py:21-22 | blank text gets ("😐", "Please type something!", 0.0), whatever the polarity |
| Mood.UnkindGetsReminder | app.py:25-26 | non-blank text with a bad word gets ("😐", "Let's keep our words kind and respectful!", 0.0), whatever the polarity |
| Mood.CleanTextGetsBand | app.py:29-43 | any other text gets its band's emoji and explanation, with the polarity as score |
| Mood.GuardsDisjoint | app.py:21-26 | the blank check and the bad-word check never both apply, so their order cannot change an answer |
| Mood.EarlyAnswerIgnoresPolarity | app.py:21-30 | when either early check applies, the answer is the same for every polarity |
| Mood.CleanAnswerDependsOnPolarityOnly | app.py:29-43 | two texts that both pass the early checks get the same answer at the same polarity |
| Mood.ThresholdsAreNeutral | app.py:33-41 | the boundary values 0.1 and -0.1 both fall into the neutral band |
| Mood.BandMonotone | app.py:33-41 | a higher polarity never gives a sadder band (sad < neutral < happy) |
| Mood.AnswersDistinct | app.py:22-41 | different bands give different emojis and explanations, and neither early message is a band's explanation |
| Mood.HappyExample | app.py:106 | "I love pizza!" at polarity +0.5 gives ("😀", "Sounds happy and positive!", 0.5) |
| Mood.NeutralExample | app.py:107 | "I feel okay." at polarity 0.0 gives ("😐", "Sounds neutral or calm.", 0.0) |
| Mood.SadExample | app.py:108 | "This is terrible." at polarity -1.0 gives ("😞", "Sounds a bit sad or negative.", -1.0) |

## Left out

- The sentiment computation (app.py:29-30) is a call into an external text analysis library. In the model it is the `polarity` parameter, with no range assumed.
- Floating point: the model compares thresholds on mathematical reals, so `0.1` is exactly one tenth, not the nearest double.
- Text.Lower: maps only ASCII A–Z to a–z. Python's `str.lower()` also lowers non-ASCII letters, and some of them lower to more than one character.
- Text.IsSpace: fixed to the characters for which Python 3's `str.isspace()` is true: U+0009–U+000D, U+001C–U+0020, U+0085, U+00A0, U+1680, U+2000–U+200A, U+2028, U+2029, U+202F, U+205F and U+3000. Other Python versions or Unicode databases may differ.
- `show_teacher_mode` and `main` (app.py:45-171) are user-interface wiring: static text, widgets and layout. This includes the 200-character input limit (app.py:129) and the "Please enter a sentence first!" warning for an empty field (app.py:134, 151-152).
- The formatting of the score to two decimals (app.py:148) is display only.
- The unused `re` import (app.py:3) has no behaviour.
