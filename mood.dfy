/** The mood classifier: blank text and unkind text are answered first with a
    fixed message; every other text is put in one of three bands by the
    sentiment polarity the text analysis library computed for it. The
    polarity is a parameter here, any real number. */
module Mood {
  import opened Text
  import opened BadWords

  const GRINNING_FACE: string := "\U{1F600}"
  const NEUTRAL_FACE: string := "\U{1F610}"
  const DISAPPOINTED_FACE: string := "\U{1F61E}"

  const EMPTY_PROMPT: string := "Please type something!"
  const KIND_REMINDER: string := "Let's keep our words kind and respectful!"

  /** Polarity strictly above this is happy. */
  const HAPPY_THRESHOLD: real := 0.1
  /** Polarity strictly below this is sad. */
  const SAD_THRESHOLD: real := -0.1

  /** The three bands a polarity falls into. */
  datatype Band = Happy | Sad | Neutral {
    function Emoji(): string {
      match this
      case Happy => GRINNING_FACE
      case Sad => DISAPPOINTED_FACE
      case Neutral => NEUTRAL_FACE
    }

    function Explanation(): string {
      match this
      case Happy => "Sounds happy and positive!"
      case Sad => "Sounds a bit sad or negative."
      case Neutral => "Sounds neutral or calm."
    }

    /** Position on the scale from sad to happy. */
    function Rank(): nat {
      match this
      case Sad => 0
      case Neutral => 1
      case Happy => 2
    }
  }

  /** What the classifier returns: an emoji, an explanation and a score. */
  datatype Analysis = Analysis(emoji: string, explanation: string, score: real)

  /** The if/elif/else on the polarity. Each band is described by an interval,
      the neutral one closed at both ends. */
  function BandOf(polarity: real): (b: Band)
    ensures b == Happy <==> HAPPY_THRESHOLD < polarity
    ensures b == Sad <==> polarity < SAD_THRESHOLD
    ensures b == Neutral <==> SAD_THRESHOLD <= polarity <= HAPPY_THRESHOLD
  {
    if polarity > HAPPY_THRESHOLD then Happy
    else if polarity < SAD_THRESHOLD then Sad
    else Neutral
  }

  /** The classifier. Blank text gets the prompt, text with a bad word gets the
      reminder, both with score 0.0; any other text is classified by its band
      and keeps its polarity as score. */
  function AnalyzeMood(text: string, polarity: real): (r: Analysis)
    ensures r.score == if IsBlank(text) || HasBadWord(text) then 0.0 else polarity
    ensures r.emoji == GRINNING_FACE <==>
              !IsBlank(text) && !HasBadWord(text) && polarity > HAPPY_THRESHOLD
    ensures r.emoji == DISAPPOINTED_FACE <==>
              !IsBlank(text) && !HasBadWord(text) && polarity < SAD_THRESHOLD
    ensures r.emoji == NEUTRAL_FACE <==>
              IsBlank(text) || HasBadWord(text) || SAD_THRESHOLD <= polarity <= HAPPY_THRESHOLD
  {
    StripEmptyIffBlank(text);
    if Strip(text) == [] then
      Analysis(NEUTRAL_FACE, EMPTY_PROMPT, 0.0)
    else if HasBadWord(text) then
      Analysis(NEUTRAL_FACE, KIND_REMINDER, 0.0)
    else
      var band := BandOf(polarity);
      Analysis(band.Emoji(), band.Explanation(), polarity)
  }

  /** Blank text gets the prompt, whatever the polarity. */
  lemma BlankGetsPrompt(text: string, polarity: real)
    requires IsBlank(text)
    ensures AnalyzeMood(text, polarity) == Analysis(NEUTRAL_FACE, EMPTY_PROMPT, 0.0)
  {
  }

  /** Text that is not blank and holds a bad word gets the reminder, whatever
      the polarity. */
  lemma UnkindGetsReminder(text: string, polarity: real)
    requires !IsBlank(text) && HasBadWord(text)
    ensures AnalyzeMood(text, polarity) == Analysis(NEUTRAL_FACE, KIND_REMINDER, 0.0)
  {
  }

  /** Any other text is answered from its polarity band alone. */
  lemma CleanTextGetsBand(text: string, polarity: real)
    requires !IsBlank(text) && !HasBadWord(text)
    ensures var b := BandOf(polarity);
            AnalyzeMood(text, polarity) == Analysis(b.Emoji(), b.Explanation(), polarity)
  {
  }

  /** The order of the two early checks does not matter: blank text never holds
      a bad word, so at most one of them applies. */
  lemma GuardsDisjoint(text: string)
    ensures !(IsBlank(text) && HasBadWord(text))
  {
    if IsBlank(text) {
      BlankNeverFlagged(text);
    }
  }

  /** The early answers do not look at the polarity. */
  lemma EarlyAnswerIgnoresPolarity(text: string, p: real, q: real)
    requires IsBlank(text) || HasBadWord(text)
    ensures AnalyzeMood(text, p) == AnalyzeMood(text, q)
  {
  }

  /** Past the early checks, the text itself no longer matters: two clean texts
      with the same polarity get the same answer. */
  lemma CleanAnswerDependsOnPolarityOnly(a: string, b: string, polarity: real)
    requires !IsBlank(a) && !HasBadWord(a) && !IsBlank(b) && !HasBadWord(b)
    ensures AnalyzeMood(a, polarity) == AnalyzeMood(b, polarity)
  {
  }

  /** Both thresholds themselves are neutral. */
  lemma ThresholdsAreNeutral()
    ensures BandOf(HAPPY_THRESHOLD) == Neutral && BandOf(SAD_THRESHOLD) == Neutral
  {
  }

  /** A higher polarity never gives a sadder band. */
  lemma BandMonotone(p: real, q: real)
    requires p <= q
    ensures BandOf(p).Rank() <= BandOf(q).Rank()
  {
  }

  /** Different bands give different emojis and different explanations, and
      neither early message is a band's explanation, so the answer tells which
      branch produced it. */
  lemma AnswersDistinct(b: Band, c: Band)
    ensures b != c ==> b.Emoji() != c.Emoji() && b.Explanation() != c.Explanation()
    ensures EMPTY_PROMPT != KIND_REMINDER
    ensures b.Explanation() != EMPTY_PROMPT && b.Explanation() != KIND_REMINDER
  {
  }

  /** The happy example of the teacher view: "I love pizza!" at polarity +0.5. */
  lemma HappyExample()
    ensures AnalyzeMood("I love pizza!", 0.5) == Analysis(GRINNING_FACE, "Sounds happy and positive!", 0.5)
  {
    NotFlagged("I love pizza!", ['h', 's', 'd', 'd', 's']);
    assert !IsSpace("I love pizza!"[0]);
    CleanTextGetsBand("I love pizza!", 0.5);
  }

  /** The neutral example of the teacher view: "I feel okay." at polarity 0.0. */
  lemma NeutralExample()
    ensures AnalyzeMood("I feel okay.", 0.0) == Analysis(NEUTRAL_FACE, "Sounds neutral or calm.", 0.0)
  {
    NotFlagged("I feel okay.", ['h', 's', 'd', 'd', 's']);
    assert !IsSpace("I feel okay."[0]);
    CleanTextGetsBand("I feel okay.", 0.0);
  }

  /** The sad example of the teacher view: "This is terrible." at polarity -1.0. */
  lemma SadExample()
    ensures AnalyzeMood("This is terrible.", -1.0) == Analysis(DISAPPOINTED_FACE, "Sounds a bit sad or negative.", -1.0)
  {
    NotFlagged("This is terrible.", ['a', 'u', 'd', 'd', 'u']);
    assert !IsSpace("This is terrible."[0]);
    CleanTextGetsBand("This is terrible.", -1.0);
  }

  /** A text is not flagged when, for each entry, some character of that entry
      is the lowered form of no character of the text. */
  lemma NotFlagged(text: string, missing: seq<char>)
    requires |missing| == |BAD_WORDS|
    requires forall i :: 0 <= i < |BAD_WORDS| ==> missing[i] in BAD_WORDS[i]
    requires forall i, j :: 0 <= i < |BAD_WORDS| && 0 <= j < |text| ==> LowerChar(text[j]) != missing[i]
    ensures !HasBadWord(text)
  {
  }
}
