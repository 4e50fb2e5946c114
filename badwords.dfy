/** The safety filter of the mood detector: a fixed list of unkind words and a
    case-insensitive substring search for any of them. */
module BadWords {
  import opened Text

  /** The filtered entries, in the order the filter tries them. */
  const BAD_WORDS: seq<string> := ["hate", "stupid", "idiot", "dumb", "shut up"]

  /** Some entry of the list is a contiguous piece of the lowered text. */
  predicate HasBadWord(text: string) {
    exists i :: 0 <= i < |BAD_WORDS| && IsSubstring(BAD_WORDS[i], Lower(text))
  }

  /** The filter: lowers the text once, then tries each entry in turn and
      stops at the first one found in the lowered text. */
  method ContainsBadWords(text: string) returns (found: bool)
    ensures found <==> HasBadWord(text)
  {
    var textLower := Lower(text);
    var i := 0;
    while i < |BAD_WORDS|
      invariant 0 <= i <= |BAD_WORDS|
      invariant forall j :: 0 <= j < i ==> !IsSubstring(BAD_WORDS[j], textLower)
    {
      if IsSubstring(BAD_WORDS[i], textLower) {
        return true;
      }
      i := i + 1;
    }
    return false;
  }

  /** The filter ignores case: a text and its lowered form get the same verdict. */
  lemma CaseInsensitive(text: string)
    ensures HasBadWord(Lower(text)) <==> HasBadWord(text)
  {
    LowerIdempotent(text);
  }

  /** More generally, two texts that agree once lowered get the same verdict:
      "HATE", "Hate" and "hate" are all flagged. */
  lemma SameLowerSameVerdict(a: string, b: string)
    requires Lower(a) == Lower(b)
    ensures HasBadWord(a) <==> HasBadWord(b)
  {
  }

  /** The filter matches pieces of text, not whole words, so it is monotone:
      a text that contains a flagged text as a contiguous piece is flagged. */
  lemma Monotone(t: string, u: string)
    requires HasBadWord(t) && IsSubstring(t, u)
    ensures HasBadWord(u)
  {
    var i :| 0 <= i < |BAD_WORDS| && IsSubstring(BAD_WORDS[i], Lower(t));
    LowerSubstring(t, u);
    SubstringTransitive(BAD_WORDS[i], Lower(t), Lower(u));
  }

  /** Whitespace-only text is never flagged: every entry starts with a letter,
      and lowering leaves whitespace as it is. So the order of the blank check
      and the bad-word check in the classifier cannot change its answer. */
  lemma BlankNeverFlagged(text: string)
    requires IsBlank(text)
    ensures !HasBadWord(text)
  {
    forall i | 0 <= i < |BAD_WORDS| ensures !IsSubstring(BAD_WORDS[i], Lower(text)) {
      var w := BAD_WORDS[i];
      assert w[0] in w && !IsSpace(w[0]);
      assert w[0] !in Lower(text);
      MissingCharRulesOut(w, Lower(text), w[0]);
    }
  }

  /** An entry inside a longer word still counts: "Whatever" contains "hate". */
  lemma FlagsInsideWords()
    ensures HasBadWord("Whatever")
  {
    assert Lower("Whatever") == "whatever";
    assert OccursAt(BAD_WORDS[0], "whatever", 1);
  }

  /** The two-word entry is found when it appears with its space, in any case. */
  lemma MultiWordEntryFlagged()
    ensures HasBadWord("Shut UP")
  {
    assert Lower("Shut UP") == "shut up";
    assert OccursAt(BAD_WORDS[4], "shut up", 0);
  }

  /** Without the space the two-word entry is not found: "shutup" is not flagged. */
  lemma MultiWordEntryNeedsSpace()
    ensures !HasBadWord("shutup")
  {
    var t := Lower("shutup");
    assert t == "shutup";
    forall i | 0 <= i < |BAD_WORDS| ensures !IsSubstring(BAD_WORDS[i], t) {
      var c := ['a', 'i', 'i', 'd', ' '][i];
      assert c in BAD_WORDS[i] && c !in t;
      MissingCharRulesOut(BAD_WORDS[i], t, c);
    }
  }
}
