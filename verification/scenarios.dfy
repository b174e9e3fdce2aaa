/** Worked inputs that pin down the quirks of the as-written behaviour. */
module Scenarios {
  import opened Wrappers
  import opened Text
  import opened Sections
  import opened Parsing
  import opened Scoring

  lemma KeyOneRejectsEleven()
    ensures ScorePatternAt("11: 7", "1:", false).None?
  {
    assert !SameChar("11: 7"[1], "1:"[1], false);
  }

  lemma SpaceThenSeven()
    ensures SkipSpace(" 7") == "7" && DigitRun("7") == "7" && DigitsValue("7") == 7
  {
    assert IsSpace(' ') && !IsSpace('7');
  }

  lemma KeyOneMatchesAfterFirstDigit()
    ensures ScorePatternAt("1: 7", "1:", false) == Some(7)
  {
    assert KeyAt("1: 7", "1:", false);
    SpaceThenSeven();
    assert "1: 7"[|"1:"|..] == " 7";
  }

  /** The search for `1:` is leftmost and unanchored, so in the answer
      "11: 7" it finds the `1:` inside `11:` and section 1 gets 7. */
  lemma IndexOneMatchesInsideEleven()
    ensures MegaScoreFor("11: 7", 1) == 7
  {
    assert MegaKey(1) == "1:" by {
      assert Decimal(1) == "1";
    }
    KeyOneRejectsEleven();
    KeyOneMatchesAfterFirstDigit();
    assert "11: 7"[1..] == "1: 7";
    assert SearchScore("1: 7", "1:", false) == Some(7);
  }

  /** Two outline entries on pages 1 and 3 of a five-page PDF: the first
      section reads 0-based pages 0..2, that is pages 1 to 3, and the second
      pages 3 to 5, so page 3 belongs to both. */
  lemma IntroAndMethodsSpans()
    ensures PageSpan(OutlineEntry("Intro", 1, "H1"), Some(OutlineEntry("Methods", 3, "H1")), 5) == (0, 3)
    ensures PageSpan(OutlineEntry("Methods", 3, "H1"), None, 5) == (2, 5)
  {
  }

  lemma ArtInStart()
    ensures LowerStr("Start") == "start" && Contains("start", "art")
  {
    assert "start"[2..] == "art";
    assert Contains("start"[2..], "art");
    ContainsInSuffix("start", 2, "art");
  }

  /** `fast_keyword_score` matches substrings: the keyword "art" counts for
      the title "Start" (3 for the title match plus the base 3), although
      "start" and "art" are different tokens. */
  lemma SubstringMatchCountsInsideWords()
    ensures FastKeywordScore(Section("d.pdf", 1, "Start", None, ""), {"art"}, {}) == 6
  {
    ArtInStart();
    assert Occurring({"art"}, "start") == {"art"};
    assert Take("", SubstringPrefix) == "";
    assert Occurring({"art"}, LowerStr("")) == {};
  }
}
