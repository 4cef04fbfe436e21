/**
 * Whole messages through `process_message` with the lexicon of main.py.
 * Because the lexicon maps `jam` to `pukul` and expansion runs before the
 * time conversion, `jam 9` reaches the translator as `pukul 9`, while in
 * `jam9` no key occurs as a word and the converter makes it `09:00`.
 */
module PipelineExamples {
  import opened Wrappers
  import opened Chars
  import opened Patterns
  import opened Rewriting
  import opened Expander
  import opened Polisher
  import opened Language
  import opened TimeConverter
  import opened Lexicon
  import opened Pipeline
  import TimeExamples
  import ExpanderExamples

  /** The texts that a key would have to equal to occur in the example messages. */
  const Excluded: set<string> :=
    {"jam9", "jam ", "jam 9", " ", " 9", "9", "pukul", "pukul ", "pukul 9", "sama", "sama-", "sama-sama", "-", "-sama"}

  /** A lower-case key, not excluded, `jam` expanded to `pukul` and `sm2` to `sama-sama`. */
  predicate FitsEntry(e: (Key, string))
  {
    NoAsciiUpper(e.0) && e.0 !in Excluded && (e.0 == "jam" ==> e.1 == "pukul")
      && (e.0 == "sm2" ==> e.1 == "sama-sama")
  }

  predicate Fits(t: Table) { forall i :: 0 <= i < |t| ==> FitsEntry(t[i]) }

  lemma FitsAppend(a: Table, b: Table)
    requires Fits(a) && Fits(b)
    ensures Fits(a + b)
  {
    forall i | 0 <= i < |a + b| ensures FitsEntry((a + b)[i]) {
      if i >= |a| {
        assert (a + b)[i] == b[i - |a|];
      }
    }
  }

  lemma FitsMembers(t: Table)
    requires Fits(t)
    ensures forall e :: e in t ==> FitsEntry(e)
  {
  }

  lemma Part1Fits() ensures Fits(Part1) { }
  lemma Part2Fits() ensures Fits(Part2) { }
  lemma Part3Fits() ensures Fits(Part3) { }
  lemma Part4Fits() ensures Fits(Part4) { }
  lemma Part5Fits() ensures Fits(Part5) { }
  lemma Part6Fits() ensures Fits(Part6) { }
  lemma Part7Fits() ensures Fits(Part7) { }
  lemma Part8Fits() ensures Fits(Part8) { }
  lemma Part9Fits() ensures Fits(Part9) { }
  lemma Part10Fits() ensures Fits(Part10) { }
  lemma Part11Fits() ensures Fits(Part11) { }
  lemma Part12Fits() ensures Fits(Part12) { }
  lemma Part13Fits() ensures Fits(Part13) { }
  lemma Part14Fits() ensures Fits(Part14) { }
  lemma Part15Fits() ensures Fits(Part15) { }
  lemma Part16Fits() ensures Fits(Part16) { }
  lemma Part17Fits() ensures Fits(Part17) { }
  lemma Part18Fits() ensures Fits(Part18) { }
  lemma Part19Fits() ensures Fits(Part19) { }

  lemma LexiconFits() ensures Fits(IndonesianAbbreviations)
  {
    Part1Fits(); Part2Fits(); Part3Fits(); Part4Fits(); Part5Fits();
    Part6Fits(); Part7Fits(); Part8Fits(); Part9Fits(); Part10Fits();
    Part11Fits(); Part12Fits(); Part13Fits(); Part14Fits(); Part15Fits();
    Part16Fits(); Part17Fits(); Part18Fits(); Part19Fits();
    var t := Part1;
    t := t + Part2; FitsAppend(Part1, Part2);
    FitsAppend(t, Part3); t := t + Part3;
    FitsAppend(t, Part4); t := t + Part4;
    FitsAppend(t, Part5); t := t + Part5;
    FitsAppend(t, Part6); t := t + Part6;
    FitsAppend(t, Part7); t := t + Part7;
    FitsAppend(t, Part8); t := t + Part8;
    FitsAppend(t, Part9); t := t + Part9;
    FitsAppend(t, Part10); t := t + Part10;
    FitsAppend(t, Part11); t := t + Part11;
    FitsAppend(t, Part12); t := t + Part12;
    FitsAppend(t, Part13); t := t + Part13;
    FitsAppend(t, Part14); t := t + Part14;
    FitsAppend(t, Part15); t := t + Part15;
    FitsAppend(t, Part16); t := t + Part16;
    FitsAppend(t, Part17); t := t + Part17;
    FitsAppend(t, Part18); t := t + Part18;
    FitsAppend(t, Part19); t := t + Part19;
  }

  lemma JamInLexicon() ensures ("jam", "pukul") in IndonesianAbbreviations
  {
    assert ("jam", "pukul") in Part4;
  }

  /** The word boundaries of `jam 9` are 0, 3, 4 and 5. */
  lemma JamNineBounds(k: Key, j: nat)
    requires MatchesWordAt(k, "jam 9", j)
    ensures j in {0, 3, 4} && j + |k| in {3, 4, 5}
  {
    assert !Boundary("jam 9", 1) && !Boundary("jam 9", 2);
  }

  lemma JamNineSlices()
    ensures "jam 9"[0..3] == "jam" && "jam 9"[0..4] == "jam " && "jam 9"[0..5] == "jam 9"
    ensures "jam 9"[3..4] == " " && "jam 9"[3..5] == " 9" && "jam 9"[4..5] == "9"
  {
  }

  /** A lower-case key that occurs as a word in `jam 9` is the text between two of its boundaries. */
  lemma JamNineKeys(k: Key)
    requires NoAsciiUpper(k) && OccursAsWord(k, "jam 9")
    ensures k in {"jam", "jam ", "jam 9", " ", " 9", "9"}
  {
    var j :| 0 <= j <= 5 && MatchesWordAt(k, "jam 9", j);
    JamNineBounds(k, j);
    var w := "jam 9"[j..j + |k|];
    assert NoAsciiUpper(w) by {
      forall t | 0 <= t < |w| ensures !IsAsciiUpper(w[t]) {
        assert w[t] == "jam 9"[j + t];
      }
    }
    SameIgnoringCaseIsEqual(w, k);
    JamNineSlices();
    if j == 0 {
      assert |k| in {3, 4, 5};
    } else if j == 3 {
      assert |k| in {1, 2};
    } else {
      assert |k| == 1;
    }
  }

  /** The word boundaries of `pukul 9` are 0, 5, 6 and 7. */
  lemma PukulNineBounds(k: Key, j: nat)
    requires MatchesWordAt(k, "pukul 9", j)
    ensures j in {0, 5, 6} && j + |k| in {5, 6, 7}
  {
    assert !Boundary("pukul 9", 1) && !Boundary("pukul 9", 2) && !Boundary("pukul 9", 3) && !Boundary("pukul 9", 4);
  }

  lemma PukulNineSlices()
    ensures "pukul 9"[0..5] == "pukul" && "pukul 9"[0..6] == "pukul " && "pukul 9"[0..7] == "pukul 9"
    ensures "pukul 9"[5..6] == " " && "pukul 9"[5..7] == " 9" && "pukul 9"[6..7] == "9"
  {
  }

  lemma PukulNineKeys(k: Key)
    requires NoAsciiUpper(k) && OccursAsWord(k, "pukul 9")
    ensures k in {"pukul", "pukul ", "pukul 9", " ", " 9", "9"}
  {
    var j :| 0 <= j <= 7 && MatchesWordAt(k, "pukul 9", j);
    PukulNineBounds(k, j);
    var w := "pukul 9"[j..j + |k|];
    assert NoAsciiUpper(w) by {
      forall t | 0 <= t < |w| ensures !IsAsciiUpper(w[t]) {
        assert w[t] == "pukul 9"[j + t];
      }
    }
    SameIgnoringCaseIsEqual(w, k);
    PukulNineSlices();
    if j == 0 {
      assert |k| in {5, 6, 7};
    } else if j == 5 {
      assert |k| in {1, 2};
    } else {
      assert |k| == 1;
    }
  }

  /** `jam9` is one word, so a key occurs in it only as the whole text. */
  lemma JamNineClosedKeys(k: Key)
    requires NoAsciiUpper(k) && OccursAsWord(k, "jam9")
    ensures k == "jam9"
  {
    var j :| 0 <= j <= 4 && MatchesWordAt(k, "jam9", j);
    assert !Boundary("jam9", 1) && !Boundary("jam9", 2) && !Boundary("jam9", 3);
    assert j == 0 && |k| == 4;
    assert "jam9"[0..4] == "jam9";
    SameIgnoringCaseIsEqual("jam9"[j..j + |k|], k);
  }

  lemma SmInLexicon() ensures ("sm2", "sama-sama") in IndonesianAbbreviations
  {
    assert ("sm2", "sama-sama") in Part10;
  }

  /** `sm2` is one word, so a key occurs in it only as the whole text. */
  lemma SmTwoKeys(k: Key)
    requires NoAsciiUpper(k) && OccursAsWord(k, "sm2")
    ensures k == "sm2"
  {
    var j :| 0 <= j <= 3 && MatchesWordAt(k, "sm2", j);
    assert !Boundary("sm2", 1) && !Boundary("sm2", 2);
    assert j == 0 && |k| == 3;
    assert "sm2"[0..3] == "sm2";
    SameIgnoringCaseIsEqual("sm2"[j..j + |k|], k);
  }

  /** The word boundaries of `sama-sama` are 0, 4, 5 and 9. */
  lemma SamaSamaBounds(k: Key, j: nat)
    requires MatchesWordAt(k, "sama-sama", j)
    ensures j in {0, 4, 5} && j + |k| in {4, 5, 9}
  {
    assert !Boundary("sama-sama", 1) && !Boundary("sama-sama", 2) && !Boundary("sama-sama", 3);
    assert !Boundary("sama-sama", 6) && !Boundary("sama-sama", 7) && !Boundary("sama-sama", 8);
  }

  lemma SamaSamaSlices()
    ensures "sama-sama"[0..4] == "sama" && "sama-sama"[0..5] == "sama-" && "sama-sama"[0..9] == "sama-sama"
    ensures "sama-sama"[4..5] == "-" && "sama-sama"[4..9] == "-sama" && "sama-sama"[5..9] == "sama"
  {
  }

  /** A lower-case key that occurs as a word in `sama-sama` is the text between two of its boundaries. */
  lemma SamaSamaKeys(k: Key)
    requires NoAsciiUpper(k) && OccursAsWord(k, "sama-sama")
    ensures k in {"sama", "sama-", "sama-sama", "-", "-sama"}
  {
    var j :| 0 <= j <= 9 && MatchesWordAt(k, "sama-sama", j);
    SamaSamaBounds(k, j);
    var w := "sama-sama"[j..j + |k|];
    assert NoAsciiUpper(w) by {
      forall t | 0 <= t < |w| ensures !IsAsciiUpper(w[t]) {
        assert w[t] == "sama-sama"[j + t];
      }
    }
    SameIgnoringCaseIsEqual(w, k);
    SamaSamaSlices();
    if j == 0 {
      assert |k| in {4, 5, 9};
    } else if j == 4 {
      assert |k| in {1, 5};
    } else {
      assert |k| == 4;
    }
  }

  /** With the whole lexicon, `sm2` expands to `sama-sama`: its own key is longer than `sm`. */
  lemma ExpandSmTwo() ensures Expand(IndonesianAbbreviations, "sm2") == "sama-sama"
  {
    var t := IndonesianAbbreviations;
    LexiconFits();
    FitsMembers(t);
    SmInLexicon();
    forall e | e in t && e.0 != "sm2" && |e.0| >= 3 ensures !OccursAsWord(e.0, "sm2") {
      if OccursAsWord(e.0, "sm2") {
        SmTwoKeys(e.0);
      }
    }
    ExpanderExamples.Sm2Pass();
    forall e | e in t ensures !OccursAsWord(e.0, "sama-sama") {
      if OccursAsWord(e.0, "sama-sama") {
        SamaSamaKeys(e.0);
      }
    }
    ExpandLongestFirst(t, "sm2", "sama-sama", "sm2");
  }

  lemma JamMatchAtStart() ensures Match(WholeWord("jam", "pukul"), "jam 9", 0) == Some(Hit(3, "pukul"))
  {
    assert "jam 9"[0..3] == "jam";
  }

  lemma PukulNineText() ensures "pukul" + "jam 9"[3..] == "pukul 9"
  {
    assert "jam 9"[3..] == " 9";
  }

  /** The `jam` pass turns `jam 9` into `pukul 9`. */
  lemma JamPassOnJamNine() ensures Rewrite(WholeWord("jam", "pukul"), "jam 9") == "pukul 9"
  {
    var rule := WholeWord("jam", "pukul");
    JamMatchAtStart();
    RewriteFromAtMatch(rule, "jam 9", 0);
    assert Match(rule, "jam 9", 3).None? && Match(rule, "jam 9", 4).None?;
    RewriteFromWithoutMatch(rule, "jam 9", 3);
    PukulNineText();
  }

  /** With the whole lexicon, `jam 9` expands to `pukul 9`. */
  lemma ExpandJamNine() ensures Expand(IndonesianAbbreviations, "jam 9") == "pukul 9"
  {
    var t := IndonesianAbbreviations;
    LexiconFits();
    FitsMembers(t);
    JamInLexicon();
    forall e | e in t && e.0 != "jam" && |e.0| >= 3 ensures !OccursAsWord(e.0, "jam 9") {
      if OccursAsWord(e.0, "jam 9") {
        JamNineKeys(e.0);
      }
    }
    JamPassOnJamNine();
    forall e | e in t ensures !OccursAsWord(e.0, "pukul 9") {
      if OccursAsWord(e.0, "pukul 9") {
        PukulNineKeys(e.0);
      }
    }
    ExpandLongestFirst(t, "jam", "pukul", "jam 9");
  }

  /** With the whole lexicon, `jam9` is left as it is: no key is a word of it. */
  lemma ExpandJamNineClosed() ensures Expand(IndonesianAbbreviations, "jam9") == "jam9"
  {
    var t := IndonesianAbbreviations;
    LexiconFits();
    FitsMembers(t);
    forall e | e in t ensures !OccursAsWord(e.0, "jam9") {
      if OccursAsWord(e.0, "jam9") {
        JamNineClosedKeys(e.0);
      }
    }
    ExpandUnchanged(t, "jam9");
  }

  lemma JamNineIsIndonesian(detector: Detector) ensures DetectLanguage("jam 9", detector).0 == Some("indonesian")
  {
    assert Count("jam 9", Latin) == 3 && Count("jam 9", Ideograph) == 0;
  }

  lemma JamNineClosedIsIndonesian(detector: Detector) ensures DetectLanguage("jam9", detector).0 == Some("indonesian")
  {
    assert Count("jam9", Latin) == 3 && Count("jam9", Ideograph) == 0;
  }

  lemma PukulNinePreprocessed() ensures Preprocess("pukul 9", "indonesian") == "pukul 9"
  {
    assert NoLetterJFrom("pukul 9", 0);
    PreprocessUnchanged("pukul 9");
  }

  lemma JamNineClosedPreprocessed() ensures Preprocess("jam9", "indonesian") == "09:00"
  {
    DianPassWithoutDian(DianWithMinutes, "jam9");
    DianPassWithoutDian(DianHour, "jam9");
    TimeExamples.Jam9Closed(WordBoundary);
  }

  /**
   * An Indonesian message without surrounding space reaches the translator
   * lower-cased, expanded and pre-processed.
   */
  lemma IndonesianMessageSent(lexicon: Table, polish: PolishTable, detector: Detector, translator: Translator,
                              message: string, expanded: string, sent: string)
    requires Strip(message) == message && !IsBlank(message) && NoAsciiUpper(message)
    requires DetectLanguage(message, detector).0 == Some("indonesian")
    requires Expand(lexicon, message) == expanded && Preprocess(expanded, "indonesian") == sent
    ensures Process(lexicon, polish, detector, translator, message).request == Some(Request(sent, "id", "zh-TW"))
  {
    IndonesianBranch(lexicon, polish, detector, translator, message);
    LowerWithoutUpper(message);
  }

  lemma JamNineShape() ensures Strip("jam 9") == "jam 9" && !IsBlank("jam 9") && NoAsciiUpper("jam 9")
  {
    StripTrimmed("jam 9");
    assert !IsPunctuation("jam 9"[0]);
  }

  lemma JamNineClosedShape() ensures Strip("jam9") == "jam9" && !IsBlank("jam9") && NoAsciiUpper("jam9")
  {
    StripTrimmed("jam9");
    assert !IsPunctuation("jam9"[0]);
  }

  /**
   * `jam 9` reaches the translator as `pukul 9`: the lexicon's `jam` entry
   * fires before the time conversion could.
   */
  lemma JamNineReachesTranslatorAsPukul(polish: PolishTable, detector: Detector, translator: Translator)
    ensures Process(IndonesianAbbreviations, polish, detector, translator, "jam 9").request
      == Some(Request("pukul 9", "id", "zh-TW"))
  {
    JamNineShape();
    JamNineIsIndonesian(detector);
    ExpandJamNine();
    PukulNinePreprocessed();
    IndonesianMessageSent(IndonesianAbbreviations, polish, detector, translator, "jam 9", "pukul 9", "pukul 9");
  }

  /** `jam9` is not a lexicon word, so it reaches the translator converted to `09:00`. */
  lemma JamNineClosedReachesTranslatorAsClock(polish: PolishTable, detector: Detector, translator: Translator)
    ensures Process(IndonesianAbbreviations, polish, detector, translator, "jam9").request
      == Some(Request("09:00", "id", "zh-TW"))
  {
    JamNineClosedShape();
    JamNineClosedIsIndonesian(detector);
    ExpandJamNineClosed();
    JamNineClosedPreprocessed();
    IndonesianMessageSent(IndonesianAbbreviations, polish, detector, translator, "jam9", "jam9", "09:00");
  }
}
