/**
 * Worked cases of `expand_abbreviations` on small excerpts of the lexicon:
 * the passes run longest key first, and each one reads the output of the
 * passes before it.
 */
module ExpanderExamples {
  import opened Wrappers
  import opened Chars
  import opened Patterns
  import opened Rewriting
  import opened Expander

  /** Three entries of the chat category, in dictionary order. */
  const AjTable: Table := [("aj", "aja"), ("ajh", "aja"), ("aja", "就好")]

  lemma AjSorted() ensures SortByLength(AjTable) == [("ajh", "aja"), ("aja", "就好"), ("aj", "aja")] { }

  lemma AjhPass() ensures Rewrite(WholeWord("ajh", "aja"), "ajh") == "aja"
  {
    WordPassWholeText("ajh", "aja", "ajh");
  }

  lemma AjaPass() ensures Rewrite(WholeWord("aja", "就好"), "aja") == "就好"
  {
    WordPassWholeText("aja", "就好", "aja");
  }

  lemma AjPassOnResult() ensures Rewrite(WholeWord("aj", "aja"), "就好") == "就好"
  {
    WordPassWithoutFirstChar("aj", "aja", "就好");
  }

  /**
   * The passes chain: `ajh` is first expanded to `aja`, which the next,
   * equally long key then expands again.
   */
  lemma ExpandAjhChains() ensures Expand(AjTable, "ajh") == "就好"
  {
    AjSorted();
    AjhPass();
    AjaPass();
    AjPassOnResult();
    var sorted := SortByLength(AjTable);
    assert ApplyInOrder(sorted[2..], "就好") == ApplyInOrder([], "就好");
    assert ApplyInOrder(sorted[1..], "aja") == ApplyInOrder(sorted[2..], "就好");
  }

  lemma AjhPassOnAj() ensures Rewrite(WholeWord("ajh", "aja"), "aj") == "aj"
  {
    WordPassShorterText("ajh", "aja", "aj");
  }

  lemma AjaPassOnAj() ensures Rewrite(WholeWord("aja", "就好"), "aj") == "aj"
  {
    WordPassShorterText("aja", "就好", "aj");
  }

  lemma AjPass() ensures Rewrite(WholeWord("aj", "aja"), "aj") == "aja"
  {
    WordPassWholeText("aj", "aja", "aj");
  }

  /** `aj` is expanded only by the last, shortest pass, so its `aja` is not expanded again. */
  lemma ExpandAjStops() ensures Expand(AjTable, "aj") == "aja"
  {
    AjSorted();
    AjhPassOnAj();
    AjaPassOnAj();
    AjPass();
    var sorted := SortByLength(AjTable);
    assert ApplyInOrder(sorted[2..], "aj") == ApplyInOrder([], "aja");
    assert ApplyInOrder(sorted[1..], "aj") == ApplyInOrder(sorted[2..], "aj");
  }

  /** The two entries of main.py:169-170. */
  const SmTable: Table := [("sm", "sama"), ("sm2", "sama-sama")]

  lemma SmSorted() ensures SortByLength(SmTable) == [("sm2", "sama-sama"), ("sm", "sama")] { }

  lemma Sm2Pass() ensures Rewrite(WholeWord("sm2", "sama-sama"), "sm2") == "sama-sama"
  {
    WordPassWholeText("sm2", "sama-sama", "sm2");
  }

  lemma SmPassOnResult() ensures Rewrite(WholeWord("sm", "sama"), "sama-sama") == "sama-sama"
  {
    assert !OccursAsWord("sm", "sama-sama");
    WordPassUnchanged("sm", "sama", "sama-sama");
  }

  /** The longer key wins: `sm2` becomes `sama-sama`, never `sama2`. */
  lemma ExpandSm2() ensures Expand(SmTable, "sm2") == "sama-sama"
  {
    SmSorted();
    Sm2Pass();
    SmPassOnResult();
    var sorted := SortByLength(SmTable);
    assert ApplyInOrder(sorted[1..], "sama-sama") == ApplyInOrder([], "sama-sama");
  }

  /** `\bsm\b` does not occur in `sm2` at all: the digit after `sm` is a word character. */
  lemma SmPassOnSm2() ensures Rewrite(WholeWord("sm", "sama"), "sm2") == "sm2"
  {
    assert !OccursAsWord("sm", "sm2");
    WordPassUnchanged("sm", "sama", "sm2");
  }

  /** Three entries whose expansions overlap, in dictionary order. */
  const TidurTable: Table := [("tidur", "睡覺"), ("t", "tidur"), ("tempat tidur", "床")]

  lemma TidurSorted() ensures SortByLength(TidurTable) == [("tempat tidur", "床"), ("tidur", "睡覺"), ("t", "tidur")] { }

  lemma TempatTidurPass() ensures Rewrite(WholeWord("tempat tidur", "床"), "tempat tidur") == "床"
  {
    WordPassWholeText("tempat tidur", "床", "tempat tidur");
  }

  lemma TidurPassOnBed() ensures Rewrite(WholeWord("tidur", "睡覺"), "床") == "床"
  {
    WordPassShorterText("tidur", "睡覺", "床");
  }

  lemma TPassOnBed() ensures Rewrite(WholeWord("t", "tidur"), "床") == "床"
  {
    WordPassWithoutFirstChar("t", "tidur", "床");
  }

  /** The two-word key is tried first, so `tempat tidur` is one word of the output. */
  lemma ExpandTempatTidur() ensures Expand(TidurTable, "tempat tidur") == "床"
  {
    TidurSorted();
    TempatTidurPass();
    TidurPassOnBed();
    TPassOnBed();
    var sorted := SortByLength(TidurTable);
    assert ApplyInOrder(sorted[2..], "床") == ApplyInOrder([], "床");
    assert ApplyInOrder(sorted[1..], "床") == ApplyInOrder(sorted[2..], "床");
  }

  lemma TempatTidurPassOnT() ensures Rewrite(WholeWord("tempat tidur", "床"), "t") == "t"
  {
    WordPassShorterText("tempat tidur", "床", "t");
  }

  lemma TidurPassOnT() ensures Rewrite(WholeWord("tidur", "睡覺"), "t") == "t"
  {
    WordPassShorterText("tidur", "睡覺", "t");
  }

  lemma TPass() ensures Rewrite(WholeWord("t", "tidur"), "t") == "tidur"
  {
    WordPassWholeText("t", "tidur", "t");
  }

  /** `t` is expanded after the `tidur` pass has run, so its `tidur` stays. */
  lemma ExpandT() ensures Expand(TidurTable, "t") == "tidur"
  {
    TidurSorted();
    TempatTidurPassOnT();
    TidurPassOnT();
    TPass();
    var sorted := SortByLength(TidurTable);
    assert ApplyInOrder(sorted[2..], "t") == ApplyInOrder([], "tidur");
    assert ApplyInOrder(sorted[1..], "t") == ApplyInOrder(sorted[2..], "t");
  }

  lemma TidurNoMatchBefore(j: nat)
    requires j < 7
    ensures Match(WholeWord("tidur", "睡覺"), "tempat tidur", j).None?
  {
    if j == 0 {
      assert "tempat tidur"[0..5][1] == 'e';
    } else if j == 6 {
      assert "tempat tidur"[6..11][0] == ' ';
    } else {
      assert !Boundary("tempat tidur", j);
    }
  }

  lemma TidurMatchAt7() ensures Match(WholeWord("tidur", "睡覺"), "tempat tidur", 7) == Some(Hit(12, "睡覺"))
  {
    assert "tempat tidur"[7..12] == "tidur";
  }

  lemma TidurText() ensures "tempat tidur"[0..7] + "睡覺" == "tempat 睡覺"
  {
    assert "tempat tidur"[0..7] == "tempat ";
  }

  lemma TidurPassInText() ensures Rewrite(WholeWord("tidur", "睡覺"), "tempat tidur") == "tempat 睡覺"
  {
    var rule := WholeWord("tidur", "睡覺");
    forall j | 0 <= j < 7 ensures Match(rule, "tempat tidur", j).None? {
      TidurNoMatchBefore(j);
    }
    RewriteFromUpTo(rule, "tempat tidur", 0, 7);
    TidurMatchAt7();
    RewriteFromAtMatch(rule, "tempat tidur", 7);
    TidurText();
  }

  lemma TPassInText() ensures Rewrite(WholeWord("t", "tidur"), "tempat 睡覺") == "tempat 睡覺"
  {
    assert !OccursAsWord("t", "tempat 睡覺");
    WordPassUnchanged("t", "tidur", "tempat 睡覺");
  }

  lemma TempatTidurPassAfter() ensures Rewrite(WholeWord("tempat tidur", "床"), "tempat 睡覺") == "tempat 睡覺"
  {
    WordPassShorterText("tempat tidur", "床", "tempat 睡覺");
  }

  /**
   * Why the keys are sorted: in dictionary order the one-word key `tidur`
   * would consume the second half of `tempat tidur` first.
   */
  lemma TempatTidurInDictionaryOrder() ensures ApplyInOrder(TidurTable, "tempat tidur") == "tempat 睡覺"
  {
    TidurPassInText();
    TPassInText();
    TempatTidurPassAfter();
    assert ApplyInOrder(TidurTable[2..], "tempat 睡覺") == ApplyInOrder([], "tempat 睡覺");
    assert ApplyInOrder(TidurTable[1..], "tempat 睡覺") == ApplyInOrder(TidurTable[2..], "tempat 睡覺");
  }
}
