/**
 * Worked examples of `toSlug`, proved one stage at a time so that each
 * evaluation on a literal stays small.
 */
module SlugExamples {
  import opened JsValues
  import JsText
  import opened StringUtils

  /** `toSlug` of a string, given the result of each of its stages. */
  lemma ToSlugByStages(x: string, m: string, r: string, w: string, t: string, u: string)
    requires StripMarks(x) == m && ReplaceSpecials(m) == r && CollapseNonWord(r) == w
    requires TrimUnderscores(w) == t && CollapseUnderscores(t) == u
    ensures ToSlug(Str(x)) == JsText.ToLower(u)
  {
  }

  /** The replacement table works one character at a time. */
  lemma {:induction false} ReplaceSpecialsConcat(a: string, b: string)
    ensures ReplaceSpecials(a + b) == ReplaceSpecials(a) + ReplaceSpecials(b)
  {
    if a != [] {
      assert (a + b)[1..] == a[1..] + b;
      assert ReplaceSpecials(a + b) == Replacement(a[0]) + ReplaceSpecials(a[1..] + b);
      ReplaceSpecialsConcat(a[1..], b);
    } else {
      assert a + b == b;
    }
  }

  lemma OperatorsMarks() ensures StripMarks("A&B+C=D") == "A&B+C=D" {}
  lemma OperatorsReplacedLeft() ensures ReplaceSpecials("A&B") == "A_and_B" {}
  lemma OperatorsReplacedRight() ensures ReplaceSpecials("+C=D") == "_plus_C_eq_D" {}
  lemma OperatorsReplaced() ensures ReplaceSpecials("A&B+C=D") == "A_and_B_plus_C_eq_D"
  {
    OperatorsReplacedLeft();
    OperatorsReplacedRight();
    ReplaceSpecialsConcat("A&B", "+C=D");
    assert "A&B+C=D" == "A&B" + "+C=D";
  }
  lemma OperatorsWords() ensures CollapseNonWord("A_and_B_plus_C_eq_D") == "A_and_B_plus_C_eq_D"
  {
    CollapseNonWordOfWord("A_and_B_plus_C_eq_D");
  }
  lemma OperatorsTrimmed() ensures TrimUnderscores("A_and_B_plus_C_eq_D") == "A_and_B_plus_C_eq_D" {}
  lemma OperatorsCollapsed() ensures CollapseUnderscores("A_and_B_plus_C_eq_D") == "A_and_B_plus_C_eq_D"
  {
    CollapseUnderscoresOfSlug("A_and_B_plus_C_eq_D");
  }
  lemma OperatorsLowered() ensures JsText.ToLower("A_and_B_plus_C_eq_D") == "a_and_b_plus_c_eq_d" {}

  /** `toSlug("A&B+C=D")` names each operator. */
  lemma ToSlugOperators(x: string)
    requires x == "A&B+C=D"
    ensures ToSlug(Str(x)) == "a_and_b_plus_c_eq_d"
  {
    OperatorsMarks();
    OperatorsReplaced();
    OperatorsWords();
    OperatorsTrimmed();
    OperatorsCollapsed();
    OperatorsLowered();
    var w := "A_and_B_plus_C_eq_D";
    ToSlugByStages(x, "A&B+C=D", w, w, w, w);
  }

  lemma ExclamationMarks() ensures StripMarks("Test!") == "Test!" {}
  lemma ExclamationReplaced() ensures ReplaceSpecials("Test!") == "Test_excl_" {}
  lemma ExclamationWords() ensures CollapseNonWord("Test_excl_") == "Test_excl_"
  {
    CollapseNonWordOfWord("Test_excl_");
  }
  lemma ExclamationTrimmed() ensures TrimUnderscores("Test_excl_") == "Test_excl" {}
  lemma ExclamationCollapsed() ensures CollapseUnderscores("Test_excl") == "Test_excl"
  {
    CollapseUnderscoresOfSlug("Test_excl");
  }
  lemma ExclamationLowered() ensures JsText.ToLower("Test_excl") == "test_excl" {}

  /** `toSlug("Test!")`: the trailing `_excl_` loses its last underscore. */
  lemma ToSlugExclamation(x: string)
    requires x == "Test!"
    ensures ToSlug(Str(x)) == "test_excl"
  {
    ExclamationMarks();
    ExclamationReplaced();
    ExclamationWords();
    ExclamationTrimmed();
    ExclamationCollapsed();
    ExclamationLowered();
    ToSlugByStages(x, "Test!", "Test_excl_", "Test_excl_", "Test_excl", "Test_excl");
  }

  lemma QuoteMarks() ensures StripMarks("\"") == "\"" {}
  lemma QuoteReplaced() ensures ReplaceSpecials("\"") == "_dquote_" {}
  lemma QuoteWords() ensures CollapseNonWord("_dquote_") == "_dquote_"
  {
    CollapseNonWordOfWord("_dquote_");
  }
  lemma QuoteTrimmed() ensures TrimUnderscores("_dquote_") == "dquote"
  {
    var s, t, u := "_dquote_", "dquote_", "dquote";
    assert s[0] == '_' && s[1..] == t && t[0] != '_';
    assert DropLeadingUnderscores(s) == t;
    assert t[|t| - 1] == '_' && t[..|t| - 1] == u && u[|u| - 1] != '_';
    assert DropTrailingUnderscores(t) == u;
  }
  lemma QuoteCollapsed() ensures CollapseUnderscores("dquote") == "dquote"
  {
    CollapseUnderscoresOfSlug("dquote");
  }
  lemma QuoteLowered() ensures JsText.ToLower("dquote") == "dquote" {}

  /** The double quote is replaced by the later of its two table entries. */
  lemma ToSlugDoubleQuote(x: string)
    requires x == "\""
    ensures ToSlug(Str(x)) == "dquote"
  {
    QuoteMarks();
    QuoteReplaced();
    QuoteWords();
    QuoteTrimmed();
    QuoteCollapsed();
    QuoteLowered();
    ToSlugByStages(x, "\"", "_dquote_", "_dquote_", "dquote", "dquote");
  }
}
