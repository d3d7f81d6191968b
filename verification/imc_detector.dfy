/** The lexical detectors for the body-mass-index (IMC, "índice de massa
    corporal") exercise. They look at the raw text only, never at the
    syntax tree, so they also run on text that does not parse. */
module ImcDetector {
  import opened Strings

  /** Substrings whose presence marks the text as an IMC calculator. */
  const ImcKeywords: seq<string> := [
    "imc", "índice de massa corporal", "indice de massa corporal",
    "massa corporal", "body mass index", "bmi",
    "peso / (altura", "peso/(altura", "peso/(altura * altura)",
    "peso / (altura * altura)", "peso/altura**2", "peso / altura**2",
    "weight / (height", "weight/(height"
  ]

  /** Substrings that look like the IMC formula itself. */
  const FormulaPatterns: seq<string> := [
    "peso / (altura", "peso/(altura",
    "peso / altura**2", "peso/altura**2",
    "peso / (altura * altura)", "peso/(altura*altura)",
    "weight / (height", "weight/(height",
    "imc = peso", "bmi = weight"
  ]

  /** Substrings that look like a classification of the computed index. */
  const ClassificationKeywords: seq<string> := [
    "abaixo do peso", "peso normal", "sobrepeso", "obesidade",
    "underweight", "normal weight", "overweight", "obesity",
    "if imc <", "if imc >", "elif imc", "if bmi <", "if bmi >"
  ]

  /** Keys `lo` to `hi - 1` of the list are written in small letters: each
      is its own lower-cased form. */
  ghost predicate KeysSmall(keys: seq<string>, lo: int, hi: int) {
    forall i :: lo <= i < hi && 0 <= i < |keys| ==> Lower(keys[i]) == keys[i]
  }

  lemma ImcKeywordsSmall0To4()
    ensures KeysSmall(ImcKeywords, 0, 4)
  {
    assert ImcKeywords[0] == "imc";
    LowerFixesSmallText("imc");
    assert ImcKeywords[1] == "índice de massa corporal";
    LowerFixesSmallText("índice de massa corporal");
    assert ImcKeywords[2] == "indice de massa corporal";
    LowerFixesSmallText("indice de massa corporal");
    assert ImcKeywords[3] == "massa corporal";
    LowerFixesSmallText("massa corporal");
  }

  lemma ImcKeywordsSmall4To8()
    ensures KeysSmall(ImcKeywords, 4, 8)
  {
    assert ImcKeywords[4] == "body mass index";
    LowerFixesSmallText("body mass index");
    assert ImcKeywords[5] == "bmi";
    LowerFixesSmallText("bmi");
    assert ImcKeywords[6] == "peso / (altura";
    LowerFixesSmallText("peso / (altura");
    assert ImcKeywords[7] == "peso/(altura";
    LowerFixesSmallText("peso/(altura");
  }

  lemma ImcKeywordsSmall8To12()
    ensures KeysSmall(ImcKeywords, 8, 12)
  {
    assert ImcKeywords[8] == "peso/(altura * altura)";
    LowerFixesSmallText("peso/(altura * altura)");
    assert ImcKeywords[9] == "peso / (altura * altura)";
    LowerFixesSmallText("peso / (altura * altura)");
    assert ImcKeywords[10] == "peso/altura**2";
    LowerFixesSmallText("peso/altura**2");
    assert ImcKeywords[11] == "peso / altura**2";
    LowerFixesSmallText("peso / altura**2");
  }

  lemma ImcKeywordsSmall12To14()
    ensures KeysSmall(ImcKeywords, 12, 14)
  {
    assert ImcKeywords[12] == "weight / (height";
    LowerFixesSmallText("weight / (height");
    assert ImcKeywords[13] == "weight/(height";
    LowerFixesSmallText("weight/(height");
  }

  /** The calculator keywords are written in small letters, so matching them against the lower-cased text ignores case. */
  lemma ImcKeywordsAreSmall()
    ensures KeysSmall(ImcKeywords, 0, |ImcKeywords|)
  {
    ImcKeywordsSmall0To4();
    ImcKeywordsSmall4To8();
    ImcKeywordsSmall8To12();
    ImcKeywordsSmall12To14();
  }

  lemma FormulaPatternsSmall0To4()
    ensures KeysSmall(FormulaPatterns, 0, 4)
  {
    assert FormulaPatterns[0] == "peso / (altura";
    LowerFixesSmallText("peso / (altura");
    assert FormulaPatterns[1] == "peso/(altura";
    LowerFixesSmallText("peso/(altura");
    assert FormulaPatterns[2] == "peso / altura**2";
    LowerFixesSmallText("peso / altura**2");
    assert FormulaPatterns[3] == "peso/altura**2";
    LowerFixesSmallText("peso/altura**2");
  }

  lemma FormulaPatternsSmall4To8()
    ensures KeysSmall(FormulaPatterns, 4, 8)
  {
    assert FormulaPatterns[4] == "peso / (altura * altura)";
    LowerFixesSmallText("peso / (altura * altura)");
    assert FormulaPatterns[5] == "peso/(altura*altura)";
    LowerFixesSmallText("peso/(altura*altura)");
    assert FormulaPatterns[6] == "weight / (height";
    LowerFixesSmallText("weight / (height");
    assert FormulaPatterns[7] == "weight/(height";
    LowerFixesSmallText("weight/(height");
  }

  lemma FormulaPatternsSmall8To10()
    ensures KeysSmall(FormulaPatterns, 8, 10)
  {
    assert FormulaPatterns[8] == "imc = peso";
    LowerFixesSmallText("imc = peso");
    assert FormulaPatterns[9] == "bmi = weight";
    LowerFixesSmallText("bmi = weight");
  }

  /** The formula patterns are written in small letters. */
  lemma FormulaPatternsAreSmall()
    ensures KeysSmall(FormulaPatterns, 0, |FormulaPatterns|)
  {
    FormulaPatternsSmall0To4();
    FormulaPatternsSmall4To8();
    FormulaPatternsSmall8To10();
  }

  lemma ClassificationKeywordsSmall0To4()
    ensures KeysSmall(ClassificationKeywords, 0, 4)
  {
    assert ClassificationKeywords[0] == "abaixo do peso";
    LowerFixesSmallText("abaixo do peso");
    assert ClassificationKeywords[1] == "peso normal";
    LowerFixesSmallText("peso normal");
    assert ClassificationKeywords[2] == "sobrepeso";
    LowerFixesSmallText("sobrepeso");
    assert ClassificationKeywords[3] == "obesidade";
    LowerFixesSmallText("obesidade");
  }

  lemma ClassificationKeywordsSmall4To8()
    ensures KeysSmall(ClassificationKeywords, 4, 8)
  {
    assert ClassificationKeywords[4] == "underweight";
    LowerFixesSmallText("underweight");
    assert ClassificationKeywords[5] == "normal weight";
    LowerFixesSmallText("normal weight");
    assert ClassificationKeywords[6] == "overweight";
    LowerFixesSmallText("overweight");
    assert ClassificationKeywords[7] == "obesity";
    LowerFixesSmallText("obesity");
  }

  lemma ClassificationKeywordsSmall8To12()
    ensures KeysSmall(ClassificationKeywords, 8, 12)
  {
    assert ClassificationKeywords[8] == "if imc <";
    LowerFixesSmallText("if imc <");
    assert ClassificationKeywords[9] == "if imc >";
    LowerFixesSmallText("if imc >");
    assert ClassificationKeywords[10] == "elif imc";
    LowerFixesSmallText("elif imc");
    assert ClassificationKeywords[11] == "if bmi <";
    LowerFixesSmallText("if bmi <");
  }

  lemma ClassificationKeywordsSmall12To13()
    ensures KeysSmall(ClassificationKeywords, 12, 13)
  {
    assert ClassificationKeywords[12] == "if bmi >";
    LowerFixesSmallText("if bmi >");
  }

  /** The classification keywords are written in small letters. */
  lemma ClassificationKeywordsAreSmall()
    ensures KeysSmall(ClassificationKeywords, 0, |ClassificationKeywords|)
  {
    ClassificationKeywordsSmall0To4();
    ClassificationKeywordsSmall4To8();
    ClassificationKeywordsSmall8To12();
    ClassificationKeywordsSmall12To13();
  }

  /** Some key of the list occurs in `s`. */
  ghost predicate SomeKeyIn(keys: seq<string>, s: string) {
    exists i :: 0 <= i < |keys| && Contains(s, keys[i])
  }

  /** A scan of `keys` in order that stops at the first key found in `s`. */
  function AnyKeyword(keys: seq<string>, s: string): (r: bool)
    ensures r <==> SomeKeyIn(keys, s)
  {
    if |keys| == 0 then false
    else if Contains(s, keys[0]) then true
    else
      assert forall i :: 1 <= i < |keys| ==> keys[i] == keys[1..][i - 1];
      AnyKeyword(keys[1..], s)
  }

  /** `detect_imc_calculator`: some IMC keyword occurs in the lower-cased text. */
  function DetectImcCalculator(code: string): (r: bool)
    ensures r <==> SomeKeyIn(ImcKeywords, Lower(code))
  {
    AnyKeyword(ImcKeywords, Lower(code))
  }

  /** `detect_functional_imc_calculation`: the lower-cased text converts to
      float, contains one of the formula shapes, and prints or returns. */
  function DetectFunctionalImcCalculation(code: string): (r: bool)
    ensures r <==>
      && Contains(Lower(code), "float")
      && SomeKeyIn(FormulaPatterns, Lower(code))
      && (Contains(Lower(code), "print") || Contains(Lower(code), "return"))
  {
    var lower := Lower(code);
    var hasFloatConversion := Contains(lower, "float");
    var hasCalculation := AnyKeyword(FormulaPatterns, lower);
    var hasOutput := Contains(lower, "print") || Contains(lower, "return");
    hasFloatConversion && hasCalculation && hasOutput
  }

  /** The classification loop: walks `keys` in order and, at the FIRST key
      present in `s`, answers `hasConditionals` without looking further;
      answers false when no key is present. */
  function ScanClassification(keys: seq<string>, s: string, hasConditionals: bool): (r: bool)
    ensures r <==> hasConditionals && SomeKeyIn(keys, s)
  {
    if |keys| == 0 then false
    else if Contains(s, keys[0]) then hasConditionals
    else
      assert forall i :: 1 <= i < |keys| ==> keys[i] == keys[1..][i - 1];
      ScanClassification(keys[1..], s, hasConditionals)
  }

  /** `detect_imc_classification`. Although the loop returns at the first
      keyword it finds, the conditional test does not depend on which
      keyword that is, so the answer is a plain conjunction: some keyword,
      an `"if "` in the lower-cased text, and a colon in the ORIGINAL text. */
  function DetectImcClassification(code: string): (r: bool)
    ensures r <==>
      && SomeKeyIn(ClassificationKeywords, Lower(code))
      && Contains(Lower(code), "if ")
      && Contains(code, ":")
  {
    var lower := Lower(code);
    var hasConditionals := Contains(lower, "if ") && Contains(code, ":");
    ScanClassification(ClassificationKeywords, lower, hasConditionals)
  }

  /** A calculator keyword written verbatim in the text is detected: the
      keywords are in small letters, so lower-casing the text keeps every
      occurrence of them. */
  lemma VerbatimKeywordIsDetected(code: string, i: int)
    requires 0 <= i < |ImcKeywords|
    requires Contains(code, ImcKeywords[i])
    ensures DetectImcCalculator(code)
  {
    ImcKeywordsAreSmall();
    ContainsLower(code, ImcKeywords[i]);
  }

  /** Every formula shape contains one of the IMC keywords. */
  lemma FormulaPatternsCarryKeyword(i: int)
    requires 0 <= i < |FormulaPatterns|
    ensures SomeKeyIn(ImcKeywords, FormulaPatterns[i])
  {
    var p := FormulaPatterns[i];
    if i == 0 {
      assert ImcKeywords[6] <= p;
      assert Contains(p, ImcKeywords[6]);
    } else if i == 1 {
      assert ImcKeywords[7] <= p;
      assert Contains(p, ImcKeywords[7]);
    } else if i == 2 {
      assert ImcKeywords[11] <= p;
      assert Contains(p, ImcKeywords[11]);
    } else if i == 3 {
      assert ImcKeywords[10] <= p;
      assert Contains(p, ImcKeywords[10]);
    } else if i == 4 {
      assert ImcKeywords[9] <= p;
      assert Contains(p, ImcKeywords[9]);
    } else if i == 5 {
      assert ImcKeywords[7] <= p;
      assert Contains(p, ImcKeywords[7]);
    } else if i == 6 {
      assert ImcKeywords[12] <= p;
      assert Contains(p, ImcKeywords[12]);
    } else if i == 7 {
      assert ImcKeywords[13] <= p;
      assert Contains(p, ImcKeywords[13]);
    } else if i == 8 {
      assert ImcKeywords[0] <= p;
      assert Contains(p, ImcKeywords[0]);
    } else {
      assert ImcKeywords[5] <= p;
      assert Contains(p, ImcKeywords[5]);
    }
  }

  /** A functional calculation is always recognised as an IMC calculator,
      so the "calculation without calculator" combination never arises. */
  lemma FunctionalCalculationIsImc(code: string)
    ensures DetectFunctionalImcCalculation(code) ==> DetectImcCalculator(code)
  {
    var lower := Lower(code);
    if DetectFunctionalImcCalculation(code) {
      var i :| 0 <= i < |FormulaPatterns| && Contains(lower, FormulaPatterns[i]);
      FormulaPatternsCarryKeyword(i);
      var j :| 0 <= j < |ImcKeywords| && Contains(FormulaPatterns[i], ImcKeywords[j]);
      ContainsTransitive(lower, FormulaPatterns[i], ImcKeywords[j]);
    }
  }
}
