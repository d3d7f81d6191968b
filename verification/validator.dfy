/** `validate_python_code`: the verdict on one submitted text. Four
    shapes: empty text (no parse at all), a syntax error, any other parser
    failure, and a text that parsed, whose skill level comes from
    `analyze_skill_level`. */
module Validator {
  import opened Wrappers
  import opened Strings
  import opened Syntax
  import opened ImcDetector
  import opened Scoring

  /** `error_message`, as a tag plus the parser's text where there is one. */
  datatype ErrorMessage =
    | NoError                  // the initial ""
    | EmptyCode                // "O código está vazio."
    | SyntaxMessage(text: string)   // str(e) of the SyntaxError
    | Unexpected(text: string)      // "Unexpected error: " + str(e)

  datatype ValidationResult = ValidationResult(
    valid: bool,
    errorMessage: ErrorMessage,
    errorLine: int,
    skill: SkillAssessment)

  /** `not code or code.strip() == ""`. */
  predicate IsBlank(code: string): (r: bool)
    ensures r <==> forall k :: 0 <= k < |code| ==> IsSpace(code[k])
  {
    |code| == 0 || Strip(code) == ""
  }

  /** The assessment of an empty text. */
  const EmptyAssessment := SkillAssessment(Vazio, 0, None, NoImcAnalysis)

  /** `validate_python_code(code, python_version)`, given what `ast.parse(code)`
      does. `pythonVersion` is accepted and ignored, as in the source. */
  function ValidatePythonCode(code: string, pythonVersion: string, parse: ParseOutcome): (r: ValidationResult)
    ensures IsScaleScore(r.skill.score)
    ensures r.valid <==> !IsBlank(code) && parse.Ok?
    ensures IsBlank(code) ==> r == ValidationResult(false, EmptyCode, -1, EmptyAssessment)
    ensures !IsBlank(code) && parse.SyntaxErr? ==>
      && !r.valid
      && r.errorMessage == SyntaxMessage(parse.msg)
      && r.errorLine == parse.line
      && r.skill.level == ComErros && r.skill.score == 25 && r.skill.features.None?
      && r.skill.imc == ImcAnalysis(DetectImcCalculator(code), false, false, NaoAtendeCriterios)
    ensures !IsBlank(code) && parse.OtherErr? ==>
      r == ValidationResult(false, Unexpected(parse.msg), -1,
                            SkillAssessment(ComErros, 25, None, NoImcAnalysis))
    ensures r.valid ==> r.errorMessage == NoError && r.errorLine == -1
    ensures r.valid ==> r.skill == AnalyzeSkillLevel(code, parse)
    ensures r.valid ==> (r.skill.features.None? <==> HasDict(parse.nodes))
    ensures r.valid && HasDict(parse.nodes) ==> r.skill == DefaultAssessment
  {
    if IsBlank(code) then
      ValidationResult(false, EmptyCode, -1, EmptyAssessment)
    else
      match parse
      case Ok(_) =>
        ValidationResult(true, NoError, -1, AnalyzeSkillLevel(code, parse))
      case SyntaxErr(msg, line) =>
        var imc := ImcAnalysis(DetectImcCalculator(code), false, false, NaoAtendeCriterios);
        ValidationResult(false, SyntaxMessage(msg), line, SkillAssessment(ComErros, 25, None, imc))
      case OtherErr(msg) =>
        ValidationResult(false, Unexpected(msg), -1, SkillAssessment(ComErros, 25, None, NoImcAnalysis))
  }

  /** An empty text never reaches the parser: its verdict is the same
      whatever the parser would have done, and so is it for every version
      hint. */
  lemma BlankNeverParsed(code: string, v1: string, v2: string, p1: ParseOutcome, p2: ParseOutcome)
    requires IsBlank(code)
    ensures ValidatePythonCode(code, v1, p1) == ValidatePythonCode(code, v2, p2)
  {
  }

  /** A text with the IMC formula, a float conversion and an output, but no
      classification, is judged Crítico with 50 points on both scales. */
  lemma CalculationWithoutClassificationIsCritico(code: string, v: string, nodes: seq<Node>)
    requires !IsBlank(code) && !HasDict(nodes)
    requires DetectFunctionalImcCalculation(code) && !DetectImcClassification(code)
    ensures var r := ValidatePythonCode(code, v, Ok(nodes));
      && r.valid
      && r.skill.level == Critico && r.skill.score == 50
      && r.skill.imc.level == ImcCritico
  {
    FunctionalCalculationIsImc(code);
  }

  /** With a classification as well (a classification keyword, an `if ` and
      a colon), a dictionary-free tree gives Desejável with 100 points on
      both scales. */
  lemma CalculationWithClassificationIsDesejavel(code: string, v: string, nodes: seq<Node>)
    requires !IsBlank(code) && !HasDict(nodes)
    requires DetectFunctionalImcCalculation(code) && DetectImcClassification(code)
    ensures var r := ValidatePythonCode(code, v, Ok(nodes));
      && r.valid
      && r.skill.level == Desejavel && r.skill.score == 100
      && r.skill.imc.level == ImcDesejavel
  {
    FunctionalCalculationIsImc(code);
  }
}
