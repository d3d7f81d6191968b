/** `analyze_skill_level`: the skill level and score of a text that
    parsed, combining the feature count with the IMC detectors. The IMC
    rules take priority over the generic, feature-weighted rules. */
module Scoring {
  import opened Wrappers
  import opened Strings
  import opened Syntax
  import opened Features
  import opened ImcDetector

  /** The skill levels the analyser reports. */
  datatype Level = Vazio | ComErros | Iniciante | Intermediario | Avancado | Critico | Desejavel

  /** The level of the IMC analysis. */
  datatype ImcLevel = NaoAtendeCriterios | ImcCritico | ImcDesejavel

  /** The label stored and displayed for a skill level. */
  function LevelLabel(l: Level): string {
    match l
    case Vazio => "Vazio"
    case ComErros => "Com Erros"
    case Iniciante => "Iniciante"
    case Intermediario => "Intermediário"
    case Avancado => "Avançado"
    case Critico => "Crítico"
    case Desejavel => "Desejável"
  }

  /** The label stored and displayed for an IMC level. */
  function ImcLevelLabel(l: ImcLevel): string {
    match l
    case NaoAtendeCriterios => "Não Atende Critérios"
    case ImcCritico => "Crítico"
    case ImcDesejavel => "Desejável"
  }

  datatype ImcAnalysis = ImcAnalysis(
    isImcCalculator: bool,
    hasFunctionalCalculation: bool,
    hasClassification: bool,
    level: ImcLevel)

  /** `features` is `None` where the source reports the empty dictionary. */
  datatype SkillAssessment = SkillAssessment(
    level: Level,
    score: int,
    features: Option<FeatureCounts>,
    imc: ImcAnalysis)

  /** The all-false IMC analysis of the fallback results. */
  const NoImcAnalysis := ImcAnalysis(false, false, false, NaoAtendeCriterios)

  /** What `analyze_skill_level` returns when its body raises. */
  const DefaultAssessment := SkillAssessment(Iniciante, 0, None, NoImcAnalysis)

  /** The fixed scale of scores. */
  predicate IsScaleScore(score: int) {
    score in {0, 25, 50, 75, 100}
  }

  /** The score that goes with each level whenever a level is computed
      (the fallback result is the one exception: Iniciante with 0). */
  function ScoreOf(l: Level): (score: int)
    ensures IsScaleScore(score)
  {
    match l
    case Vazio => 0
    case ComErros => 25
    case Iniciante => 25
    case Intermediario => 50
    case Critico => 50
    case Avancado => 75
    case Desejavel => 100
  }

  /** `features_score`: the counters weighted 2, 3, 1, 3, 3, 2, 2, 4, 2, 5. */
  function WeightedScore(f: FeatureCounts): nat {
    f.functions * 2
    + f.classes * 3
    + f.imports
    + f.comprehensions * 3
    + f.errorHandling * 3
    + f.advancedTypes * 2
    + f.docstrings * 2
    + f.decorators * 4
    + f.complexStructures * 2
    + f.advancedFeatures * 5
  }

  /** `lines_of_code`: the number of pieces of `code.split('\n')`, i.e. one
      more than the number of newlines. */
  function LineCount(code: string): (n: nat)
    ensures n == CountChar(code, '\n') + 1
  {
    |Split(code, '\n')|
  }

  /** The `is_empty` rule of the generic branch. */
  predicate IsEmptyCode(lines: nat, f: FeatureCounts) {
    lines <= 1 || (lines <= 3 && f.functions == 0)
  }

  /** Level and score of a text the IMC detector recognises: decided by the
      two sub-detectors alone. */
  function ImcGrade(hasCalculation: bool, hasClassification: bool): (g: (Level, int))
    ensures g.1 == ScoreOf(g.0)
    ensures g.0 in {Desejavel, Critico, ComErros}
    ensures g.0 == Desejavel <==> hasCalculation && hasClassification
    ensures g.0 == Critico <==> hasCalculation && !hasClassification
  {
    if hasCalculation && hasClassification then (Desejavel, 100)
    else if hasCalculation then (Critico, 50)
    else (ComErros, 25)
  }

  /** Level and score of any other text: Vazio for the short texts of the
      `is_empty` rule, otherwise by thresholds 15 and 8 on the weighted sum. */
  function GenericGrade(lines: nat, f: FeatureCounts): (g: (Level, int))
    ensures g.1 == ScoreOf(g.0)
    ensures g.0 in {Vazio, Iniciante, Intermediario, Avancado}
    ensures g.0 == Vazio <==> IsEmptyCode(lines, f)
    ensures g.0 == Avancado <==> !IsEmptyCode(lines, f) && WeightedScore(f) >= 15
    ensures g.0 == Intermediario <==> !IsEmptyCode(lines, f) && 8 <= WeightedScore(f) < 15
  {
    if IsEmptyCode(lines, f) then (Vazio, 0)
    else
      var weighted := WeightedScore(f);
      if weighted >= 15 then (Avancado, 75)
      else if weighted >= 8 then (Intermediario, 50)
      else (Iniciante, 25)
  }

  /** The IMC level: Desejável needs the calculator, the calculation and the
      classification; Crítico the calculator and the calculation only. */
  function ImcLevelOf(isImc: bool, hasCalculation: bool, hasClassification: bool): (l: ImcLevel)
    ensures l == ImcDesejavel <==> isImc && hasCalculation && hasClassification
    ensures l == ImcCritico <==> isImc && hasCalculation && !hasClassification
  {
    if isImc && hasCalculation && hasClassification then ImcDesejavel
    else if isImc && hasCalculation then ImcCritico
    else NaoAtendeCriterios
  }

  /** The IMC analysis of a text, from the three detectors. */
  function AnalyseImc(code: string): (a: ImcAnalysis)
    ensures a.isImcCalculator == DetectImcCalculator(code)
    ensures a.hasFunctionalCalculation == DetectFunctionalImcCalculation(code)
    ensures a.hasClassification == DetectImcClassification(code)
    ensures a.level == ImcDesejavel <==> a.isImcCalculator && a.hasFunctionalCalculation && a.hasClassification
    ensures a.level == ImcCritico <==> a.isImcCalculator && a.hasFunctionalCalculation && !a.hasClassification
  {
    var isImc := DetectImcCalculator(code);
    var hasCalc := DetectFunctionalImcCalculation(code);
    var cls := DetectImcClassification(code);
    ImcAnalysis(isImc, hasCalc, cls, ImcLevelOf(isImc, hasCalc, cls))
  }

  /** `analyze_skill_level(code)`, given what `ast.parse(code)` does. When the
      parse or the feature pass raises, the fallback result comes back. */
  function AnalyzeSkillLevel(code: string, parse: ParseOutcome): (r: SkillAssessment)
    ensures IsScaleScore(r.score)
    ensures r.features.None? <==> !parse.Ok? || HasDict(parse.nodes)
    ensures r.features.None? ==> r == DefaultAssessment
    ensures r.features.Some? ==>
      && r.score == ScoreOf(r.level)
      && (forall k :: Get(r.features.value, k) == Occurrences(parse.nodes, k))
      && r.imc == AnalyseImc(code)
    ensures r.features.Some? && DetectImcCalculator(code) ==>
      (r.level, r.score) == ImcGrade(DetectFunctionalImcCalculation(code), DetectImcClassification(code))
    ensures r.features.Some? && !DetectImcCalculator(code) ==>
      && (r.level, r.score) == GenericGrade(LineCount(code), r.features.value)
      && r.level in {Vazio, Iniciante, Intermediario, Avancado}
      && (r.level == Vazio <==> IsEmptyCode(LineCount(code), r.features.value))
  {
    if !parse.Ok? then DefaultAssessment
    else
      match CountFeatures(parse.nodes)
      case None => DefaultAssessment
      case Some(f) =>
        var imc := AnalyseImc(code);
        var g := if DetectImcCalculator(code) then
                   ImcGrade(imc.hasFunctionalCalculation, imc.hasClassification)
                 else
                   GenericGrade(LineCount(code), f);
        SkillAssessment(g.0, g.1, Some(f), imc)
  }

  /** Over dictionary-free trees (a dictionary display makes the analysis
      fall back), a recognised IMC calculator is scored by the
      sub-detectors only: the nodes of the tree play no part, and the IMC
      analysis of any text does not depend on the tree. */
  lemma ImcScoringIgnoresFeatures(code: string, a: seq<Node>, b: seq<Node>)
    requires !HasDict(a) && !HasDict(b)
    ensures AnalyzeSkillLevel(code, Ok(a)).imc == AnalyzeSkillLevel(code, Ok(b)).imc
    ensures DetectImcCalculator(code) ==>
      && AnalyzeSkillLevel(code, Ok(a)).level == AnalyzeSkillLevel(code, Ok(b)).level
      && AnalyzeSkillLevel(code, Ok(a)).score == AnalyzeSkillLevel(code, Ok(b)).score
  {
  }

  /** For a recognised calculator the skill level and the IMC level tell the
      same story; for any other text the IMC level is always
      "Não Atende Critérios". */
  lemma ImcLevelMatchesSkillLevel(code: string, parse: ParseOutcome)
    requires AnalyzeSkillLevel(code, parse).features.Some?
    ensures var r := AnalyzeSkillLevel(code, parse);
      && (r.imc.isImcCalculator ==>
            && (r.level == Desejavel <==> r.imc.level == ImcDesejavel)
            && (r.level == Critico <==> r.imc.level == ImcCritico)
            && (r.level == ComErros <==> r.imc.level == NaoAtendeCriterios))
      && (!r.imc.isImcCalculator ==> r.imc.level == NaoAtendeCriterios)
  {
    var r := AnalyzeSkillLevel(code, parse);
    FunctionalCalculationIsImc(code);
  }

  /** Raising counters never lowers the generic grade. */
  lemma GenericGradeMonotone(lines: nat, f: FeatureCounts, g: FeatureCounts)
    requires forall k :: Get(f, k) <= Get(g, k)
    ensures GenericGrade(lines, f).1 <= GenericGrade(lines, g).1
  {
    assert Get(f, Functions) <= Get(g, Functions);
    assert Get(f, Classes) <= Get(g, Classes);
    assert Get(f, Imports) <= Get(g, Imports);
    assert Get(f, Comprehensions) <= Get(g, Comprehensions);
    assert Get(f, ErrorHandling) <= Get(g, ErrorHandling);
    assert Get(f, AdvancedTypes) <= Get(g, AdvancedTypes);
    assert Get(f, Docstrings) <= Get(g, Docstrings);
    assert Get(f, Decorators) <= Get(g, Decorators);
    assert Get(f, ComplexStructures) <= Get(g, ComplexStructures);
    assert Get(f, AdvancedFeatures) <= Get(g, AdvancedFeatures);
  }

  /** Between two trees of the same text that is not an IMC calculator,
      the one with at least as many constructs of every category scores at
      least as high (dictionary displays aside, which make the analysis
      fall back). */
  lemma MoreConstructsNeverLowerScore(code: string, a: seq<Node>, b: seq<Node>)
    requires !HasDict(a) && !HasDict(b)
    requires !DetectImcCalculator(code)
    requires forall k :: Occurrences(a, k) <= Occurrences(b, k)
    ensures AnalyzeSkillLevel(code, Ok(a)).score <= AnalyzeSkillLevel(code, Ok(b)).score
  {
    GenericGradeMonotone(LineCount(code), CountFeatures(a).value, CountFeatures(b).value);
  }

  /** One more construct in an otherwise unchanged text that is not an IMC
      calculator can only keep or raise its score, as long as the construct
      is not a dictionary display. */
  lemma OneMoreNodeNeverLowersScore(code: string, nodes: seq<Node>, n: Node)
    requires !HasDict(nodes) && !n.Dict?
    requires !DetectImcCalculator(code)
    ensures AnalyzeSkillLevel(code, Ok(nodes)).score <= AnalyzeSkillLevel(code, Ok(nodes + [n])).score
  {
    var more := nodes + [n];
    assert more[..|more| - 1] == nodes;
    assert !HasDict(more) by {
      forall i | 0 <= i < |more| ensures !more[i].Dict? {
        if i < |nodes| { assert more[i] == nodes[i]; }
      }
    }
    forall k ensures Occurrences(nodes, k) <= Occurrences(more, k) {
      assert Occurrences(more, k) == Occurrences(nodes, k) + Contribution(n, k);
    }
    MoreConstructsNeverLowerScore(code, nodes, more);
  }
}
