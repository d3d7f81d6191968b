# Python code validator — a Dafny model

The application receives a piece of Python source text, judges whether it
parses, grades the author's skill from the constructs the text uses, checks
whether it looks like a BMI ("IMC", *índice de massa corporal*) calculator
written to an exercise's criteria, and lists advisory suggestions (long
lines, mixed indentation, missing docstrings, mutable defaults, bare
`except`, unused imports). A small configuration module loads `KEY=VALUE`
lines from a `.env` file into the environment and reads the database URL
and the session key from it.

This project models those pieces as pure Dafny functions over immutable
data and proves what they promise:

| module | file | models |
|---|---|---|
| `Wrappers` | `wrappers.dfy` | `Option` |
| `Strings` | `strings.dfy` | `str.strip`, `str.lower`, `in` on strings, `str.split`/`join` on one separator |
| `Syntax` | `syntax.dfy` | the parts of Python's syntax tree the analyses look at, and the outcome of `ast.parse` |
| `ImcDetector` | `imc_detector.dfy` | the three keyword detectors |
| `Features` | `features.dfy` | the feature count over the tree walk |
| `Scoring` | `scoring.dfy` | `analyze_skill_level` |
| `Validator` | `validator.dfy` | `validate_python_code` |
| `Suggestions` | `suggestions.dfy` | `suggest_improvements` |
| `EnvConfig` | `env_config.dfy` | `load_env_from_file` and the two settings of `config.py` |

**The parser is a parameter.** `ast.parse` is not modelled. Every operation
that parses takes a `ParseOutcome` instead:

- `Ok(nodes)`, where `nodes` is the sequence `ast.walk` yields;
- `SyntaxErr(msg, line)`;
- `OtherErr(msg)`, any other exception.

Each `Node` keeps only the fields the analyses read. Examples are a
function's name, line, whether it has decorators or a docstring, and the
kinds of its defaults. `analyze_skill_level` parses the text a second time.
Parsing is deterministic, so it receives the same outcome.

**Where the code and the prose around it disagree, the code is followed.** The
docstring at `validator.py:14` says `python_version` selects the version to
validate against, and the branch at `validator.py:186-188` is written to
count large dictionaries as complex structures. In the code:

- `python_version` is accepted and never used.
- A dictionary display anywhere in the tree makes the feature pass raise.
  Line 187 of `validator.py` calls `node.keys`, which is a list. The blanket
  handler then returns the fallback assessment: "Iniciante", score 0, empty
  features, all-false IMC analysis. The model reproduces this
  (`Features.CountFeatures` returns `None`). So no dictionary ever counts as
  a complex structure; only lists with more than five elements do.
- A syntax error yields "Com Erros"/25. Its IMC analysis runs only the
  calculator detector.
- A text of one line counts as empty ("Vazio") in the generic branch. So
  does one of up to three lines with no function definition, whatever else
  it contains.
- A function with several mutable defaults draws one warning per default,
  not one per function.
- `import x as y` records `x`, and `import a.b` records `"a.b"`. Both are
  therefore reported as unused however the module is referenced.
- The `.env` loader stops at the first line it cannot apply. That is a line
  with no `=`, or one whose key is empty or whose key or value holds a null
  character, which the environment rejects. Earlier assignments stay in
  place.

## Model

| member | source | states |
|---|---|---|
| Strings.Strip | validator.py:26 | stripping yields the empty text exactly when every character is whitespace in Python's sense |
| Strings.TrimBounds | config.py:12 | the cut points leave only stripped characters outside them, and the first and last characters between them are kept ones |
| Strings.Trim | config.py:12 | the result is a contiguous slice of the input, with only stripped characters removed on either side, and starts and ends with a kept character |
| Strings.Lower | validator.py:281 | lower-casing keeps the length and maps each character on its own |
| Strings.LowerFixesSmallText | validator.py:281 | a text without capitals is unchanged by lower-casing |
| Strings.LowerIdempotent | validator.py:281 | lower-casing an already lower-cased text changes nothing |
| Strings.ContainsLower | validator.py:281-294 | if a keyword occurs in a text, its lower-cased form occurs in the lower-cased text |
| Strings.ContainsIff | validator.py:294 | the substring test holds exactly when the keyword occurs at some position of the text |
| Strings.Split | validator.py:134 | splitting on a separator yields one more piece than there are separators, and no piece contains it |
| Strings.JoinSplit | validator.py:379 | joining the pieces of a split with the separator gives back the original text |
| Strings.SplitJoin | validator.py:379 | splitting a join of separator-free pieces gives back the pieces |
| ImcDetector.AnyKeyword | validator.py:293-297 | the first-match scan over a keyword list answers true exactly when some keyword occurs in the text |
| ImcDetector.DetectImcCalculator | validator.py:271-297 | a text is a calculator exactly when one of the fourteen keywords occurs in its lower-cased form |
| ImcDetector.DetectFunctionalImcCalculation | validator.py:299-333 | true exactly when the lower-cased text mentions `float`, one of the ten formula patterns, and `print` or `return` |
| ImcDetector.ScanClassification | validator.py:358-362 | the loop that returns the conditional flag at the first keyword hit is true exactly when the flag holds and some keyword occurs |
| ImcDetector.DetectImcClassification | validator.py:335-362 | true exactly when a classification keyword and `if ` occur in the lower-cased text and a colon occurs in the original text |
| ImcDetector.ImcKeywordsAreSmall | validator.py:284-290 | every calculator keyword is already in small letters, so lower-casing leaves it unchanged |
| ImcDetector.FormulaPatternsAreSmall | validator.py:315-321 | every formula pattern is already in small letters |
| ImcDetector.ClassificationKeywordsAreSmall | validator.py:348-352 | every classification keyword is already in small letters |
| ImcDetector.VerbatimKeywordIsDetected | validator.py:281-297 | a text containing any calculator keyword verbatim, whatever the case of the rest, is recognised as a calculator |
| ImcDetector.FormulaPatternsCarryKeyword | validator.py:315-321 | every formula pattern contains one of the calculator keywords |
| ImcDetector.FunctionalCalculationIsImc | validator.py:284-321 | any text with a functional calculation is also recognised as a calculator |
| Features.StepAddsContribution | validator.py:144-192 | `Step`, one turn of the walk over a non-dictionary node raises each counter by exactly that node's contribution to its category, and by nothing more |
| Features.CountFeatures | validator.py:143-192 | the count fails exactly when the walk meets a dictionary display; otherwise each counter equals the number of contributing nodes |
| Features.OccurrencesAppend | validator.py:143 | a counter over two concatenated walks is the sum of the counters over each |
| Features.OccurrencesPermutation | validator.py:143 | a counter depends only on the multiset of nodes, not their order |
| Features.WalkOrderIrrelevant | validator.py:143-192 | two walks holding the same nodes in any order give the same feature count or the same failure |
| Scoring.ScoreOf | validator.py:201-244 | every level's score lies on the 0/25/50/75/100 scale |
| Scoring.LineCount | validator.py:134 | the line count is one more than the number of newlines |
| Scoring.ImcGrade | validator.py:201-214 | a calculator is Desejável exactly when it has both calculation and classification, Crítico exactly when it has the calculation only, otherwise Com Erros; score matches level |
| Scoring.GenericGrade | validator.py:195-244 | Vazio exactly under the `is_empty` rule; otherwise Avançado from weighted sum 15, Intermediário from 8 to 14, else Iniciante; score matches level |
| Scoring.ImcLevelOf | validator.py:246-252 | the IMC level is Desejável exactly when all three detectors agree, Crítico exactly when the classification alone is missing |
| Scoring.AnalyseImc | validator.py:136-140 | the IMC analysis carries the three detectors' answers and the level they determine |
| Scoring.AnalyzeSkillLevel | validator.py:93-269 | on the scale; fallback exactly when parsing fails or a dictionary occurs; otherwise counters equal occurrences, the calculator branch follows the IMC grade, and the generic branch gives the grade of the weighted sum of the counters: Vazio under the `is_empty` rule, else Avançado/75 from 15, Intermediário/50 from 8, else Iniciante/25 |
| Scoring.ImcScoringIgnoresFeatures | validator.py:201-214 | over dictionary-free trees, a recognised calculator's level and score do not depend on the tree, and no text's IMC analysis does |
| Scoring.ImcLevelMatchesSkillLevel | validator.py:201-252 | for a calculator the skill level and the IMC level agree (Desejável, Crítico, or Com Erros with "Não Atende Critérios"); otherwise the IMC level is "Não Atende Critérios" |
| Scoring.GenericGradeMonotone | validator.py:217-244 | raising any counters never lowers the generic score |
| Scoring.MoreConstructsNeverLowerScore | validator.py:143-244 | for a non-calculator text, of two dictionary-free trees the one with at least as many constructs of each kind scores at least as high |
| Scoring.OneMoreNodeNeverLowersScore | validator.py:143-244 | adding one non-dictionary construct never lowers a non-calculator text's score |
| Validator.IsBlank | validator.py:26 | a text is blank exactly when all its characters are whitespace |
| Validator.ValidatePythonCode | validator.py:8-91 | valid exactly when the text is not blank and parses; the blank, syntax-error and other-error verdicts have their fixed shapes; a valid verdict has no error and line -1 and carries the skill assessment of the same text and parse, which falls back exactly when a dictionary occurs |
| Validator.BlankNeverParsed | validator.py:26-39 | a blank text's verdict does not depend on the parser or the version hint |
| Validator.CalculationWithoutClassificationIsCritico | validator.py:200-252 | a parsed, dictionary-free text with a functional calculation and no classification is valid and Crítico with 50 on both scales |
| Validator.CalculationWithClassificationIsDesejavel | validator.py:200-252 | a parsed, dictionary-free text with a functional calculation and a classification is valid and Desejável with 100 on both scales |
| Suggestions.LongLineSuggestions | validator.py:379-386 | every suggestion cites a line longer than 79 characters, with that line's length, as a style item |
| Suggestions.LongLinesInOrder | validator.py:379-386 | the long-line suggestions come in strictly increasing line order |
| Suggestions.LongLinesAllReported | validator.py:379-386 | every line longer than 79 characters is reported |
| Suggestions.MixedIndentationSuggestions | validator.py:389-394 | one suggestion at line 1 exactly when the text holds both a tab and four spaces in a row |
| Suggestions.MutableDefaultWarnings | validator.py:410-417 | one warning per list, dictionary or set default, each at the definition's line |
| Suggestions.FunctionDefSuggestions | validator.py:399-417 | a definition draws the docstring suggestion (when it has none) followed by its mutable-default warnings, all at its line |
| Suggestions.DefinitionSuggestions | validator.py:399-417 | the first walk's findings are counted exactly, and each is deserved by a function definition of the tree |
| Suggestions.DefinitionSuggestionsAppend | validator.py:399-417 | the findings over two concatenated walks are the findings over the first followed by those over the second |
| Suggestions.DefinitionSuggestionsOfOne | validator.py:399-417 | a single definition contributes exactly its own findings, any other node none |
| Suggestions.BareExceptWarnings | validator.py:420-426 | one warning per untyped handler, each at the line of such a handler |
| Suggestions.BareExceptWarningsAppend | validator.py:420-426 | the warnings over two concatenated walks are those over the first followed by those over the second |
| Suggestions.BareExceptWarningsOfOne | validator.py:420-426 | an untyped handler contributes exactly one warning at its line, any other node none |
| Suggestions.ImportedNames | validator.py:432-441 | a name is imported exactly when some import node of the walk records it |
| Suggestions.UsedNames | validator.py:442-443 | a name is used exactly when a `Name` node with that identifier occurs |
| Suggestions.ImportAliasIsIgnored | validator.py:433-435 | `import x as y` is reported unused whenever `x` itself is never referenced |
| Suggestions.DottedImportAlwaysUnused | validator.py:433-435 | a dotted `import a.b` is always reported unused |
| Suggestions.FromImportRecordsAlias | validator.py:436-441 | `from m import y as z` records `z`, and a reference to `z` keeps it from being reported |
| Suggestions.UnusedImportWarnings | validator.py:445-450 | one warning at line 1 per name, in the order given |
| Suggestions.Enumerate | validator.py:445 | iterating over a set lists each element exactly once |
| Suggestions.SuggestImprovements | validator.py:364-460 | the text checks come first; a failed parse adds one Info item; a successful parse adds the tree checks and then exactly one warning for each unused import |
| EnvConfig.FirstIndex | config.py:11 | the index is that of the first `=`, or the length when there is none |
| EnvConfig.FirstIndexIsFirst | config.py:11 | an `=` with none before it is where the line is split |
| EnvConfig.SkippedLines | config.py:9-10 | `ParseEnvLine`, one turn of the loader: a line is skipped exactly when it is blank or a comment after stripping |
| EnvConfig.AssignedLines | config.py:11-12 | an assignment splits the stripped line at its first `=`, strips the key, and strips the value of whitespace and then of quotes |
| EnvConfig.LineWithoutEqualsAborts | config.py:11-14 | a non-blank, non-comment line without `=` ends the load |
| EnvConfig.LinesWithEquals | config.py:9-14 | a non-blank, non-comment line with an `=` assigns the stripped key the stripped, unquoted value after its first `=` when the environment accepts them, and ends the load otherwise |
| EnvConfig.Applied | config.py:8-14 | the loader gets through exactly the lines before the first one that raises |
| EnvConfig.Apply | config.py:8-14 | the loader's loop never removes a name that was already set |
| EnvConfig.ApplyLookup | config.py:8-14 | after the loop a name holds the value of its last assignment before the first raise, and otherwise keeps its earlier value or stays absent |
| EnvConfig.LoadEnv | config.py:4-14 | after loading the file's lines, a name holds the value of the last line assigning it before the first line that raises, and otherwise keeps its value from the environment or stays absent |
| EnvConfig.ReadAfterLoad | config.py:17-23 | reading a name with a default after loading gives its last assignment before the first raising line, else the environment's value, else the default |
| EnvConfig.ApplyStopsAtAbort | config.py:8-14 | nothing after a raising effect is applied |
| EnvConfig.AbortIgnoresRest | config.py:4-14 | lines after one that raises have no effect on the environment |
| EnvConfig.EnvGet | config.py:20 | a lookup gives the environment's value when the name is set, else the default |
| EnvConfig.LoadSettings | config.py:4-23 | each setting is the value of the file's last line assigning it before the first line that raises; failing that, the value already in the environment; failing that, the default |
| EnvConfig.DefaultsWithoutEnvironment | config.py:20-23 | with no file lines and an empty environment, both settings take their defaults |

## Left out

- `ast.parse` and `ast.walk` are parameters, not models. The model does not
  check that a node sequence is a walk of some real tree, or that a
  definition's `defaults` agree with the nodes elsewhere in the walk.
- Docstring detection is a per-node flag (`hasDocstring`). Whether
  `ast.Str` still exists, or matches only string constants, depends on the
  Python version and is not modelled.
- `Strings.Lower`: lower-cases ASCII and the Latin-1 capitals only. Python's
  `str.lower` covers all of Unicode. Every keyword the detectors look for is
  ASCII or Latin-1, but a detector's answer can still differ: Python lowers
  U+0130 (`İ`) to `i` followed by a combining dot, so `"BMİ"` contains
  `"bmi"` once lower-cased in Python, and not in the model.
- The text of messages (`f"Line {i + 1} is too long ..."`, `str(e)`) is kept
  as a tag plus the values it interpolates, not as formatted strings.
- `Suggestions.SuggestImprovements`: the unused-import warnings follow the
  iteration order of a Python `set`, which depends on string hashing. The
  contract says which names appear, once each, and not their order.
- `SyntaxError.lineno` may be `None` in Python. The model takes it as an
  integer.
- `except*` handlers (`TryStar`) and keyword-only defaults (`kw_defaults`)
  are not looked at by the code and have no node of their own here.
- Reading `.env` from disk, the `os.path.exists` check and universal-newline
  splitting are left out. The loader takes the file's lines.
- Writing to the process environment is left out. The environment is a map
  passed in and returned.
- `EnvConfig.AcceptedByEnviron` models CPython's rejection of an empty key
  and of null characters. Other platform-specific rejections (for example
  `=` inside a key on Windows) are left out.
- `SQLALCHEMY_TRACK_MODIFICATIONS` and `SQLALCHEMY_ENGINE_OPTIONS` are
  plain constants with no behaviour.
- The web routes, the database models, the application setup and the
  browser scripts are not part of this model.
