/** `suggest_improvements`: advisory findings about a text, in the order the
    passes produce them: long lines, mixed indentation, then (when the text
    parses) missing docstrings and mutable defaults per function, bare
    `except` handlers, and unused imports. */
module Suggestions {
  import opened Wrappers
  import opened Strings
  import opened Syntax

  datatype Category = Style | Documentation | Warning | Info

  /** The message of a suggestion, as a tag plus the values it mentions. */
  datatype Message =
    | LineTooLong(length: nat)
    | MixedIndentation
    | MissingDocstring(functionName: string)
    | MutableDefault(functionName: string)
    | BareExcept
    | UnusedImport(name: string)
    | AnalysisIncomplete(reason: string)

  datatype Suggestion = Suggestion(line: int, message: Message, category: Category)

  /** The longest line that draws no style suggestion. */
  const MaxLineLength := 79

  // ---------------------------------------------------------------- text checks

  /** One Style suggestion per line longer than the limit, in line order;
      `first` is the 1-based number of `lines[0]`. Each one cites a long
      line and its length. */
  function LongLineSuggestions(lines: seq<string>, first: int): (r: seq<Suggestion>)
    ensures forall j :: 0 <= j < |r| ==> CitesLongLine(r[j], lines, first)
  {
    if |lines| == 0 then []
    else
      var rest := LongLineSuggestions(lines[1..], first + 1);
      assert forall j :: 0 <= j < |rest| ==> CitesLongLine(rest[j], lines, first) by {
        forall j | 0 <= j < |rest| ensures CitesLongLine(rest[j], lines, first) {
          assert CitesLongLine(rest[j], lines[1..], first + 1);
          assert lines[1..][rest[j].line - (first + 1)] == lines[rest[j].line - first];
        }
      }
      if |lines[0]| > MaxLineLength then
        [Suggestion(first, LineTooLong(|lines[0]|), Style)] + rest
      else
        rest
  }

  /** Suggestion `s` is the Style finding for a line of `lines` (numbered
      from `first`) that is too long, and gives that line's length. */
  ghost predicate CitesLongLine(s: Suggestion, lines: seq<string>, first: int) {
    && first <= s.line < first + |lines|
    && |lines[s.line - first]| > MaxLineLength
    && s.message == LineTooLong(|lines[s.line - first]|)
    && s.category == Style
  }

  /** No long line goes unreported. */
  lemma {:induction false} LongLinesAllReported(lines: seq<string>, first: int, i: int)
    requires 0 <= i < |lines| && |lines[i]| > MaxLineLength
    ensures exists j :: 0 <= j < |LongLineSuggestions(lines, first)| &&
                        LongLineSuggestions(lines, first)[j].line == first + i
  {
    var r := LongLineSuggestions(lines, first);
    var rest := LongLineSuggestions(lines[1..], first + 1);
    if i == 0 {
      assert r == [Suggestion(first, LineTooLong(|lines[0]|), Style)] + rest;
      assert r[0].line == first;
    } else {
      assert lines[1..][i - 1] == lines[i];
      LongLinesAllReported(lines[1..], first + 1, i - 1);
      var j :| 0 <= j < |rest| && rest[j].line == first + i;
      if |lines[0]| > MaxLineLength {
        assert r == [Suggestion(first, LineTooLong(|lines[0]|), Style)] + rest;
        assert r[j + 1] == rest[j];
      } else {
        assert r == rest;
      }
    }
  }

  /** The long-line suggestions come in strictly increasing line order. */
  lemma {:induction false} LongLinesInOrder(lines: seq<string>, first: int)
    ensures forall j, k :: 0 <= j < k < |LongLineSuggestions(lines, first)| ==>
      LongLineSuggestions(lines, first)[j].line < LongLineSuggestions(lines, first)[k].line
  {
    if |lines| > 0 {
      var r := LongLineSuggestions(lines, first);
      var rest := LongLineSuggestions(lines[1..], first + 1);
      LongLinesInOrder(lines[1..], first + 1);
      if |lines[0]| > MaxLineLength {
        assert r == [Suggestion(first, LineTooLong(|lines[0]|), Style)] + rest;
        forall j, k | 0 <= j < k < |r| ensures r[j].line < r[k].line {
          assert r[k] == rest[k - 1];
          assert CitesLongLine(rest[k - 1], lines[1..], first + 1);
          if j > 0 {
            assert r[j] == rest[j - 1];
            assert rest[j - 1].line < rest[k - 1].line;
          } else {
            assert r[0].line == first;
            assert rest[k - 1].line >= first + 1;
          }
        }
      } else {
        assert r == rest;
      }
    }
  }

  /** The mixed-indentation check: one Style suggestion, always at line 1,
      when the text holds both a tab and a run of four spaces anywhere. */
  function MixedIndentationSuggestions(code: string): (r: seq<Suggestion>)
    ensures |r| <= 1
    ensures |r| == 1 <==> Contains(code, "\t") && Contains(code, "    ")
    ensures |r| == 1 ==> r[0] == Suggestion(1, MixedIndentation, Style)
  {
    if Contains(code, "\t") && Contains(code, "    ") then
      [Suggestion(1, MixedIndentation, Style)]
    else
      []
  }

  /** The two checks on the raw text, which run whether or not it parses. */
  function TextSuggestions(code: string): seq<Suggestion> {
    LongLineSuggestions(Split(code, '\n'), 1) + MixedIndentationSuggestions(code)
  }

  // ---------------------------------------------------------- function checks

  /** `List`, `Dict` and `Set` displays are the mutable defaults. */
  predicate IsMutableDefault(d: DefaultKind) {
    d.ListDefault? || d.DictDefault? || d.SetDefault?
  }

  /** How many of the defaults are mutable displays. */
  function MutableDefaultCount(defaults: seq<DefaultKind>): nat {
    if |defaults| == 0 then 0
    else (if IsMutableDefault(defaults[0]) then 1 else 0) + MutableDefaultCount(defaults[1..])
  }

  /** The inner loop over a function's defaults: one Warning per mutable
      default, not one per function. */
  function MutableDefaultWarnings(name: string, line: int, defaults: seq<DefaultKind>): (r: seq<Suggestion>)
    ensures |r| == MutableDefaultCount(defaults)
    ensures forall j :: 0 <= j < |r| ==> r[j] == Suggestion(line, MutableDefault(name), Warning)
  {
    if |defaults| == 0 then []
    else
      var rest := MutableDefaultWarnings(name, line, defaults[1..]);
      if IsMutableDefault(defaults[0]) then
        [Suggestion(line, MutableDefault(name), Warning)] + rest
      else
        rest
  }

  /** The suggestions one function definition draws: the docstring one
      first (if it lacks a docstring), then its mutable-default warnings,
      all at the definition's line. */
  function FunctionDefSuggestions(n: Node): (r: seq<Suggestion>)
    requires n.FunctionDef?
    ensures |r| == (if n.hasDocstring then 0 else 1) + MutableDefaultCount(n.defaults)
    ensures forall j :: 0 <= j < |r| ==> r[j].line == n.line
    ensures !n.hasDocstring ==> r[0] == Suggestion(n.line, MissingDocstring(n.name), Documentation)
    ensures forall j :: (if n.hasDocstring then 0 else 1) <= j < |r| ==>
      r[j] == Suggestion(n.line, MutableDefault(n.name), Warning)
  {
    var doc := if n.hasDocstring then [] else [Suggestion(n.line, MissingDocstring(n.name), Documentation)];
    doc + MutableDefaultWarnings(n.name, n.line, n.defaults)
  }

  /** The number of suggestions the definitions among `nodes` draw. */
  function DefinitionFindings(nodes: seq<Node>): nat {
    if |nodes| == 0 then 0
    else
      (if nodes[0].FunctionDef? then
         (if nodes[0].hasDocstring then 0 else 1) + MutableDefaultCount(nodes[0].defaults)
       else 0)
      + DefinitionFindings(nodes[1..])
  }

  /** The first walk: for each function definition in walk order, its
      docstring and mutable-default suggestions, interleaved per function.
      Every suggestion points back to a definition that deserves it. */
  function DefinitionSuggestions(nodes: seq<Node>): (r: seq<Suggestion>)
    ensures |r| == DefinitionFindings(nodes)
    ensures forall j :: 0 <= j < |r| ==> exists i :: 0 <= i < |nodes| && DeservedBy(r[j], nodes[i])
  {
    if |nodes| == 0 then []
    else
      var here := if nodes[0].FunctionDef? then FunctionDefSuggestions(nodes[0]) else [];
      var rest := DefinitionSuggestions(nodes[1..]);
      assert forall j :: 0 <= j < |here| ==> DeservedBy(here[j], nodes[0]);
      assert forall i :: 1 <= i < |nodes| ==> nodes[i] == nodes[1..][i - 1];
      here + rest
  }

  /** Suggestion `s` is one that function definition `n` gives rise to. */
  ghost predicate DeservedBy(s: Suggestion, n: Node) {
    && n.FunctionDef?
    && s.line == n.line
    && (|| (s == Suggestion(n.line, MissingDocstring(n.name), Documentation) && !n.hasDocstring)
        || (s == Suggestion(n.line, MutableDefault(n.name), Warning) && MutableDefaultCount(n.defaults) > 0))
  }

  /** The first walk distributes over the walk: the findings of `a + b`
      are those of `a` followed by those of `b`. */
  lemma {:induction false} DefinitionSuggestionsAppend(a: seq<Node>, b: seq<Node>)
    ensures DefinitionSuggestions(a + b) == DefinitionSuggestions(a) + DefinitionSuggestions(b)
  {
    if |a| == 0 {
      assert a + b == b;
    } else {
      assert (a + b)[0] == a[0];
      assert (a + b)[1..] == a[1..] + b;
      DefinitionSuggestionsAppend(a[1..], b);
    }
  }

  /** One node's share of the first walk: a function definition's own
      suggestions, and nothing for any other node. With
      `DefinitionSuggestionsAppend`, the first walk is the concatenation,
      node by node in walk order, of these shares. */
  lemma DefinitionSuggestionsOfOne(n: Node)
    ensures DefinitionSuggestions([n]) == if n.FunctionDef? then FunctionDefSuggestions(n) else []
  {
    assert [n][1..] == [];
  }

  // -------------------------------------------------------- handler checks

  /** An `except:` handler with no exception type. */
  predicate IsBareHandler(n: Node) {
    n.ExceptHandler? && !n.hasType
  }

  /** The number of bare handlers among `nodes`. */
  function BareHandlerCount(nodes: seq<Node>): nat {
    if |nodes| == 0 then 0
    else (if IsBareHandler(nodes[0]) then 1 else 0) + BareHandlerCount(nodes[1..])
  }

  /** The second walk: one Warning per bare handler, at the handler's line. */
  function BareExceptWarnings(nodes: seq<Node>): (r: seq<Suggestion>)
    ensures |r| == BareHandlerCount(nodes)
    ensures forall j :: 0 <= j < |r| ==>
      && r[j].message == BareExcept && r[j].category == Warning
      && exists i :: 0 <= i < |nodes| && nodes[i] == ExceptHandler(false, r[j].line)
  {
    if |nodes| == 0 then []
    else
      var rest := BareExceptWarnings(nodes[1..]);
      assert forall i :: 1 <= i < |nodes| ==> nodes[i] == nodes[1..][i - 1];
      if IsBareHandler(nodes[0]) then
        [Suggestion(nodes[0].line, BareExcept, Warning)] + rest
      else
        rest
  }

  /** The second walk distributes over the walk: the warnings of `a + b`
      are those of `a` followed by those of `b`. */
  lemma {:induction false} BareExceptWarningsAppend(a: seq<Node>, b: seq<Node>)
    ensures BareExceptWarnings(a + b) == BareExceptWarnings(a) + BareExceptWarnings(b)
  {
    if |a| == 0 {
      assert a + b == b;
    } else {
      assert (a + b)[0] == a[0];
      assert (a + b)[1..] == a[1..] + b;
      BareExceptWarningsAppend(a[1..], b);
    }
  }

  /** One node's share of the second walk: exactly one warning, at its
      line, for a handler without an exception type, and nothing for any
      other node. */
  lemma BareExceptWarningsOfOne(n: Node)
    ensures BareExceptWarnings([n]) == if IsBareHandler(n) then [Suggestion(n.line, BareExcept, Warning)] else []
  {
    assert [n][1..] == [];
  }

  // --------------------------------------------------------- import checks

  /** The names an import statement records: the module path as written for
      `import` (its `as` name is ignored), the `as` name if any, else the
      imported name, for `from ... import`. */
  function RecordedNames(n: Node): set<string> {
    match n
    case Import(aliases) => set a | a in aliases :: a.name
    case ImportFrom(aliases) =>
      set a | a in aliases :: if a.asname.Some? then a.asname.value else a.name
    case _ => {}
  }

  /** `imported_names` after the third walk. */
  function ImportedNames(nodes: seq<Node>): (r: set<string>)
    ensures forall x :: x in r <==> exists i :: 0 <= i < |nodes| && x in RecordedNames(nodes[i])
  {
    if |nodes| == 0 then {}
    else
      assert forall i :: 1 <= i < |nodes| ==> nodes[i] == nodes[1..][i - 1];
      RecordedNames(nodes[0]) + ImportedNames(nodes[1..])
  }

  /** `used_names` after the third walk: the identifiers of all `Name` nodes. */
  function UsedNames(nodes: seq<Node>): (r: set<string>)
    ensures forall x :: x in r <==> Name(x) in nodes
  {
    if |nodes| == 0 then {}
    else
      var here := if nodes[0].Name? then {nodes[0].id} else {};
      assert forall x :: Name(x) in nodes <==> Name(x) == nodes[0] || Name(x) in nodes[1..];
      here + UsedNames(nodes[1..])
  }

  /** `imported_names - used_names`. */
  function UnusedImports(nodes: seq<Node>): set<string> {
    ImportedNames(nodes) - UsedNames(nodes)
  }

  /** `import x as y` records `x`: it is reported unused as long as no name
      `x` is referenced, however often `y` is. */
  lemma ImportAliasIsIgnored(nodes: seq<Node>, i: int, j: int)
    requires 0 <= i < |nodes| && nodes[i].Import?
    requires 0 <= j < |nodes[i].aliases| && nodes[i].aliases[j].asname.Some?
    requires Name(nodes[i].aliases[j].name) !in nodes
    ensures nodes[i].aliases[j].name in UnusedImports(nodes)
  {
    assert nodes[i].aliases[j] in nodes[i].aliases;
    assert nodes[i].aliases[j].name in RecordedNames(nodes[i]);
  }

  /** `import a.b` records the dotted text `"a.b"`, which no identifier can
      equal: it is always reported unused. */
  lemma DottedImportAlwaysUnused(nodes: seq<Node>, i: int, j: int)
    requires 0 <= i < |nodes| && nodes[i].Import?
    requires 0 <= j < |nodes[i].aliases| && '.' in nodes[i].aliases[j].name
    requires forall k :: 0 <= k < |nodes| && nodes[k].Name? ==> '.' !in nodes[k].id
    ensures nodes[i].aliases[j].name in UnusedImports(nodes)
  {
    var x := nodes[i].aliases[j].name;
    assert nodes[i].aliases[j] in nodes[i].aliases;
    assert x in RecordedNames(nodes[i]);
    forall k | 0 <= k < |nodes|
      ensures nodes[k] != Name(x)
    {
      if nodes[k].Name? {
        assert '.' !in nodes[k].id;
      }
    }
  }

  /** `from m import y as z` records `z`: a reference to `z` keeps it from
      being reported, and `y` itself is not recorded by that entry. */
  lemma FromImportRecordsAlias(nodes: seq<Node>, i: int, j: int)
    requires 0 <= i < |nodes| && nodes[i].ImportFrom?
    requires 0 <= j < |nodes[i].aliases| && nodes[i].aliases[j].asname.Some?
    ensures nodes[i].aliases[j].asname.value in ImportedNames(nodes)
    ensures Name(nodes[i].aliases[j].asname.value) in nodes ==>
      nodes[i].aliases[j].asname.value !in UnusedImports(nodes)
  {
    assert nodes[i].aliases[j] in nodes[i].aliases;
    assert nodes[i].aliases[j].asname.value in RecordedNames(nodes[i]);
  }

  // --------------------------------------------------------------- the pass

  /** The suggestions of a text that parsed, up to the unused imports. */
  function OrderedSuggestions(code: string, nodes: seq<Node>): seq<Suggestion> {
    TextSuggestions(code) + DefinitionSuggestions(nodes) + BareExceptWarnings(nodes)
  }

  /** The exception text the catch-all handler reports. */
  function FailureReason(parse: ParseOutcome): string
    requires !parse.Ok?
  {
    parse.msg
  }

  /** One Warning at line 1 per name, in the order given. */
  function UnusedImportWarnings(names: seq<string>): (r: seq<Suggestion>)
    ensures |r| == |names|
    ensures forall j :: 0 <= j < |r| ==> r[j] == Suggestion(1, UnusedImport(names[j]), Warning)
  {
    if |names| == 0 then []
    else [Suggestion(1, UnusedImport(names[0]), Warning)] + UnusedImportWarnings(names[1..])
  }

  /** The `for` loop over a set: lists each element once, in an order of
      its own choosing. */
  method Enumerate(s: set<string>) returns (names: seq<string>)
    ensures |names| == |s|
    ensures forall j :: 0 <= j < |names| ==> names[j] in s
    ensures forall x :: x in s ==> x in names
  {
    names := [];
    var remaining := s;
    ghost var listed: set<string> := {};
    while remaining != {}
      invariant remaining !! listed && remaining + listed == s
      invariant |names| == |listed|
      invariant forall j :: 0 <= j < |names| ==> names[j] in listed
      invariant forall x :: x in listed ==> x in names
      decreases |remaining|
    {
      var x :| x in remaining;
      names := names + [x];
      remaining := remaining - {x};
      listed := listed + {x};
    }
  }

  /** Appending the warnings for an enumeration of `u` to `head`. */
  lemma AppendWarningsFacts(head: seq<Suggestion>, names: seq<string>, u: set<string>)
    requires |names| == |u|
    requires forall j :: 0 <= j < |names| ==> names[j] in u
    requires forall x :: x in u ==> x in names
    ensures var out := head + UnusedImportWarnings(names);
      && |out| == |head| + |u|
      && out[..|head|] == head
      && (forall j :: |head| <= j < |out| ==>
            && out[j].line == 1 && out[j].category == Warning
            && out[j].message.UnusedImport?
            && out[j].message.name in u)
      && (forall x :: x in u ==>
            exists j :: |head| <= j < |out| && out[j].message == UnusedImport(x))
  {
    var tail := UnusedImportWarnings(names);
    var out := head + tail;
    assert out[..|head|] == head;
    forall j | |head| <= j < |out|
      ensures out[j] == Suggestion(1, UnusedImport(names[j - |head|]), Warning)
    {
      assert out[j] == tail[j - |head|];
    }
    forall x | x in u
      ensures exists j :: |head| <= j < |out| && out[j].message == UnusedImport(x)
    {
      var k :| 0 <= k < |names| && names[k] == x;
      assert out[|head| + k] == tail[k];
    }
  }

  /** `suggest_improvements(code)`, given what `ast.parse(code)` does. The
      text checks always come first. If the parse raises, one Info item
      follows them and nothing else. Otherwise the tree checks follow, and
      last come the unused-import warnings, all at line 1, one for each name
      of `imported_names - used_names`, in the unspecified iteration order
      of a Python set. */
  method SuggestImprovements(code: string, parse: ParseOutcome) returns (out: seq<Suggestion>)
    ensures !parse.Ok? ==>
      out == TextSuggestions(code) + [Suggestion(1, AnalysisIncomplete(FailureReason(parse)), Info)]
    ensures parse.Ok? ==>
      var head := OrderedSuggestions(code, parse.nodes);
      && |out| == |head| + |UnusedImports(parse.nodes)|
      && out[..|head|] == head
      && (forall j :: |head| <= j < |out| ==>
            && out[j].line == 1 && out[j].category == Warning
            && out[j].message.UnusedImport?
            && out[j].message.name in UnusedImports(parse.nodes))
      && (forall x :: x in UnusedImports(parse.nodes) ==>
            exists j :: |head| <= j < |out| && out[j].message == UnusedImport(x))
  {
    if !parse.Ok? {
      out := TextSuggestions(code) + [Suggestion(1, AnalysisIncomplete(FailureReason(parse)), Info)];
      return;
    }
    var nodes := parse.nodes;
    var head := OrderedSuggestions(code, nodes);
    var unused := UnusedImports(nodes);
    var names := Enumerate(unused);
    out := head + UnusedImportWarnings(names);
    AppendWarningsFacts(head, names, unused);
  }
}
