/** The feature count of `analyze_skill_level`: one pass over the walked
    nodes, tallying ten categories of constructs. A dictionary display
    makes the pass raise (the `len(getattr(node, 'keys', ...)())` test calls
    the node's list of keys), which the model records as `None`. */
module Features {
  import opened Wrappers
  import opened Syntax

  /** The ten counters of the `features` dictionary. */
  datatype FeatureCounts = FeatureCounts(
    functions: nat,
    classes: nat,
    imports: nat,
    comprehensions: nat,
    errorHandling: nat,
    advancedTypes: nat,
    docstrings: nat,
    decorators: nat,
    complexStructures: nat,
    advancedFeatures: nat)

  /** The names of the ten counters. */
  datatype Feature =
    | Functions | Classes | Imports | Comprehensions | ErrorHandling
    | AdvancedTypes | Docstrings | Decorators | ComplexStructures | AdvancedFeatures

  /** Every counter at zero, as the pass starts. */
  const NoFeatures := FeatureCounts(0, 0, 0, 0, 0, 0, 0, 0, 0, 0)

  /** The counter named `k`. */
  function Get(f: FeatureCounts, k: Feature): nat {
    match k
    case Functions => f.functions
    case Classes => f.classes
    case Imports => f.imports
    case Comprehensions => f.comprehensions
    case ErrorHandling => f.errorHandling
    case AdvancedTypes => f.advancedTypes
    case Docstrings => f.docstrings
    case Decorators => f.decorators
    case ComplexStructures => f.complexStructures
    case AdvancedFeatures => f.advancedFeatures
  }

  /** Two counts agreeing on every named counter are the same record. */
  lemma CountsExtensional(f: FeatureCounts, g: FeatureCounts)
    requires forall k :: Get(f, k) == Get(g, k)
    ensures f == g
  {
    assert Get(f, Functions) == Get(g, Functions);
    assert Get(f, Classes) == Get(g, Classes);
    assert Get(f, Imports) == Get(g, Imports);
    assert Get(f, Comprehensions) == Get(g, Comprehensions);
    assert Get(f, ErrorHandling) == Get(g, ErrorHandling);
    assert Get(f, AdvancedTypes) == Get(g, AdvancedTypes);
    assert Get(f, Docstrings) == Get(g, Docstrings);
    assert Get(f, Decorators) == Get(g, Decorators);
    assert Get(f, ComplexStructures) == Get(g, ComplexStructures);
    assert Get(f, AdvancedFeatures) == Get(g, AdvancedFeatures);
  }

  /** Reference definition, one category at a time: whether node `n`
      belongs to category `k` (1) or not (0). */
  function Contribution(n: Node, k: Feature): (r: nat)
    ensures r <= 1
  {
    var member := match k
      case Functions => n.FunctionDef?
      case Classes => n.ClassDef?
      case Imports => n.Import? || n.ImportFrom?
      case Comprehensions => n.ListComp? || n.DictComp? || n.SetComp?
      case ErrorHandling => n.Try?
      case AdvancedTypes => n.Set? || n.GeneratorExp?
      case Docstrings => (n.FunctionDef? || n.ClassDef?) && n.hasDocstring
      case Decorators => (n.FunctionDef? || n.ClassDef?) && n.hasDecorators
      case ComplexStructures => n.List? && n.elementCount > 5
      case AdvancedFeatures =>
        n.AsyncFunctionDef? || n.Await? || n.AsyncFor? || n.AsyncWith? || n.YieldFrom?;
    if member then 1 else 0
  }

  /** Reference count: how many nodes of `nodes` belong to category `k`. */
  function Occurrences(nodes: seq<Node>, k: Feature): nat {
    if |nodes| == 0 then 0
    else Occurrences(nodes[..|nodes| - 1], k) + Contribution(nodes[|nodes| - 1], k)
  }

  /** One turn of the walk loop: the `if`/`elif` chain of lines 145-192 for a
      node that is not a dictionary display. Each node raises exactly the
      counters of the categories it belongs to, each by one. */
  function Step(f: FeatureCounts, n: Node): FeatureCounts
    requires !n.Dict?
  {
    if n.FunctionDef? || n.ClassDef? then
      var f' := if n.FunctionDef? then f.(functions := f.functions + 1)
                else f.(classes := f.classes + 1);
      f'.(docstrings := f'.docstrings + (if n.hasDocstring then 1 else 0),
          decorators := f'.decorators + (if n.hasDecorators then 1 else 0))
    else if n.Import? || n.ImportFrom? then
      f.(imports := f.imports + 1)
    else if n.ListComp? || n.DictComp? || n.SetComp? then
      f.(comprehensions := f.comprehensions + 1)
    else if n.Try? then
      f.(errorHandling := f.errorHandling + 1)
    else if n.Set? || n.GeneratorExp? then
      f.(advancedTypes := f.advancedTypes + 1)
    else if n.List? && n.elementCount > 5 then
      f.(complexStructures := f.complexStructures + 1)
    else if n.AsyncFunctionDef? || n.Await? || n.AsyncFor? || n.AsyncWith? || n.YieldFrom? then
      f.(advancedFeatures := f.advancedFeatures + 1)
    else
      f
  }

  /** One turn of the walk raises counter `k` by exactly the node's
      contribution to category `k`, and by nothing more. */
  lemma StepAddsContribution(f: FeatureCounts, n: Node, k: Feature)
    requires !n.Dict?
    ensures Get(Step(f, n), k) == Get(f, k) + Contribution(n, k)
  {
  }

  /** The walk loop over the nodes in visiting order. It fails (the caught
      exception) exactly when a dictionary display is visited, and otherwise
      every counter ends at the number of nodes of its category. */
  function CountFeatures(nodes: seq<Node>): (r: Option<FeatureCounts>)
    ensures r.None? <==> HasDict(nodes)
    ensures r.Some? ==> forall k :: Get(r.value, k) == Occurrences(nodes, k)
  {
    if |nodes| == 0 then Some(NoFeatures)
    else
      var init := nodes[..|nodes| - 1];
      var last := nodes[|nodes| - 1];
      assert forall i :: 0 <= i < |init| ==> init[i] == nodes[i];
      match CountFeatures(init)
      case None => None
      case Some(f) =>
        if last.Dict? then None
        else
          assert forall k :: Get(Step(f, last), k) == Get(f, k) + Contribution(last, k) by {
            forall k { StepAddsContribution(f, last, k); }
          }
          Some(Step(f, last))
  }

  /** Counting over a concatenation adds the counts of the parts. */
  lemma {:induction false} OccurrencesAppend(a: seq<Node>, b: seq<Node>, k: Feature)
    ensures Occurrences(a + b, k) == Occurrences(a, k) + Occurrences(b, k)
  {
    if |b| > 0 {
      var b' := b[..|b| - 1];
      assert (a + b)[..|a + b| - 1] == a + b';
      OccurrencesAppend(a, b', k);
    } else {
      assert a + b == a;
    }
  }

  /** A dictionary display is a single value, so having one is membership. */
  lemma HasDictIsMembership(nodes: seq<Node>)
    ensures HasDict(nodes) <==> Dict in nodes
  {
    if Dict in nodes {
      var i :| 0 <= i < |nodes| && nodes[i] == Dict;
    }
  }

  /** Taking element `j` out of a sequence takes one copy of it out of the
      sequence's multiset. */
  lemma RemoveAt(b: seq<Node>, j: int)
    requires 0 <= j < |b|
    ensures multiset(b[..j] + b[j + 1..]) == multiset(b) - multiset{b[j]}
  {
    var b1, b2 := b[..j], b[j + 1..];
    assert b == b1 + [b[j]] + b2;
    assert multiset(b) == multiset(b1) + multiset{b[j]} + multiset(b2);
  }

  /** An element of a sequence's multiset sits at some index of it. */
  lemma Locate(b: seq<Node>, x: Node) returns (j: int)
    requires x in multiset(b)
    ensures 0 <= j < |b| && b[j] == x
  {
    j :| 0 <= j < |b| && b[j] == x;
  }

  /** Taking the last element of `a` out of a permutation `b` of `a` leaves
      a permutation of the rest of `a`. */
  lemma MatchLast(a: seq<Node>, b: seq<Node>) returns (j: int)
    requires |a| > 0 && multiset(a) == multiset(b)
    ensures 0 <= j < |b| && b[j] == a[|a| - 1]
    ensures multiset(a[..|a| - 1]) == multiset(b[..j] + b[j + 1..])
  {
    var x := a[|a| - 1];
    assert a == a[..|a| - 1] + [x];
    j := Locate(b, x);
    RemoveAt(b, j);
  }

  /** Counting with one node taken out of the middle. */
  lemma OccurrencesMiddle(b: seq<Node>, j: int, k: Feature)
    requires 0 <= j < |b|
    ensures Occurrences(b, k) == Occurrences(b[..j] + b[j + 1..], k) + Contribution(b[j], k)
  {
    var b1, b2 := b[..j], b[j + 1..];
    assert b == (b1 + [b[j]]) + b2;
    OccurrencesAppend(b1, b2, k);
    OccurrencesAppend(b1 + [b[j]], b2, k);
    assert (b1 + [b[j]])[..|b1 + [b[j]]| - 1] == b1;
  }

  /** The count depends only on which nodes are visited, not on the order
      in which the walk visits them. */
  lemma {:induction false} OccurrencesPermutation(a: seq<Node>, b: seq<Node>, k: Feature)
    requires multiset(a) == multiset(b)
    ensures Occurrences(a, k) == Occurrences(b, k)
    decreases |a|
  {
    if |a| > 0 {
      var j := MatchLast(a, b);
      OccurrencesPermutation(a[..|a| - 1], b[..j] + b[j + 1..], k);
      OccurrencesMiddle(b, j, k);
    } else {
      assert |multiset(b)| == 0;
    }
  }

  /** `ast.walk` visits nodes in an order the model does not fix: any two
      visiting orders of the same nodes give the same outcome. */
  lemma WalkOrderIrrelevant(a: seq<Node>, b: seq<Node>)
    requires multiset(a) == multiset(b)
    ensures CountFeatures(a) == CountFeatures(b)
  {
    HasDictIsMembership(a);
    HasDictIsMembership(b);
    assert Dict in a <==> Dict in multiset(a);
    assert Dict in b <==> Dict in multiset(b);
    if !HasDict(a) {
      forall k {
        OccurrencesPermutation(a, b, k);
      }
      CountsExtensional(CountFeatures(a).value, CountFeatures(b).value);
    }
  }
}
