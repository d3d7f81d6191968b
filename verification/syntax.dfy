/** The parser's output, abstracted to what the analyser inspects.
    The parser itself is foreign code: its outcome on a given text is an
    input of the model, and `ast.walk` becomes the sequence of nodes it
    visits. Only the node kinds the analyser distinguishes are kept; every
    other kind is `Other`. */
module Syntax {
  import opened Wrappers

  /** The kind of a function's positional default-argument expression, as
      far as the mutable-default check cares. */
  datatype DefaultKind = ListDefault | DictDefault | SetDefault | OtherDefault

  /** One `name [as asname]` entry of an import statement. For `import a.b`
      the `name` is the dotted text `"a.b"`. */
  datatype ImportAlias = ImportAlias(name: string, asname: Option<string>)

  datatype Node =
    | FunctionDef(name: string, line: int, hasDecorators: bool,
                  hasDocstring: bool, defaults: seq<DefaultKind>)
      // `hasDocstring`: the first statement of the body is a bare string
    | AsyncFunctionDef
    | ClassDef(hasDecorators: bool, hasDocstring: bool)
    | Import(aliases: seq<ImportAlias>)
    | ImportFrom(aliases: seq<ImportAlias>)
    | ListComp
    | DictComp
    | SetComp
    | Try
    | ExceptHandler(hasType: bool, line: int)
    | Set
    | GeneratorExp
    | Dict
    | List(elementCount: nat)
    | Await
    | AsyncFor
    | AsyncWith
    | YieldFrom
    | Name(id: string)
    | Other

  /** What `ast.parse` does with a text: it yields the walked nodes, raises a
      `SyntaxError` (message and line number) or raises some other exception
      (a message only; for instance a null character in the text). */
  datatype ParseOutcome =
    | Ok(nodes: seq<Node>)
    | SyntaxErr(msg: string, line: int)
    | OtherErr(msg: string)

  /** The walk meets a dictionary display somewhere. */
  predicate HasDict(nodes: seq<Node>) {
    exists i :: 0 <= i < |nodes| && nodes[i].Dict?
  }
}
