/**
 The expression nodes that the builtin-reference rewrites consume and produce,
 and the `(node, tag, message)` triple every rewrite returns.
 */
module Nodes {
  import opened Wrappers

  /** Opaque position of a node in the compiled program. */
  datatype SourceRef = SourceRef(fileName: string, line: nat)

  /** Compile-time constant values that the rewrites can produce or inspect. */
  datatype Constant =
    | NoneConst
    | BoolConst(b: bool)
    | EllipsisConst
    | DictConst(items: seq<(string, Constant)>)
    | OtherConst(id: nat)

  /** Python's `value != {}` for a constant value: only the empty dict equals `{}`. */
  predicate IsEmptyDict(c: Constant)
  {
    c == DictConst([])
  }

  /** The four variants of the builtin-reference node family. */
  datatype RefKind = ValueRef | OriginalRef | AnonymousRef | ExceptionRef

  /** A reference to builtin `name`; validity against the catalog is a separate predicate. */
  datatype BuiltinRef = BuiltinRef(kind: RefKind, name: string, source: SourceRef)

  datatype Node =
    | BuiltinRefNode(ref: BuiltinRef)
    | ConstantRefNode(constant: Constant, source: SourceRef)
    | MakeExceptionNode(exceptionName: string, args: seq<Node>, source: SourceRef)
    | CallNode(called: Node, callArgs: Option<Node>, callKw: Option<Node>, source: SourceRef)
    | OtherNode(description: string, source: SourceRef)

  /** The result of one rewrite step: the node to install, a change tag and a message. */
  datatype Rewrite = Rewrite(node: Node, tag: Option<string>, message: Option<string>)

  /** The "no change" triple `(node, None, None)`. */
  function Unchanged(n: Node): Rewrite
  {
    Rewrite(n, None, None)
  }
}
