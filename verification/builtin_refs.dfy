/**
 The builtin-reference node family and its two rewrite entry points.

 `ComputeRaw` is a node's self-folding (`computeExpressionRaw`); `ComputeCall`
 specialises a call whose callee is the node (`computeExpressionCall`). Both
 return the `(node, tag, message)` triple; `ComputeCall` also threads the trace
 collection, to which it may only append.
 */
module BuiltinRefs {
  import opened Wrappers
  import opened Trace
  import opened Nodes
  import opened BuiltinCatalog

  /** Builds the replacement node from bound arguments and a source position. */
  type Constructor = (seq<Node>, SourceRef) -> Node

  /** The parameter specification the argument binder checks a call against. */
  datatype ParamSpec = ParamSpec(functionName: string, argumentNames: seq<string>)

  /** A call rewrite together with the trace collection after it. */
  datatype Step = Step(result: Rewrite, trace: seq<Event>)

  /**
   Everything the rewrites consult but this model does not define: the name
   tables, the target language version, the compiling interpreter's `__debug__`,
   the builtin-call optimizer, the exception parameter specifications, the
   argument binder, and the call rewrite anonymous references inherit.
   */
  datatype Env = Env(
    catalog: Catalog,
    pythonVersion: nat,
    debugFlag: bool,
    computeBuiltinCall: (Node, BuiltinRef) -> Rewrite,
    exceptionParameterSpec: string -> ParamSpec,
    extractBuiltinArgs: (Node, ParamSpec, Constructor) -> Option<Node>,
    inheritedCall: (BuiltinRef, Node, Option<Node>, Option<Node>, seq<Event>) -> Step)

  const NewConstantTag: string := "new_constant"
  const NewExpressionTag: string := "new_expression"
  const ExceptionMakingMessage: string := "Detected built-in exception making."

  /** The names a value reference folds into a literal. */
  const QuickNames: set<string> := {"None", "True", "False", "__debug__", "Ellipsis"}

  /** The scope-introspection builtins whose call lets the local variables escape. */
  const LocalsEscapeNames: set<string> := {"dir", "eval", "exec", "execfile", "locals", "vars"}

  /** Python version at which ImportError accepts keyword arguments (3.3). */
  const ImportErrorKeywordVersion: nat := 330

  // ---------------------------------------------------------------------------
  // Predicates shared by all variants

  predicate IsKnownToBeHashable(r: BuiltinRef)
  {
    true
  }

  predicate MayRaiseException(r: BuiltinRef, exceptionType: string)
  {
    false
  }

  predicate MayHaveSideEffects(r: BuiltinRef)
  {
    false
  }

  predicate IsCompileTimeConstant(r: BuiltinRef)
  {
    match r.kind
    case ValueRef => true
    case OriginalRef => false
    case AnonymousRef => true
    case ExceptionRef => true
  }

  /** Merely referencing a builtin is hashable, raises nothing and has no effect. */
  lemma ReferenceIsInert(r: BuiltinRef, exceptionType: string)
    ensures IsKnownToBeHashable(r)
    ensures !MayRaiseException(r, exceptionType)
    ensures !MayHaveSideEffects(r)
  {
  }

  /** The original reference is the only variant that is not a compile-time constant. */
  lemma OnlyOriginalIsNotConstant(r: BuiltinRef)
    ensures !IsCompileTimeConstant(r) <==> r.kind == OriginalRef
  {
  }

  // ---------------------------------------------------------------------------
  // Self-folding

  /** The literal a quick name stands for, if it is one. */
  function QuickConstant(name: string, debugFlag: bool): Option<Constant>
  {
    if name == "None" then Some(NoneConst)
    else if name == "True" then Some(BoolConst(true))
    else if name == "False" then Some(BoolConst(false))
    else if name == "__debug__" then Some(BoolConst(debugFlag))
    else if name == "Ellipsis" then Some(EllipsisConst)
    else None
  }

  const FoldMessagePrefix: string := "Built-in constant '"
  const FoldMessageSuffix: string := "' resolved."

  function FoldMessage(name: string): string
  {
    FoldMessagePrefix + name + FoldMessageSuffix
  }

  /** Reads the builtin name back out of a folding message. */
  function NameInFoldMessage(msg: string): Option<string>
  {
    var p := |FoldMessagePrefix|;
    var q := |FoldMessageSuffix|;
    if |msg| >= p + q && msg[..p] == FoldMessagePrefix && msg[|msg| - q..] == FoldMessageSuffix
    then Some(msg[p..|msg| - q])
    else None
  }

  /** The folding message names exactly the builtin that was resolved. */
  lemma FoldMessageNamesBuiltin(name: string)
    ensures NameInFoldMessage(FoldMessage(name)) == Some(name)
  {
  }

  /** `computeExpressionRaw` of each variant. */
  function ComputeRaw(env: Env, ref: BuiltinRef): (r: Rewrite)
    ensures r.tag.Some? <==> ref.kind == ValueRef && ref.name in QuickNames
    ensures r.tag.None? ==> r == Unchanged(BuiltinRefNode(ref))
    ensures r.tag.Some? ==>
      && r.tag == Some(NewConstantTag)
      && r.node.ConstantRefNode?
      && r.node.source == ref.source
      && r.message.Some?
      && NameInFoldMessage(r.message.value) == Some(ref.name)
    ensures ref.kind == ValueRef ==>
      && (ref.name == "None" ==> r.node == ConstantRefNode(NoneConst, ref.source))
      && (ref.name == "True" ==> r.node == ConstantRefNode(BoolConst(true), ref.source))
      && (ref.name == "False" ==> r.node == ConstantRefNode(BoolConst(false), ref.source))
      && (ref.name == "__debug__" ==> r.node == ConstantRefNode(BoolConst(env.debugFlag), ref.source))
      && (ref.name == "Ellipsis" ==> r.node == ConstantRefNode(EllipsisConst, ref.source))
  {
    match ref.kind
    case ValueRef =>
      var quick := QuickConstant(ref.name, env.debugFlag);
      if quick.Some? then
        FoldMessageNamesBuiltin(ref.name);
        Rewrite(ConstantRefNode(quick.value, ref.source), Some(NewConstantTag), Some(FoldMessage(ref.name)))
      else
        Unchanged(BuiltinRefNode(ref))
    // The original reference needs whole-program knowledge to resolve.
    case OriginalRef => Unchanged(BuiltinRefNode(ref))
    case AnonymousRef => Unchanged(BuiltinRefNode(ref))
    case ExceptionRef => Unchanged(BuiltinRefNode(ref))
  }

  /** A self-folding that changes nothing reaches a fixpoint: folding again repeats it. */
  lemma RawFoldIdempotent(env: Env, ref: BuiltinRef)
    ensures var r := ComputeRaw(env, ref);
      r.tag.None? ==> r.node.BuiltinRefNode? && ComputeRaw(env, r.node.ref) == r
  {
  }

  /** Anonymous and exception references never fold, and folding them twice is the same. */
  lemma UnfoldableVariantsAreFixpoints(env: Env, ref: BuiltinRef)
    requires ref.kind == AnonymousRef || ref.kind == ExceptionRef
    ensures ComputeRaw(env, ref) == Unchanged(BuiltinRefNode(ref))
    ensures ComputeRaw(env, ComputeRaw(env, ref).node.ref) == ComputeRaw(env, ref)
  {
  }

  /** For the quick names the value reference folds while the original reference does not. */
  lemma OriginalNeverFoldsQuickNames(env: Env, name: string, source: SourceRef)
    requires name in QuickNames
    ensures ComputeRaw(env, BuiltinRef(ValueRef, name, source)).tag == Some(NewConstantTag)
    ensures ComputeRaw(env, BuiltinRef(OriginalRef, name, source))
         == Unchanged(BuiltinRefNode(BuiltinRef(OriginalRef, name, source)))
  {
  }

  // ---------------------------------------------------------------------------
  // Call specialisation

  /** The events a call through a value reference appends, in order. */
  function CallEvents(localsEscape: bool): seq<Event>
  {
    [ExceptionRaiseExit(BaseException)] + (if localsEscape then [LocalsUsage] else [])
  }

  /** What appending a call's events does to the trace collection. */
  lemma CallEventsEffect(trace: seq<Event>, localsEscape: bool)
    ensures var t := trace + CallEvents(localsEscape);
      && Extends(trace, t)
      && |t| == |trace| + 1 + (if localsEscape then 1 else 0)
      && |t| > |trace| && t[|trace|] == ExceptionRaiseExit(BaseException)
      && Count(t, ExceptionRaiseExit(BaseException)) == Count(trace, ExceptionRaiseExit(BaseException)) + 1
      && Count(t, LocalsUsage) == Count(trace, LocalsUsage) + (if localsEscape then 1 else 0)
      && RaisedTypes(t) == RaisedTypes(trace) + {BaseException}
      && (LocalsEscaped(t) <==> LocalsEscaped(trace) || localsEscape)
  {
    var appended := CallEvents(localsEscape);
    var t := trace + appended;
    assert t[..|trace|] == trace;
    assert t[|trace|] == appended[0];
    CountAppend(trace, appended, ExceptionRaiseExit(BaseException));
    CountAppend(trace, appended, LocalsUsage);
    FactsOfAppend(trace, appended);
    assert RaisedTypes(appended) == {BaseException} by {
      assert appended[0] == ExceptionRaiseExit(BaseException);
    }
    assert LocalsEscaped(appended) <==> localsEscape;
  }

  /** `computeExpressionCall` of the value reference, inherited by the original reference. */
  function ValueRefCall(env: Env, ref: BuiltinRef, callNode: Node, trace: seq<Event>): (s: Step)
    requires ref.kind == ValueRef || ref.kind == OriginalRef
    ensures Extends(trace, s.trace)
    ensures |s.trace| == |trace| + 1 + (if ref.name in LocalsEscapeNames then 1 else 0)
    ensures |s.trace| > |trace| && s.trace[|trace|] == ExceptionRaiseExit(BaseException)
    ensures Count(s.trace, ExceptionRaiseExit(BaseException))
         == Count(trace, ExceptionRaiseExit(BaseException)) + 1
    ensures Count(s.trace, LocalsUsage)
         == Count(trace, LocalsUsage) + (if ref.name in LocalsEscapeNames then 1 else 0)
    ensures RaisedTypes(s.trace) == RaisedTypes(trace) + {BaseException}
    ensures LocalsEscaped(s.trace) <==> LocalsEscaped(trace) || ref.name in LocalsEscapeNames
    ensures s.result == env.computeBuiltinCall(callNode, ref)
  {
    // Anything may happen: recorded before specialisation is attempted.
    var afterRaise := trace + [ExceptionRaiseExit(BaseException)];
    var rewrite := env.computeBuiltinCall(callNode, ref);
    var escape := ref.name in LocalsEscapeNames;
    var afterCall := if escape then afterRaise + [LocalsUsage] else afterRaise;
    assert afterCall == trace + CallEvents(escape);
    CallEventsEffect(trace, escape);
    Step(rewrite, afterCall)
  }

  /** Whether the ImportError keyword-argument guard blocks specialisation. */
  predicate ImportErrorGuard(env: Env, name: string, callKw: Option<Node>)
  {
    && name == "ImportError"
    && env.pythonVersion >= ImportErrorKeywordVersion
    && callKw.Some?
    && (!callKw.value.ConstantRefNode? || !IsEmptyDict(callKw.value.constant))
  }

  /** The constructor closure handed to the argument binder for exception `name`. */
  function MakeExceptionConstructor(name: string): Constructor
  {
    (args: seq<Node>, source: SourceRef) => MakeExceptionNode(name, args, source)
  }

  /** What the argument binder makes of `callNode` for exception `name`. */
  function BindExceptionCall(env: Env, name: string, callNode: Node): Option<Node>
  {
    env.extractBuiltinArgs(callNode, env.exceptionParameterSpec(name), MakeExceptionConstructor(name))
  }

  /** `computeExpressionCall` of the exception reference. */
  function ExceptionRefCall(env: Env, ref: BuiltinRef, callNode: Node, callKw: Option<Node>)
    : (r: Rewrite)
    requires ref.kind == ExceptionRef
    ensures r.tag.None? <==>
      ImportErrorGuard(env, ref.name, callKw) || BindExceptionCall(env, ref.name, callNode).None?
    ensures r.tag.None? ==> r == Unchanged(callNode)
    ensures r.tag.Some? ==>
      && r.tag == Some(NewExpressionTag)
      && r.message == Some(ExceptionMakingMessage)
      && BindExceptionCall(env, ref.name, callNode) == Some(r.node)
  {
    if ImportErrorGuard(env, ref.name, callKw) then
      Unchanged(callNode)
    else
      var newNode := BindExceptionCall(env, ref.name, callNode);
      if newNode.None? then Unchanged(callNode)
      else Rewrite(newNode.value, Some(NewExpressionTag), Some(ExceptionMakingMessage))
  }

  /** `computeExpressionCall` of each variant, threading the trace collection. */
  function ComputeCall(env: Env, ref: BuiltinRef, callNode: Node, callArgs: Option<Node>,
                       callKw: Option<Node>, trace: seq<Event>): (s: Step)
    ensures ref.kind != AnonymousRef ==> Extends(trace, s.trace)
    ensures ref.kind == ExceptionRef ==> s.trace == trace
    ensures (ref.kind == ValueRef || ref.kind == OriginalRef) ==>
      && |s.trace| > |trace| && s.trace[|trace|] == ExceptionRaiseExit(BaseException)
      && Count(s.trace, ExceptionRaiseExit(BaseException))
         == Count(trace, ExceptionRaiseExit(BaseException)) + 1
      && |s.trace| == |trace| + 1 + (if ref.name in LocalsEscapeNames then 1 else 0)
      && Count(s.trace, LocalsUsage)
         == Count(trace, LocalsUsage) + (if ref.name in LocalsEscapeNames then 1 else 0)
      && RaisedTypes(s.trace) == RaisedTypes(trace) + {BaseException}
      && (LocalsEscaped(s.trace) <==> LocalsEscaped(trace) || ref.name in LocalsEscapeNames)
      && s.result == env.computeBuiltinCall(callNode, ref)
    ensures ref.kind == ExceptionRef ==>
      && (s.result.tag.None? <==>
            ImportErrorGuard(env, ref.name, callKw) || BindExceptionCall(env, ref.name, callNode).None?)
      && (s.result.tag.None? ==> s.result == Unchanged(callNode))
      && (s.result.tag.Some? ==>
            && s.result.tag == Some(NewExpressionTag)
            && s.result.message == Some(ExceptionMakingMessage)
            && BindExceptionCall(env, ref.name, callNode) == Some(s.result.node))
    ensures ref.kind == AnonymousRef ==> s == env.inheritedCall(ref, callNode, callArgs, callKw, trace)
  {
    match ref.kind
    case ValueRef => ValueRefCall(env, ref, callNode, trace)
    case OriginalRef => ValueRefCall(env, ref, callNode, trace)
    case ExceptionRef => Step(ExceptionRefCall(env, ref, callNode, callKw), trace)
    // Not defined by the reference family: inherited from the expression base class.
    case AnonymousRef => env.inheritedCall(ref, callNode, callArgs, callKw, trace)
  }

  // ---------------------------------------------------------------------------
  // Properties of call specialisation

  /** ImportError called with keywords that are not the constant `{}` is left alone
      from version 3.3 on, whatever the binder would have produced. */
  lemma ImportErrorKeywordCallUnchanged(env: Env, ref: BuiltinRef, callNode: Node, kw: Node)
    requires ref.kind == ExceptionRef && ref.name == "ImportError"
    requires env.pythonVersion >= ImportErrorKeywordVersion
    requires !kw.ConstantRefNode? || !IsEmptyDict(kw.constant)
    ensures ExceptionRefCall(env, ref, callNode, Some(kw)) == Unchanged(callNode)
  {
  }

  /** The guard blocks only ImportError, only from version 3.3, and only for keywords
      that are present and not the constant `{}`; otherwise the binder decides. */
  lemma GuardIsNarrow(env: Env, ref: BuiltinRef, callNode: Node, callKw: Option<Node>)
    requires ref.kind == ExceptionRef
    requires || ref.name != "ImportError"
             || env.pythonVersion < ImportErrorKeywordVersion
             || callKw.None?
             || (callKw.value.ConstantRefNode? && IsEmptyDict(callKw.value.constant))
    ensures var bound := BindExceptionCall(env, ref.name, callNode);
      ExceptionRefCall(env, ref, callNode, callKw)
        == if bound.None? then Unchanged(callNode)
           else Rewrite(bound.value, Some(NewExpressionTag), Some(ExceptionMakingMessage))
  {
  }

  /** A call of an exception reference with no positional and no keyword arguments,
      which the binder binds to an empty argument list and builds through the given
      constructor at the call's position, becomes an exception-making node with no
      arguments; the trace is left as it was. */
  lemma ExceptionZeroArgumentsBuild(env: Env, ref: BuiltinRef, callNode: Node, callSource: SourceRef,
                                    trace: seq<Event>)
    requires ref.kind == ExceptionRef
    requires callNode == CallNode(BuiltinRefNode(ref), None, None, callSource)
    requires env.extractBuiltinArgs(callNode, env.exceptionParameterSpec(ref.name),
                                    MakeExceptionConstructor(ref.name))
          == Some(MakeExceptionConstructor(ref.name)([], callSource))
    ensures ComputeCall(env, ref, callNode, None, None, trace)
         == Step(Rewrite(MakeExceptionNode(ref.name, [], callSource), Some(NewExpressionTag),
                         Some(ExceptionMakingMessage)), trace)
  {
  }

  /** A call through an original reference records the same events as one through the
      value reference of the same name; only the bridge sees which variant it got. */
  lemma OriginalCallTracesLikeValue(env: Env, name: string, source: SourceRef, callNode: Node,
                                    callArgs: Option<Node>, callKw: Option<Node>, trace: seq<Event>)
    ensures var original := ComputeCall(env, BuiltinRef(OriginalRef, name, source), callNode, callArgs, callKw, trace);
            var value := ComputeCall(env, BuiltinRef(ValueRef, name, source), callNode, callArgs, callKw, trace);
      original.trace == value.trace
  {
  }

  /** Specialising a call through a value, original or exception reference never
      retracts a fact from the trace collection. */
  lemma CallsOnlyAddFacts(env: Env, ref: BuiltinRef, callNode: Node, callArgs: Option<Node>,
                          callKw: Option<Node>, trace: seq<Event>)
    requires ref.kind != AnonymousRef
    ensures var s := ComputeCall(env, ref, callNode, callArgs, callKw, trace);
      && RaisedTypes(trace) <= RaisedTypes(s.trace)
      && (LocalsEscaped(trace) ==> LocalsEscaped(s.trace))
  {
  }
}
