# Builtin-reference nodes of the Nuitka optimizer, modelled in Dafny

Nuitka represents a reference to a Python builtin as an expression node. There
are four variants: a value reference (`ExpressionBuiltinRef`), an "original"
value reference that denotes the builtin as CPython defines it
(`ExpressionBuiltinOriginalRef`), a reference to an anonymous runtime singleton
(`ExpressionBuiltinAnonymousRef`) and a reference to an exception class
(`ExpressionBuiltinExceptionRef`). The optimizer drives each node through two
entry points that return a `(node, tag, message)` triple:

- `computeExpressionRaw` folds the node itself. Only a value reference to
  `None`, `True`, `False`, `__debug__` or `Ellipsis` folds, into a constant.
- `computeExpressionCall` specialises a call whose callee is the node. Value and
  original references first record "may raise `BaseException`" in the trace
  collection. They then hand the call to the builtin-call optimizer and, for
  `dir`, `eval`, `exec`, `execfile`, `locals` and `vars`, record that the local
  variables escaped. Exception references build an exception-making node
  through the argument binder, except for an `ImportError` call with keyword
  arguments on Python 3.3 and later.

Layout:

- `wrappers.dfy` (`Wrappers`): `Option` and `Result`.
- `trace.dfy` (`Trace`): the trace collection as an append-only sequence of
  events, with event counts and the facts derived from the events.
- `nodes.dfy` (`Nodes`): constants, the reference variants, the other expression
  nodes involved, and the rewrite triple.
- `catalog.dfy` (`BuiltinCatalog`): the three name tables and construction-time
  validation. The check is a Python `assert`, so it runs only while the
  compiler's own interpreter has assertions enabled (`__debug__`, false under
  `-O`). A failed assertion is a `Failure` result; with assertions disabled
  every name constructs.
- `builtin_refs.dfy` (`BuiltinRefs`): the shared predicates, both entry points
  for every variant, and the lemmas about them.

The external collaborators are fields of the `Env` datatype and are
uninterpreted: `computeBuiltinCall`, `extractBuiltinArgs`,
`makeBuiltinExceptionParameterSpec`, `python_version` (as an integer such as
`330` for 3.3) and the compiling interpreter's `__debug__`. A trace event is
`ExceptionRaiseExit(type)` for `onExceptionRaiseExit` or `LocalsUsage` for
`onLocalsUsage`.

`computeExpressionCall` of a value reference returns whatever tag
`computeBuiltinCall` produces, so tags are arbitrary optional strings. No
constructor checks that a name is non-empty, so the model does not require it.

## Model

| member | source | states |
|---|---|---|
| BuiltinCatalog.MakeRef | nuitka/nodes/BuiltinRefNodes.py:85-92 | Construction succeeds exactly when assertions are disabled or the name is in the variant's table. On success the node has the given variant, name and position, and with assertions enabled it is valid. On failure it reports that variant and name. |
| BuiltinCatalog.ConstructionChecksOwnTable | nuitka/nodes/BuiltinRefNodes.py:168-196 | With assertions enabled, value and original references accept exactly `builtin_names`. Anonymous references accept exactly `builtin_anon_names`. Exception references accept exactly `builtin_exception_names`. |
| BuiltinCatalog.UncheckedConstructionAcceptsAll | nuitka/nodes/BuiltinRefNodes.py:86 | With assertions disabled, every variant constructs for every name. |
| BuiltinCatalog.OriginalInheritsValueCheck | nuitka/nodes/BuiltinRefNodes.py:149-150 | An original reference can be constructed for a name exactly when a value reference can. |
| BuiltinRefs.ReferenceIsInert | nuitka/nodes/BuiltinRefNodes.py:63-70 | Every reference is hashable, cannot raise any exception type, and has no side effects. |
| BuiltinRefs.OnlyOriginalIsNotConstant | nuitka/nodes/BuiltinRefNodes.py:152-155 | A reference is not a compile-time constant exactly when it is an original reference. |
| BuiltinRefs.ComputeRaw | nuitka/nodes/BuiltinRefNodes.py:100-120 | A fold happens exactly for a value reference to one of the five quick names. The fold gives a constant node at the reference's position holding the name's literal: `None`, `True`, `False`, the host's `__debug__`, or `Ellipsis`. It carries tag `"new_constant"` and a message that names the builtin. Every other case returns `(self, None, None)`. |
| BuiltinRefs.FoldMessageNamesBuiltin | nuitka/nodes/BuiltinRefNodes.py:117-118 | The builtin's name can be read back out of the folding message. |
| BuiltinRefs.RawFoldIdempotent | nuitka/nodes/BuiltinRefNodes.py:220-222 | When folding leaves a reference unchanged, folding the result again gives the same triple. |
| BuiltinRefs.UnfoldableVariantsAreFixpoints | nuitka/nodes/BuiltinRefNodes.py:183-184 | Anonymous and exception references never fold, and folding them twice gives the same node. |
| BuiltinRefs.OriginalNeverFoldsQuickNames | nuitka/nodes/BuiltinRefNodes.py:157-160 | For each quick name, the value reference folds to a constant while the original reference returns `(self, None, None)`. |
| BuiltinRefs.CallEventsEffect | nuitka/nodes/BuiltinRefNodes.py:128-137 | Appending a call's events keeps the old trace as a prefix and adds exactly one event, or two when locals escape. `BaseException` comes first. It is counted exactly once more. `LocalsUsage` is counted once more exactly when locals escape. The fact sets grow by exactly these events. |
| BuiltinRefs.ValueRefCall | nuitka/nodes/BuiltinRefNodes.py:122-139 | The call only appends to the trace, and the first appended event is `onExceptionRaiseExit(BaseException)`, recorded exactly once. One `onLocalsUsage` is appended if and only if the name is `dir`, `eval`, `exec`, `execfile`, `locals` or `vars`. Nothing else is appended. The bridge's triple is returned unchanged. |
| BuiltinRefs.ExceptionRefCall | nuitka/nodes/BuiltinRefNodes.py:224-254 | The result is `(call_node, None, None)` exactly when the ImportError guard holds or the binder returns nothing. Otherwise it is the binder's node, with tag `"new_expression"` and the fixed message. |
| BuiltinRefs.ImportErrorKeywordCallUnchanged | nuitka/nodes/BuiltinRefNodes.py:230-233 | Take an `ImportError` call on version 3.3 or later whose keywords are a non-constant or a constant other than `{}`. It returns `(call_node, None, None)`, whatever the binder does. |
| BuiltinRefs.GuardIsNarrow | nuitka/nodes/BuiltinRefNodes.py:230-254 | If the name is not `ImportError`, or the version is below 3.3, or keywords are absent or the constant `{}`, the binder alone decides the result. |
| BuiltinRefs.ExceptionZeroArgumentsBuild | nuitka/nodes/BuiltinRefNodes.py:235-254 | Take a call through an exception reference with no positional and no keyword arguments, which the binder binds to an empty argument list through the given constructor. It becomes an exception-making node for that name with an empty argument list, tag `"new_expression"`, and an unchanged trace. |
| BuiltinRefs.ComputeCall | nuitka/nodes/BuiltinRefNodes.py:122-254 | Value, original and exception references only append to the trace, and exception references leave it as it was. Value and original references record `BaseException` first and exactly once, record exactly one locals-usage event for the escape names and none otherwise, append nothing else, and return the bridge's triple. Exception references return `(call_node, None, None)` exactly when the ImportError guard holds or the binder returns nothing, and otherwise the binder's node with `"new_expression"` and the fixed message. |
| BuiltinRefs.OriginalCallTracesLikeValue | nuitka/nodes/BuiltinRefNodes.py:149-150 | An original reference inherits the value reference's call rewrite, so both record identical trace events for the same name. |
| BuiltinRefs.CallsOnlyAddFacts | nuitka/nodes/BuiltinRefNodes.py:128-137 | Specialising a call never removes an exception type or the locals-escaped fact from the trace collection. |
| Trace.Count | nuitka/nodes/BuiltinRefNodes.py:128-137 | An event's count in the trace is at most the trace's length. It is zero exactly when the event was never recorded. |
| Trace.CountAppend | nuitka/nodes/BuiltinRefNodes.py:128-137 | Counts add up across appended events. This is what turns "appended once" into "recorded exactly once more". |
| Trace.FactsMonotone | nuitka/nodes/BuiltinRefNodes.py:128-137 | Extending the trace never retracts a "may raise" type or the locals-escaped fact. |
| Trace.FactsOfAppend | nuitka/nodes/BuiltinRefNodes.py:128-137 | The facts of an extended trace are the old facts plus those of the appended events. |

## Left out

- Resolving the runtime value of a reference (`__builtins__[name]`, `builtin_anon_names[name]`, `builtin_exception_values[name]`): these are Python objects of the compiling interpreter, so the model has no value for them.
- `getStrValue` and `getStringValue`: they depend on the host interpreter's `str` and `repr` text. This also removes the only use of the constant factory's `user_provided` flag, so constant nodes here carry no such flag.
- `getDetails`, `getBuiltinName`, `getExceptionName`, `isKnownToBeIterable` (which always answers `None`), the `kind` strings, and `source_ref` plumbing other than passing the position through: none of them carry behaviour.
- The internals of `computeBuiltinCall`, `extractBuiltinArgs` and `makeBuiltinExceptionParameterSpec`: their source is not part of this model, so they are uninterpreted `Env` functions.
- BuiltinRefs.ComputeCall: a call through an anonymous reference uses `computeExpressionCall` inherited from the expression base class. `nuitka/nodes/ExpressionBases.py` is not part of this model, so this case is the uninterpreted `Env.inheritedCall`, and nothing is stated about its trace.
- BuiltinRefs.ComputeRaw: the source passes a trace collection to `computeExpressionRaw` but never uses it, so the model has no such parameter.
- The optimisation-pass driver and its fixpoint iteration, which live outside this component.
