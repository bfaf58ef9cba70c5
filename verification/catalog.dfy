/**
 The builtin catalog and the construction-time validation of reference nodes.

 Each variant's constructor asserts that its name belongs to the variant's own
 table; a failed assertion is an internal error of the compiler, modelled here
 as a `Failure` result.
 */
module BuiltinCatalog {
  import opened Wrappers
  import opened Nodes

  /** The statically known name tables the compiler is built with. */
  datatype Catalog = Catalog(
    builtinNames: set<string>,
    anonNames: set<string>,
    exceptionNames: set<string>)

  datatype ConstructionError = InvalidBuiltinName(kind: RefKind, name: string)

  /** The table a variant's name must come from. */
  function RequiredNames(c: Catalog, kind: RefKind): set<string>
  {
    match kind
    case ValueRef => c.builtinNames
    case OriginalRef => c.builtinNames
    case AnonymousRef => c.anonNames
    case ExceptionRef => c.exceptionNames
  }

  /** The invariant every constructed reference node carries. */
  predicate ValidRef(c: Catalog, r: BuiltinRef)
  {
    r.name in RequiredNames(c, r.kind)
  }

  /**
   Constructs a reference node of variant `kind`. The name check is a Python
   `assert`, so it only runs when the compiler's own interpreter has assertions
   enabled (`__debug__`, false under `-O`); then a name outside the variant's
   table fails.
   */
  function MakeRef(c: Catalog, kind: RefKind, name: string, source: SourceRef,
                   assertionsEnabled: bool)
    : (r: Result<BuiltinRef, ConstructionError>)
    ensures r.Success? <==> !assertionsEnabled || name in RequiredNames(c, kind)
    ensures r.Success? ==> r.value == BuiltinRef(kind, name, source)
    ensures assertionsEnabled && r.Success? ==> ValidRef(c, r.value)
    ensures r.Failure? ==> r.error == InvalidBuiltinName(kind, name)
  {
    if !assertionsEnabled || name in RequiredNames(c, kind) then Success(BuiltinRef(kind, name, source))
    else Failure(InvalidBuiltinName(kind, name))
  }

  /** With assertions enabled each variant checks its own table: value and original
      references the builtin names, anonymous references the anonymous names,
      exception references the exception names. */
  lemma ConstructionChecksOwnTable(c: Catalog, name: string, source: SourceRef)
    ensures MakeRef(c, ValueRef, name, source, true).Success? <==> name in c.builtinNames
    ensures MakeRef(c, OriginalRef, name, source, true).Success? <==> name in c.builtinNames
    ensures MakeRef(c, AnonymousRef, name, source, true).Success? <==> name in c.anonNames
    ensures MakeRef(c, ExceptionRef, name, source, true).Success? <==> name in c.exceptionNames
  {
  }

  /** With assertions disabled no name is rejected, whatever the variant. */
  lemma UncheckedConstructionAcceptsAll(c: Catalog, kind: RefKind, name: string, source: SourceRef)
    ensures MakeRef(c, kind, name, source, false) == Success(BuiltinRef(kind, name, source))
  {
  }

  /** The original reference inherits the value reference's check unchanged. */
  lemma OriginalInheritsValueCheck(c: Catalog, name: string, source: SourceRef,
                                   assertionsEnabled: bool)
    ensures MakeRef(c, OriginalRef, name, source, assertionsEnabled).Success?
        <==> MakeRef(c, ValueRef, name, source, assertionsEnabled).Success?
  {
  }
}
