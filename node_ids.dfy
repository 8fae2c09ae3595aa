/**
 * Node identities of the Val syntax tree: a raw integer tagged with the concrete kind of the
 * node it names. The kind-subset identity families of the compiler (any declaration, any
 * expression, any scope, any pattern, and one family per concrete kind) are subset types of
 * `NodeId`; widening is the subtype coercion and narrowing is `Narrow`.
 *
 * The set of kinds is a representative selection: the kinds the typed-program layer names,
 * plus a few that stand for the other members of each family.
 */
module NodeIds {
  import opened Wrappers

  datatype NodeKind =
    | ModuleDeclKind
    | TranslationUnitKind
    | ProductTypeDeclKind
    | FunctionDeclKind
    | SubscriptDeclKind
    | SubscriptImplKind
    | ParameterDeclKind
    | BindingDeclKind
    | VarDeclKind
    | NameExprKind
    | SequenceExprKind
    | IntegerLiteralExprKind
    | MapLiteralExprKind
    | BraceStmtKind
    | NamePatternKind
    | BindingPatternKind
    | TuplePatternKind
  {
    /** The kinds whose identities are declaration identities. */
    predicate IsDecl() {
      || ModuleDeclKind? || ProductTypeDeclKind? || FunctionDeclKind? || SubscriptDeclKind?
      || SubscriptImplKind? || ParameterDeclKind? || BindingDeclKind? || VarDeclKind?
    }

    /** The kinds whose identities are expression identities. */
    predicate IsExpr() {
      NameExprKind? || SequenceExprKind? || IntegerLiteralExprKind? || MapLiteralExprKind?
    }

    /** The kinds whose nodes open a lexical scope. */
    predicate IsScope() {
      || ModuleDeclKind? || TranslationUnitKind? || ProductTypeDeclKind? || FunctionDeclKind?
      || SubscriptDeclKind? || SubscriptImplKind? || BraceStmtKind?
    }

    /** The kinds whose identities are pattern identities. */
    predicate IsPattern() {
      NamePatternKind? || BindingPatternKind? || TuplePatternKind?
    }
  }

  /** The universal identity (`AnyNodeID`): equality compares the raw value and the kind. */
  datatype NodeId = NodeId(raw: int, kind: NodeKind)

  type AnyDeclId = i: NodeId | i.kind.IsDecl() witness NodeId(0, ModuleDeclKind)
  type AnyExprId = i: NodeId | i.kind.IsExpr() witness NodeId(0, NameExprKind)
  type AnyScopeId = i: NodeId | i.kind.IsScope() witness NodeId(0, ModuleDeclKind)
  type AnyPatternId = i: NodeId | i.kind.IsPattern() witness NodeId(0, NamePatternKind)

  type ModuleDeclId = i: NodeId | i.kind == ModuleDeclKind witness NodeId(0, ModuleDeclKind)
  type TranslationUnitId = i: NodeId | i.kind == TranslationUnitKind witness NodeId(0, TranslationUnitKind)
  type FunctionDeclId = i: NodeId | i.kind == FunctionDeclKind witness NodeId(0, FunctionDeclKind)
  type SubscriptDeclId = i: NodeId | i.kind == SubscriptDeclKind witness NodeId(0, SubscriptDeclKind)
  type SubscriptImplId = i: NodeId | i.kind == SubscriptImplKind witness NodeId(0, SubscriptImplKind)
  type ParameterDeclId = i: NodeId | i.kind == ParameterDeclKind witness NodeId(0, ParameterDeclKind)
  type BindingDeclId = i: NodeId | i.kind == BindingDeclKind witness NodeId(0, BindingDeclKind)
  type VarDeclId = i: NodeId | i.kind == VarDeclKind witness NodeId(0, VarDeclKind)
  type NameExprId = i: NodeId | i.kind == NameExprKind witness NodeId(0, NameExprKind)
  type SequenceExprId = i: NodeId | i.kind == SequenceExprKind witness NodeId(0, SequenceExprKind)
  type BraceStmtId = i: NodeId | i.kind == BraceStmtKind witness NodeId(0, BraceStmtKind)
  type NamePatternId = i: NodeId | i.kind == NamePatternKind witness NodeId(0, NamePatternKind)

  /**
   * Narrows `i` to the concrete kind `k` (`NodeID<T>(i)`): succeeds, with the same identity,
   * exactly when the kind tag of `i` is `k`.
   */
  function Narrow(i: NodeId, k: NodeKind): (r: Option<NodeId>)
    ensures r.Some? <==> i.kind == k
    ensures r.Some? ==> r.value == i && r.value.kind == k
  {
    if i.kind == k then Some(i) else None
  }

  /**
   * Identity round trip: a node of kind `k`, once widened, narrows back to `k` and to no other
   * concrete kind; narrowing to the kind already obtained changes nothing.
   */
  lemma NarrowRoundTrip(i: NodeId, k: NodeKind)
    ensures Narrow(i, i.kind) == Some(i)
    ensures k != i.kind ==> Narrow(i, k) == None
    ensures Narrow(i, k).Some? ==> Narrow(Narrow(i, k).value, k) == Narrow(i, k)
  {
  }
}
