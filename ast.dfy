/**
 * The syntax arena as the typed-program layer sees it: nodes addressable by identity, the list
 * of modules, the optional core library, and the two queries that walk the tree
 * (`names(in:)` and `topLevelDecls(_)`), which are produced by the parser and are kept here as
 * given total functions rather than re-derived.
 *
 * Only the syntax fields read by the typed-program layer are modelled; all other nodes are
 * `OtherNode`s carrying their kind.
 */
module Ast {
  import opened Wrappers
  import opened NodeIds

  /** The body of a function declaration: an expression or a brace statement. */
  datatype FunctionBody = ExprBody(expr: AnyExprId) | BlockBody(block: BraceStmtId)

  /** The domain of a name expression: none, implicit (a member of `self`), or an expression. */
  datatype NameDomain = NoDomain | ImplicitDomain | ExprDomain(expr: AnyExprId)

  datatype Node =
    | FunctionDecl(
        receiver: Option<ParameterDeclId>,
        explicitCaptures: seq<BindingDeclId>,
        body: Option<FunctionBody>)
    | SubscriptDecl(
        receiver: Option<ParameterDeclId>,
        explicitCaptures: seq<BindingDeclId>,
        impls: seq<SubscriptImplId>)
    | SubscriptImpl(receiver: Option<ParameterDeclId>, body: Option<FunctionBody>)
    | NameExpr(domain: NameDomain, name: string)
    | VarDecl(identifier: string)
    | OtherNode(kind: NodeKind)

  /** A name introduced by a pattern, with its structural path inside the pattern. */
  datatype PatternName = PatternName(path: seq<int>, pattern: NamePatternId)

  datatype Ast = Ast(
    nodes: map<NodeId, Node>,
    modules: seq<ModuleDeclId>,
    coreLibrary: Option<ModuleDeclId>,
    names: AnyPatternId -> seq<PatternName>,
    topLevelDecls: ModuleDeclId -> seq<AnyDeclId>)
  {
    predicate HasFunctionDecl(d: NodeId) {
      d in nodes && nodes[d].FunctionDecl?
    }

    predicate HasSubscriptDecl(d: NodeId) {
      d in nodes && nodes[d].SubscriptDecl?
    }

    predicate HasSubscriptImpl(d: NodeId) {
      d in nodes && nodes[d].SubscriptImpl?
    }

    predicate HasNameExpr(d: NodeId) {
      d in nodes && nodes[d].NameExpr?
    }
  }
}
