/**
 * Typed nodes: a handle pairing a typed program with one node identity. A handle stores
 * nothing else; every accessor is a fresh lookup in the program's syntax arena or tables.
 * The kind family a Swift handle is statically restricted to (`ID: ScopeID`, `ID: DeclID`, ...)
 * is a precondition on the kind of `id` here, and each Swift force-unwrap is a precondition
 * that the key is present.
 */
module TypedNodes {
  import opened Wrappers
  import opened NodeIds
  import opened Ast
  import opened TypedPrograms

  /** The state of a hasher as the sequence of identities combined into it. */
  datatype Hasher = Hasher(combined: seq<NodeId>)

  /** The typed domain of a name expression. */
  datatype TypedDomain = DomainNone | DomainImplicit | DomainExpr(expr: TypedNode)

  /** A typed reference to a declaration: direct, or a member bound to `self`. */
  datatype DeclRef = DirectRef(target: TypedNode) | MemberRef(target: TypedNode) {
    /** The referred declaration (`decl`), whichever the kind of reference. */
    function Decl(): (r: TypedNode)
      ensures this == DirectRef(r) || this == MemberRef(r)
    {
      match this
      case DirectRef(d) => d
      case MemberRef(d) => d
    }
  }

  /** The typed body of a function declaration. */
  datatype TypedBody = BodyExpr(expr: TypedNode) | BodyBlock(block: TypedNode)

  /** A name bound by a pattern, with its path inside the pattern and its typed name pattern. */
  datatype NamedPattern = NamedPattern(path: seq<int>, pattern: TypedNode)

  datatype TypedNode = TypedNode(program: TypedProgram, id: NodeId)
  {
    /** Handle equality (`==`): only the identities are compared. */
    predicate Equal(other: TypedNode)
      ensures Equal(other) <==> id.raw == other.id.raw && Kind() == other.Kind()
    {
      id == other.id
    }

    /** Feeds this handle into a hasher (`hash(into:)`): only the identity is combined. */
    function HashInto(h: Hasher): (r: Hasher)
      ensures |r.combined| == |h.combined| + 1
      ensures r.combined[..|h.combined|] == h.combined && r.combined[|h.combined|] == id
    {
      Hasher(h.combined + [id])
    }

    /** The kind of the node. */
    function Kind(): (r: NodeKind)
      ensures NodeIds.Narrow(id, r) == Some(id)
      ensures forall k :: NodeIds.Narrow(id, k).Some? ==> k == r
    {
      id.kind
    }

    /**
     * The handle of the same node at the concrete kind `k` (`init?(_:)`), or `None` when the
     * node is not of kind `k`.
     */
    function Narrow(k: NodeKind): (r: Option<TypedNode>)
      ensures r.None? <==> Kind() != k
      ensures r.Some? ==> r.value.program == program && r.value.id == id && r.value.Kind() == k
    {
      match NodeIds.Narrow(id, k)
      case Some(myId) => Some(TypedNode(program, myId))
      case None => None
    }

    /** The syntax node of this handle (`syntax`). */
    function Syntax(): (r: Node)
      requires id in program.ast.nodes
      ensures NodeIds.Narrow(id, id.kind).Some?
      ensures r == program.ast.nodes[id]
    {
      program.ast.nodes[id]
    }

    /** The parent scope of a scope, if any (`parent`). */
    function Parent(): (r: Option<TypedNode>)
      requires id.kind.IsScope()
      ensures r.None? <==> id !in program.scopeToParent
      ensures r.Some? ==> r.value.program == program && r.value.id == program.scopeToParent[id]
      ensures r.Some? ==> r.value.id.kind.IsScope()
    {
      if id in program.scopeToParent then Some(TypedNode(program, program.scopeToParent[id])) else None
    }

    /** The declarations immediately in a scope, in source order (`decls`). */
    function Decls(): (r: seq<TypedNode>)
      requires id.kind.IsScope()
      ensures id !in program.scopeToDecls ==> r == []
      ensures id in program.scopeToDecls ==>
        && |r| == |program.scopeToDecls[id]|
        && forall k :: 0 <= k < |r| ==> r[k] == TypedNode(program, program.scopeToDecls[id][k])
      ensures forall k :: 0 <= k < |r| ==> r[k].id.kind.IsDecl()
    {
      var ds: seq<AnyDeclId> := if id in program.scopeToDecls then program.scopeToDecls[id] else [];
      ProjectAll(program, ds)
    }

    /** The scope in which a declaration resides (`scope`). */
    function Scope(): (r: TypedNode)
      requires id.kind.IsDecl() && id in program.declToScope
      ensures r.program == program && r.id == program.declToScope[id]
      ensures r.id.kind.IsScope()
    {
      TypedNode(program, program.declToScope[id])
    }

    /** The type of a declared entity (`type` on declarations). */
    function DeclType(): (r: AnyType)
      requires id.kind.IsDecl() && id in program.declTypes
      ensures r == program.declTypes[id]
      ensures program.ModulesTyped() && id.kind == ModuleDeclKind && id in program.ast.modules ==>
        r.base.ModuleType?
    {
      program.declTypes[id]
    }

    /** The implicit captures of a declared entity, if any were recorded (`implicitCaptures`). */
    function ImplicitCaptures(): (r: Option<seq<ImplicitCapture>>)
      requires id.kind.IsDecl()
      ensures r.None? <==> id !in program.implicitCaptures
      ensures r.Some? ==> r.value == program.implicitCaptures[id]
    {
      if id in program.implicitCaptures then Some(program.implicitCaptures[id]) else None
    }

    /** The binding declaration introducing a variable (`binding`). */
    function Binding(): (r: TypedNode)
      requires id.kind == VarDeclKind && id in program.varToBinding
      ensures r.program == program && r.id == program.varToBinding[id]
      ensures r.id.kind == BindingDeclKind
    {
      TypedNode(program, program.varToBinding[id])
    }

    /** The type of an expression (`type` on expressions). */
    function ExprType(): (r: AnyType)
      requires id.kind.IsExpr() && id in program.exprTypes
      ensures r == program.exprTypes[id]
    {
      program.exprTypes[id]
    }

    /** The typed domain of a name expression (`domain`). */
    function Domain(): (r: TypedDomain)
      requires id.kind == NameExprKind && program.ast.HasNameExpr(id)
      ensures r.DomainNone? <==> Syntax().domain.NoDomain?
      ensures r.DomainImplicit? <==> Syntax().domain.ImplicitDomain?
      ensures r.DomainExpr? <==> Syntax().domain.ExprDomain?
      ensures r.DomainExpr? ==>
        r.expr.program == program && r.expr.id == Syntax().domain.expr && r.expr.id.kind.IsExpr()
    {
      match Syntax().domain
      case NoDomain => DomainNone
      case ImplicitDomain => DomainImplicit
      case ExprDomain(e) => DomainExpr(TypedNode(program, e))
    }

    /** The declaration a name expression refers to, keeping the kind of reference (`decl`). */
    function Decl(): (r: DeclRef)
      requires id.kind == NameExprKind && id in program.referredDecls
      ensures r.MemberRef? <==> program.referredDecls[id].Member?
      ensures r.Decl().program == program && r.Decl().id == program.referredDecls[id].decl
      ensures r.Decl().id.kind.IsDecl()
    {
      match program.referredDecls[id]
      case Direct(d) => DirectRef(TypedNode(program, d))
      case Member(d) => MemberRef(TypedNode(program, d))
    }

    /** The names bound by a pattern, each with its path (`names`). */
    function Names(): (r: seq<NamedPattern>)
      requires id.kind.IsPattern()
      ensures |r| == |program.ast.names(id)|
      ensures forall k :: 0 <= k < |r| ==>
        && r[k].path == program.ast.names(id)[k].path
        && r[k].pattern == TypedNode(program, program.ast.names(id)[k].pattern)
        && r[k].pattern.id.kind == NamePatternKind
    {
      ProjectNames(program, program.ast.names(id))
    }

    /** The top-level declarations of a module, in source order (`topLevelDecls`). */
    function TopLevelDecls(): (r: seq<TypedNode>)
      requires id.kind == ModuleDeclKind
      ensures |r| == |program.ast.topLevelDecls(id)|
      ensures forall k :: 0 <= k < |r| ==> r[k] == TypedNode(program, program.ast.topLevelDecls(id)[k])
      ensures forall k :: 0 <= k < |r| ==> r[k].id.kind.IsDecl()
    {
      ProjectAll(program, program.ast.topLevelDecls(id))
    }

    /** The typed body of a function declaration, if it has one (`body`). */
    function Body(): (r: Option<TypedBody>)
      requires id.kind == FunctionDeclKind && program.ast.HasFunctionDecl(id)
      ensures r.None? <==> Syntax().body.None?
      ensures r.Some? && r.value.BodyExpr? <==> Syntax().body.Some? && Syntax().body.value.ExprBody?
      ensures r.Some? && r.value.BodyBlock? <==> Syntax().body.Some? && Syntax().body.value.BlockBody?
      ensures r.Some? && r.value.BodyExpr? ==>
        r.value.expr == TypedNode(program, Syntax().body.value.expr) && r.value.expr.id.kind.IsExpr()
      ensures r.Some? && r.value.BodyBlock? ==>
        r.value.block == TypedNode(program, Syntax().body.value.block) && r.value.block.id.kind == BraceStmtKind
    {
      match Syntax().body
      case Some(ExprBody(e)) => Some(BodyExpr(TypedNode(program, e)))
      case Some(BlockBody(s)) => Some(BodyBlock(TypedNode(program, s)))
      case None => None
    }

    /** The folded form of a sequence expression, if it was folded (`foldedSequenceExprs`). */
    function FoldedSequenceExprs(): (r: Option<FoldedSequenceExpr>)
      requires id.kind == SequenceExprKind
      ensures r.None? <==> id !in program.foldedSequenceExprs
      ensures r.Some? ==> r.value == program.foldedSequenceExprs[id]
    {
      if id in program.foldedSequenceExprs then Some(program.foldedSequenceExprs[id]) else None
    }
  }

  /** Bundles `id` with `p` (`TypedProgram.subscript(_:)`). */
  function At(p: TypedProgram, id: NodeId): (n: TypedNode)
    ensures n.program == p && n.id == id && n.Kind() == id.kind
  {
    TypedNode(p, id)
  }

  /** Projects each identity of `ids` into `p`, keeping the order. */
  function ProjectAll(p: TypedProgram, ids: seq<NodeId>): (r: seq<TypedNode>)
    ensures |r| == |ids|
    ensures forall k :: 0 <= k < |ids| ==> r[k] == TypedNode(p, ids[k])
  {
    if ids == [] then [] else [TypedNode(p, ids[0])] + ProjectAll(p, ids[1..])
  }

  /** Projects the pattern of each name into `p`, keeping each path and the order. */
  function ProjectNames(p: TypedProgram, names: seq<PatternName>): (r: seq<NamedPattern>)
    ensures |r| == |names|
    ensures forall k :: 0 <= k < |names| ==>
      r[k].path == names[k].path && r[k].pattern == TypedNode(p, names[k].pattern)
  {
    if names == [] then [] else [NamedPattern(names[0].path, TypedNode(p, names[0].pattern))] + ProjectNames(p, names[1..])
  }

  /**
   * The core library of the program as a typed module, if the program has one
   * (`coreLibrary`, declared with the typed program; it lives here because it returns a handle).
   */
  function CoreLibrary(p: TypedProgram): (r: Option<TypedNode>)
    ensures r.None? <==> p.ast.coreLibrary.None?
    ensures r.Some? ==> r.value.program == p && r.value.id == p.ast.coreLibrary.value
    ensures r.Some? ==> r.value.Kind() == ModuleDeclKind
  {
    match p.ast.coreLibrary
    case Some(m) => Some(At(p, m))
    case None => None
  }
  // ---------------------------------------------------------------------------------------
  // Properties of the projection

  /**
   * Handles are equal exactly when their identities are, whatever programs they carry, and
   * equal handles hash alike from any hasher state.
   */
  lemma EqualityByIdentity(a: TypedNode, b: TypedNode, h: Hasher)
    ensures a.Equal(b) <==> a.id == b.id
    ensures a.Equal(b) ==> a.HashInto(h) == b.HashInto(h)
    ensures a.HashInto(h).combined == h.combined + [a.id]
  {
  }

  /** Handle equality is an equivalence relation. */
  lemma EqualIsEquivalence(a: TypedNode, b: TypedNode, c: TypedNode)
    ensures a.Equal(a)
    ensures a.Equal(b) ==> b.Equal(a)
    ensures a.Equal(b) && b.Equal(c) ==> a.Equal(c)
  {
  }

  /**
   * A handle narrows to its own kind, giving an equal handle over the same program, and to no
   * other kind.
   */
  lemma NarrowToOwnKind(n: TypedNode, k: NodeKind)
    ensures n.Narrow(n.Kind()).Some?
    ensures n.Narrow(n.Kind()).value.Equal(n) && n.Narrow(n.Kind()).value.program == n.program
    ensures k != n.Kind() ==> n.Narrow(k).None?
  {
  }

  /**
   * Two equal handles over the same program answer every query alike: a handle holds no data
   * beyond its identity and its program.
   */
  lemma EqualHandlesAgree(a: TypedNode, b: TypedNode)
    requires a.program == b.program && a.Equal(b)
    ensures a == b
    ensures a.Kind() == b.Kind()
    ensures a.id.kind.IsDecl() && a.id in a.program.declTypes ==> a.DeclType() == b.DeclType()
    ensures a.id.kind.IsExpr() && a.id in a.program.exprTypes ==> a.ExprType() == b.ExprType()
    ensures a.id.kind.IsDecl() && a.id in a.program.declToScope ==> a.Scope().Equal(b.Scope())
    ensures a.id.kind.IsDecl() ==> a.ImplicitCaptures() == b.ImplicitCaptures()
    ensures a.id.kind == VarDeclKind && a.id in a.program.varToBinding ==> a.Binding().Equal(b.Binding())
    ensures a.id.kind == SequenceExprKind ==> a.FoldedSequenceExprs() == b.FoldedSequenceExprs()
  {
  }

  /**
   * The capture list of a receiver-less function is its explicit captures followed by the
   * implicit captures its handle reports.
   */
  lemma CapturesThroughProjection(p: TypedProgram, d: FunctionDeclId)
    requires FunctionCapturesDefined(p, d) && p.ast.nodes[d].receiver.None?
    ensures At(p, d).ImplicitCaptures().Some?
    ensures ExplicitThenImplicit(
      FunctionCaptures(p, d), p.ast.nodes[d].explicitCaptures, At(p, d).ImplicitCaptures().value)
  {
  }

  /** Variables of one destructuring binding lead to equal binding handles. */
  lemma SharedBinding(p: TypedProgram, x: VarDeclId, y: VarDeclId)
    requires x in p.varToBinding && y in p.varToBinding
    requires p.varToBinding[x] == p.varToBinding[y]
    ensures At(p, x).Binding().Equal(At(p, y).Binding())
  {
  }

  /**
   * The scope tables agree with each other: every declaration listed in a scope points back to
   * that scope, and every declaration is listed in the scope it points to. This is what scope
   * resolution guarantees; the typed program stores the tables without checking it.
   */
  ghost predicate ScopeTablesAgree(p: TypedProgram) {
    && (forall s, k :: s in p.scopeToDecls && 0 <= k < |p.scopeToDecls[s]| ==>
          p.scopeToDecls[s][k] in p.declToScope && p.declToScope[p.scopeToDecls[s][k]] == s)
    && (forall d :: d in p.declToScope ==>
          p.declToScope[d] in p.scopeToDecls && d in p.scopeToDecls[p.declToScope[d]])
  }

  /** Every declaration of a scope, as a handle, has that scope as its scope. */
  lemma DeclsPointBack(p: TypedProgram, s: AnyScopeId, k: nat)
    requires ScopeTablesAgree(p)
    requires k < |At(p, s).Decls()|
    ensures At(p, s).Decls()[k].id in p.declToScope
    ensures At(p, s).Decls()[k].Scope().Equal(At(p, s))
  {
  }

  /** The scope of a declaration lists that declaration among its declarations. */
  lemma ScopeListsDecl(p: TypedProgram, d: AnyDeclId)
    requires ScopeTablesAgree(p) && d in p.declToScope
    ensures exists k :: 0 <= k < |At(p, d).Scope().Decls()| && At(p, d).Scope().Decls()[k].Equal(At(p, d))
  {
    var ds := p.scopeToDecls[p.declToScope[d]];
    var k :| 0 <= k < |ds| && ds[k] == d;
    assert At(p, d).Scope().Decls()[k].Equal(At(p, d));
  }
}
