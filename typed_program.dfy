/**
 * The typed program: the syntax arena of a scoped program together with the semantic tables
 * produced by type checking, all keyed by node identities and frozen at construction. The
 * module also holds the capture-list derivation for functions and subscript implementations.
 */
module TypedPrograms {
  import opened Wrappers
  import opened NodeIds
  import opened Ast

  /** The way a closure captures a free variable. */
  datatype CaptureMode = ByValue | ByReference

  /** A free-variable capture discovered while checking a function or subscript body. */
  datatype ImplicitCapture = ImplicitCapture(decl: AnyDeclId, mode: CaptureMode)

  /**
   * The structure of a type as far as this layer inspects it: whether it is a module type.
   * Every other type is a fact of the solver, held as an opaque token.
   */
  datatype TypeBase = ModuleType(decl: ModuleDeclId) | SolverType(token: nat)

  datatype AnyType = AnyType(base: TypeBase)

  // Facts computed by the constraint solver, which this layer only stores and returns.
  datatype GenericEnvironment = GenericEnvironment(token: nat)
  datatype SynthesizedDecl = SynthesizedDecl(token: nat)
  datatype FoldedSequenceExpr = FoldedSequenceExpr(token: nat)
  datatype TypeRelations = TypeRelations(token: nat)

  /** The resolution of a name: a free-standing declaration, or a member bound to `self`. */
  datatype DeclReference = Direct(decl: AnyDeclId) | Member(decl: AnyDeclId)

  /** The output of scope resolution, which a typed program annotates. */
  datatype ScopedProgram = ScopedProgram(
    ast: Ast,
    scopeToParent: map<NodeId, AnyScopeId>,
    scopeToDecls: map<NodeId, seq<AnyDeclId>>,
    declToScope: map<AnyDeclId, AnyScopeId>,
    exprToScope: map<NameExprId, AnyScopeId>,
    varToBinding: map<VarDeclId, BindingDeclId>)

  datatype TypedProgram = TypedProgram(
    ast: Ast,
    scopeToParent: map<NodeId, AnyScopeId>,
    scopeToDecls: map<NodeId, seq<AnyDeclId>>,
    declToScope: map<AnyDeclId, AnyScopeId>,
    exprToScope: map<NameExprId, AnyScopeId>,
    varToBinding: map<VarDeclId, BindingDeclId>,
    imports: map<TranslationUnitId, set<ModuleDeclId>>,
    declTypes: map<AnyDeclId, AnyType>,
    exprTypes: map<AnyExprId, AnyType>,
    implicitCaptures: map<AnyDeclId, seq<ImplicitCapture>>,
    environments: map<AnyDeclId, GenericEnvironment>,
    synthesizedDecls: map<ModuleDeclId, seq<SynthesizedDecl>>,
    referredDecls: map<NameExprId, DeclReference>,
    foldedSequenceExprs: map<SequenceExprId, FoldedSequenceExpr>,
    relations: TypeRelations)
  {
    /** Every module of the program has been type checked: its declared type is a module type. */
    predicate ModulesTyped() {
      AllModulesTyped(ast.modules, declTypes)
    }
  }

  predicate AllModulesTyped(modules: seq<ModuleDeclId>, declTypes: map<AnyDeclId, AnyType>) {
    forall i :: 0 <= i < |modules| ==> modules[i] in declTypes && declTypes[modules[i]].base.ModuleType?
  }

  /**
   * Creates a typed program from a scoped program and the tables computed by type checking
   * (`init(annotating:...)`). Callers must pass only programs whose modules all type checked;
   * the tables are stored as given.
   */
  function Annotating(
    program: ScopedProgram,
    imports: map<TranslationUnitId, set<ModuleDeclId>>,
    declTypes: map<AnyDeclId, AnyType>,
    exprTypes: map<AnyExprId, AnyType>,
    implicitCaptures: map<AnyDeclId, seq<ImplicitCapture>>,
    environments: map<AnyDeclId, GenericEnvironment>,
    synthesizedDecls: map<ModuleDeclId, seq<SynthesizedDecl>>,
    referredDecls: map<NameExprId, DeclReference>,
    foldedSequenceExprs: map<SequenceExprId, FoldedSequenceExpr>,
    relations: TypeRelations): (r: TypedProgram)
    requires AllModulesTyped(program.ast.modules, declTypes)
    ensures r.ModulesTyped()
    ensures r.ast == program.ast
    ensures r.scopeToParent == program.scopeToParent && r.scopeToDecls == program.scopeToDecls
    ensures r.declToScope == program.declToScope && r.exprToScope == program.exprToScope
    ensures r.varToBinding == program.varToBinding
    ensures r.imports == imports && r.declTypes == declTypes && r.exprTypes == exprTypes
    ensures r.implicitCaptures == implicitCaptures && r.environments == environments
    ensures r.synthesizedDecls == synthesizedDecls && r.referredDecls == referredDecls
    ensures r.foldedSequenceExprs == foldedSequenceExprs && r.relations == relations
  {
    TypedProgram(
      program.ast, program.scopeToParent, program.scopeToDecls, program.declToScope,
      program.exprToScope, program.varToBinding, imports, declTypes, exprTypes,
      implicitCaptures, environments, synthesizedDecls, referredDecls, foldedSequenceExprs,
      relations)
  }

  /** The module of a type-checked program has its declared type, and that type is a module type. */
  lemma ModuleHasModuleType(p: TypedProgram, m: ModuleDeclId)
    requires p.ModulesTyped() && m in p.ast.modules
    ensures m in p.declTypes && p.declTypes[m].base.ModuleType?
  {
  }

  // ---------------------------------------------------------------------------------------
  // Capture lists

  /** The captured declarations of a list of implicit captures, in the same order. */
  function CaptureDecls(cs: seq<ImplicitCapture>): (r: seq<AnyDeclId>)
    ensures |r| == |cs|
    ensures forall k :: 0 <= k < |cs| ==> r[k] == cs[k].decl
  {
    if cs == [] then [] else [cs[0].decl] + CaptureDecls(cs[1..])
  }

  /**
   * `r` lists the explicit captures `explicit`, left to right, followed by the declarations of
   * the implicit captures `implicit`, in stored order.
   */
  predicate ExplicitThenImplicit(r: seq<AnyDeclId>, explicit: seq<BindingDeclId>, implicit: seq<ImplicitCapture>) {
    && |r| == |explicit| + |implicit|
    && (forall k :: 0 <= k < |explicit| ==> r[k] == explicit[k])
    && (forall k :: 0 <= k < |implicit| ==> r[|explicit| + k] == implicit[k].decl)
  }

  /** The explicit-then-implicit order pins down a single capture list. */
  lemma ExplicitThenImplicitUnique(
    r1: seq<AnyDeclId>, r2: seq<AnyDeclId>, explicit: seq<BindingDeclId>, implicit: seq<ImplicitCapture>)
    requires ExplicitThenImplicit(r1, explicit, implicit)
    requires ExplicitThenImplicit(r2, explicit, implicit)
    ensures r1 == r2
  {
    forall k | 0 <= k < |r1|
      ensures r1[k] == r2[k]
    {
      if k >= |explicit| {
        var j := k - |explicit|;
        assert r1[|explicit| + j] == implicit[j].decl;
      }
    }
  }

  /** What `captures(of:)` needs of a function declaration: its node, and, without a receiver, its implicit captures. */
  predicate FunctionCapturesDefined(p: TypedProgram, d: FunctionDeclId) {
    p.ast.HasFunctionDecl(d) && (p.ast.nodes[d].receiver.None? ==> d in p.implicitCaptures)
  }

  /**
   * The capture list of a function declaration: its receiver alone when it has one; otherwise
   * its explicit captures followed by its implicit captures.
   */
  function FunctionCaptures(p: TypedProgram, d: FunctionDeclId): (r: seq<AnyDeclId>)
    requires FunctionCapturesDefined(p, d)
    ensures p.ast.nodes[d].receiver.Some? ==> r == [p.ast.nodes[d].receiver.value]
    ensures p.ast.nodes[d].receiver.None? ==>
      ExplicitThenImplicit(r, p.ast.nodes[d].explicitCaptures, p.implicitCaptures[d])
  {
    var f := p.ast.nodes[d];
    if f.receiver.Some? then [f.receiver.value]
    else f.explicitCaptures + CaptureDecls(p.implicitCaptures[d])
  }

  /** Returns the declarations of the captures of the function `d` (`captures(of: FunctionDecl.ID)`). */
  method CapturesOfFunction(p: TypedProgram, d: FunctionDeclId) returns (result: seq<AnyDeclId>)
    requires FunctionCapturesDefined(p, d)
    ensures result == FunctionCaptures(p, d)
    ensures p.ast.nodes[d].receiver.Some? ==> result == [p.ast.nodes[d].receiver.value]
    ensures p.ast.nodes[d].receiver.None? ==>
      ExplicitThenImplicit(result, p.ast.nodes[d].explicitCaptures, p.implicitCaptures[d])
  {
    result := [];
    var f := p.ast.nodes[d];
    if f.receiver.Some? {
      result := result + [f.receiver.value];
    } else {
      result := result + f.explicitCaptures;
      result := result + CaptureDecls(p.implicitCaptures[d]);
    }
  }

  /**
   * What `captures(of:)` needs of a subscript implementation: its node, and, without a receiver
   * of its own, a scope that is a subscript bundle whose node and implicit captures exist.
   */
  predicate SubscriptImplCapturesDefined(p: TypedProgram, d: SubscriptImplId) {
    && p.ast.HasSubscriptImpl(d)
    && (p.ast.nodes[d].receiver.None? ==>
          && d in p.declToScope
          && Narrow(p.declToScope[d], SubscriptDeclKind).Some?
          && p.ast.HasSubscriptDecl(p.declToScope[d])
          && p.declToScope[d] in p.implicitCaptures)
  }

  /**
   * The capture list of a subscript implementation: its own receiver alone when it has one;
   * otherwise the explicit captures of its enclosing bundle followed by the bundle's implicit
   * captures.
   */
  function SubscriptImplCaptures(p: TypedProgram, d: SubscriptImplId): (r: seq<AnyDeclId>)
    requires SubscriptImplCapturesDefined(p, d)
    ensures p.ast.nodes[d].receiver.Some? ==> r == [p.ast.nodes[d].receiver.value]
    ensures p.ast.nodes[d].receiver.None? ==>
      ExplicitThenImplicit(
        r, p.ast.nodes[p.declToScope[d]].explicitCaptures, p.implicitCaptures[p.declToScope[d]])
  {
    var impl := p.ast.nodes[d];
    if impl.receiver.Some? then [impl.receiver.value]
    else
      var bundle := p.declToScope[d];
      p.ast.nodes[bundle].explicitCaptures + CaptureDecls(p.implicitCaptures[bundle])
  }

  /** Returns the declarations of the captures of the subscript implementation `d` (`captures(of: SubscriptImpl.ID)`). */
  method CapturesOfSubscriptImpl(p: TypedProgram, d: SubscriptImplId) returns (result: seq<AnyDeclId>)
    requires SubscriptImplCapturesDefined(p, d)
    ensures result == SubscriptImplCaptures(p, d)
    ensures p.ast.nodes[d].receiver.Some? ==> result == [p.ast.nodes[d].receiver.value]
    ensures p.ast.nodes[d].receiver.None? ==>
      ExplicitThenImplicit(
        result, p.ast.nodes[p.declToScope[d]].explicitCaptures, p.implicitCaptures[p.declToScope[d]])
  {
    result := [];
    var impl := p.ast.nodes[d];
    if impl.receiver.Some? {
      result := result + [impl.receiver.value];
    } else {
      var bundle := Narrow(p.declToScope[d], SubscriptDeclKind).value;
      result := result + p.ast.nodes[bundle].explicitCaptures;
      result := result + CaptureDecls(p.implicitCaptures[bundle]);
    }
  }

  /** Two receiver-less implementations in the same bundle have the same capture list. */
  lemma SharedBundleSameCaptures(p: TypedProgram, d1: SubscriptImplId, d2: SubscriptImplId)
    requires SubscriptImplCapturesDefined(p, d1) && SubscriptImplCapturesDefined(p, d2)
    requires p.ast.nodes[d1].receiver.None? && p.ast.nodes[d2].receiver.None?
    requires p.declToScope[d1] == p.declToScope[d2]
    ensures SubscriptImplCaptures(p, d1) == SubscriptImplCaptures(p, d2)
  {
  }

  /**
   * The capture list of a receiver-less implementation does not depend on the receiver of its
   * bundle: replacing that receiver by any other leaves the requirements met and the result
   * unchanged.
   */
  lemma BundleReceiverIrrelevant(p: TypedProgram, d: SubscriptImplId, r': Option<ParameterDeclId>)
    requires SubscriptImplCapturesDefined(p, d) && p.ast.nodes[d].receiver.None?
    ensures
      var b := p.declToScope[d];
      var bundle := SubscriptDecl(r', p.ast.nodes[b].explicitCaptures, p.ast.nodes[b].impls);
      var q := p.(ast := p.ast.(nodes := p.ast.nodes[b := bundle]));
      SubscriptImplCapturesDefined(q, d) && SubscriptImplCaptures(q, d) == SubscriptImplCaptures(p, d)
  {
  }

  /** A receiver-less implementation whose bundle has a receiver but no captures captures nothing. */
  lemma BundleReceiverNotCaptured(p: TypedProgram, d: SubscriptImplId, s: ParameterDeclId)
    requires SubscriptImplCapturesDefined(p, d) && p.ast.nodes[d].receiver.None?
    requires p.ast.nodes[p.declToScope[d]].receiver == Some(s)
    requires p.ast.nodes[p.declToScope[d]].explicitCaptures == []
    requires p.implicitCaptures[p.declToScope[d]] == []
    ensures SubscriptImplCaptures(p, d) == []
  {
  }

  /** A function without receiver, explicit captures `[a, b]` and implicit captures of `c` then `e` captures `[a, b, c, e]`. */
  lemma FreeFunctionScenario(
    p: TypedProgram, f: FunctionDeclId, a: BindingDeclId, b: BindingDeclId, c: ImplicitCapture, e: ImplicitCapture)
    requires p.ast.HasFunctionDecl(f)
    requires p.ast.nodes[f].receiver.None? && p.ast.nodes[f].explicitCaptures == [a, b]
    requires f in p.implicitCaptures && p.implicitCaptures[f] == [c, e]
    ensures FunctionCapturesDefined(p, f)
    ensures FunctionCaptures(p, f) == [a, b, c.decl, e.decl]
  {
    ExplicitThenImplicitUnique(FunctionCaptures(p, f), [a, b, c.decl, e.decl], [a, b], [c, e]);
  }

  /** A member function with receiver `self` captures exactly `[self]`, whatever it references. */
  lemma MemberFunctionScenario(p: TypedProgram, f: FunctionDeclId, self: ParameterDeclId)
    requires p.ast.HasFunctionDecl(f) && p.ast.nodes[f].receiver == Some(self)
    ensures FunctionCapturesDefined(p, f)
    ensures FunctionCaptures(p, f) == [self]
  {
  }
}
