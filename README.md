# Typed programs of the Val compiler, in Dafny

This project models the typed-program layer of the Val compiler. That layer is the frozen
output of type checking. It pairs the syntax arena of a scoped program with semantic tables
keyed by node identities:

- parent scopes, scope declarations and declaration scopes;
- variable-to-binding links and imports;
- declaration and expression types;
- implicit captures, generic environments and synthesized declarations;
- name resolutions and folded operator sequences;
- type relations.

On top of the tables sit two things:

- the **capture-list derivation** for functions and subscript implementations;
- the **typed-node projection**: a handle `(program, id)` whose accessors are lookups in those
  tables or translations of syntax variants.

Modules, following the structure of the program:

- `Wrappers`: the `Option` type.
- `NodeIds`: node kinds, kind-tagged identities, the identity families as subset types
  (`AnyDeclId`, `AnyScopeId`, `FunctionDeclId`, ...), and narrowing.
- `Ast`: the syntax fields the typed layer reads. `names(in:)` and `topLevelDecls(_)` are given
  functions of the arena.
- `TypedPrograms`: `TypedProgram` as an immutable datatype, its construction (`Annotating`), and
  the capture rule. The rule is both a pair of functions and the two `captures(of:)` methods,
  which build a local sequence by appending as the Swift code does.
- `TypedNodes`: the `TypedNode` handle, its accessors, `TypedProgram.subscript(_:)` (`At`) and
  `coreLibrary`. `coreLibrary` is declared with the typed program in Swift. It lives here
  because it returns a handle, and a module cycle is not possible in Dafny.

Conventions:

- A Swift force-unwrap (`!`) becomes a precondition that the key is present.
- A static restriction on a handle's identity type (`ID: ScopeID`, `ID == NodeID<VarDecl>`)
  becomes a precondition on the kind of its identity.
- The launch-time `precondition` of the initializer becomes the `requires` of `Annotating`.

Subscript implementations and their receiver: the doc comment of the overload
(Sources/Core/TypedProgram.swift:98-102) makes the implementation's receiver its only capture,
and the code tests the implementation's own `receiver` (Sources/Core/TypedProgram.swift:105).
Without one, it takes the explicit and implicit captures of the enclosing bundle and never reads
the bundle's receiver. `BundleReceiverIrrelevant` states that the result does not depend on
the bundle's receiver.

## Model

| member | source | states |
|---|---|---|
| `TypedPrograms.Annotating` | Sources/Core/TypedProgram.swift:51-80 | Requires every module to have a declared type that is a module type; the result keeps that invariant, and each stored table equals the argument or the scoped-program field it was given |
| `TypedPrograms.ModuleHasModuleType` | Sources/Core/TypedProgram.swift:63 | In a program built under that precondition, every module has a declared type and it is a module type |
| `TypedPrograms.CaptureDecls` | Sources/Core/TypedProgram.swift:93 | Mapping implicit captures to their declarations keeps the length and the order: element k is the declaration of capture k |
| `TypedPrograms.FunctionCaptures` | Sources/Core/TypedProgram.swift:82-96 | A function with receiver r captures exactly [r]; without one it captures its explicit captures in order, then the declarations of its implicit captures in order, and nothing else (length is the sum) |
| `TypedPrograms.CapturesOfFunction` | Sources/Core/TypedProgram.swift:87-96 | The appending method returns exactly that capture list; it needs the function node and, only without a receiver, the implicit-capture entry |
| `TypedPrograms.ExplicitThenImplicitUnique` | Sources/Core/TypedProgram.swift:84-86 | The explicit-then-implicit order determines the capture list uniquely |
| `TypedPrograms.SubscriptImplCaptures` | Sources/Core/TypedProgram.swift:98-113 | An implementation with its own receiver r captures exactly [r]; without one it captures the bundle's explicit captures then the bundle's implicit captures, where the bundle is its scope, which must be a subscript declaration |
| `TypedPrograms.CapturesOfSubscriptImpl` | Sources/Core/TypedProgram.swift:103-113 | The appending method returns exactly that capture list, narrowing the scope to a subscript declaration as the code does |
| `TypedPrograms.SharedBundleSameCaptures` | Sources/Core/TypedProgram.swift:107-110 | Two receiver-less implementations with the same bundle scope have identical capture lists |
| `TypedPrograms.BundleReceiverIrrelevant` | Sources/Core/TypedProgram.swift:105-110 | The capture list of a receiver-less implementation does not depend on the bundle's receiver: replacing it by any other keeps the requirements met and the result unchanged |
| `TypedPrograms.BundleReceiverNotCaptured` | Sources/Core/TypedProgram.swift:105-110 | An example of that independence: a receiver-less implementation whose bundle has a receiver but empty explicit and implicit capture lists captures nothing |
| `TypedPrograms.FreeFunctionScenario` | Sources/Core/TypedProgram.swift:91-93 | A function without receiver, explicit captures [a, b] and implicit captures of c then e captures exactly [a, b, c, e] |
| `TypedPrograms.MemberFunctionScenario` | Sources/Core/TypedProgram.swift:89-90 | A member function with receiver self captures exactly [self], whatever its explicit and implicit captures |
| `TypedNodes.CoreLibrary` | Sources/Core/TypedProgram.swift:44-46 | The typed core library is present exactly when the arena has one; it is a module handle over the same program and that identity |
| `TypedNodes.TypedNode.Kind` | Sources/Compiler/TypedNode.swift:98 | The kind of a handle is the kind its identity narrows to, and the only one |
| `TypedNodes.TypedNode.Equal` | Sources/Compiler/TypedNode.swift:23-25 | Handle equality holds exactly when the raw identity values and the kinds agree, whatever the programs |
| `TypedNodes.TypedNode.HashInto` | Sources/Compiler/TypedNode.swift:28-30 | Hashing keeps the hasher's prior state and combines into it exactly one value, the identity |
| `TypedNodes.TypedNode.Syntax` | Sources/Compiler/TypedNode.swift:48-50 | The widening of the identity to its node kind cannot fail; requires the node in the arena and returns the node stored there |
| `TypedNodes.DeclRef.Decl` | Sources/Compiler/TypedNode.swift:179-185 | The referred declaration is the one wrapped by the reference, in the direct and the member case alike |
| `NodeIds.Narrow` | Sources/Compiler/TypedNode.swift:89 | Narrowing an identity to a concrete kind succeeds exactly when its kind tag is that kind, and then returns the same identity |
| `NodeIds.NarrowRoundTrip` | Sources/Compiler/TypedNode.swift:86-92 | An identity narrows back to its own kind, to no other kind, and narrowing twice equals narrowing once |
| `TypedNodes.TypedNode.Narrow` | Sources/Compiler/TypedNode.swift:84-92 | Handle narrowing gives None exactly when the node's kind differs from the target; on success it keeps the program and the identity |
| `TypedNodes.NarrowToOwnKind` | Sources/Compiler/TypedNode.swift:98 | A handle narrows to its own kind, giving an equal handle over the same program, and to no other kind |
| `TypedNodes.EqualityByIdentity` | Sources/Compiler/TypedNode.swift:22-30 | Handles are equal if and only if their identities are, whatever programs they carry; equal handles feed the same value to a hasher, which is only the identity |
| `TypedNodes.EqualIsEquivalence` | Sources/Compiler/TypedNode.swift:23-25 | Handle equality is reflexive, symmetric and transitive |
| `TypedNodes.At` | Sources/Compiler/TypedNode.swift:37-43 | Bundling an identity with a program gives a handle over that program and identity, of the identity's kind |
| `TypedNodes.TypedNode.Parent` | Sources/Compiler/TypedNode.swift:103-106 | The parent is absent if and only if the scope has no parent entry; otherwise it is the entry, as a scope handle over the same program |
| `TypedNodes.TypedNode.Decls` | Sources/Compiler/TypedNode.swift:108-111 | The declarations of a scope have the length and order of its table entry, each as a declaration handle over the same program, and are empty without an entry |
| `TypedNodes.ProjectAll` | Sources/Compiler/TypedNode.swift:110 | Projecting a list of identities keeps its length and order and uses the same program |
| `TypedNodes.TypedNode.Scope` | Sources/Compiler/TypedNode.swift:115-118 | Requires the declaration's scope entry; returns that scope as a scope handle over the same program |
| `TypedNodes.TypedNode.DeclType` | Sources/Compiler/TypedNode.swift:120-123 | Requires a declaration with a recorded type and returns that entry; for a module of a program whose modules type checked it is a module type |
| `TypedNodes.TypedNode.ImplicitCaptures` | Sources/Compiler/TypedNode.swift:125-128 | The optional lookup unchanged: absent exactly when the table has no entry, otherwise the stored list |
| `TypedNodes.CapturesThroughProjection` | Sources/Compiler/TypedNode.swift:125-128 | A receiver-less function's capture list is its explicit captures followed by the implicit captures its handle reports |
| `TypedNodes.TypedNode.ExprType` | Sources/Compiler/TypedNode.swift:138-143 | Requires an expression with a recorded type, the entry force-unwrapped; returns that entry |
| `TypedNodes.TypedNode.Binding` | Sources/Compiler/TypedNode.swift:131-136 | Requires the variable's binding entry; returns that binding declaration as a handle over the same program |
| `TypedNodes.SharedBinding` | Sources/Compiler/TypedNode.swift:133-135 | Variables mapped to the same binding give equal binding handles |
| `TypedNodes.EqualHandlesAgree` | Sources/Compiler/TypedNode.swift:114-143 | Equal handles over one program are the same handle, so every accessor answers them alike; kind, declaration type, expression type, scope, implicit captures, binding and folded form are spelled out |
| `TypedNodes.TypedNode.Domain` | Sources/Compiler/TypedNode.swift:159-169 | The domain keeps its variant (none, implicit, expression) and an expression domain wraps the same expression identity in the same program |
| `TypedNodes.TypedNode.Decl` | Sources/Compiler/TypedNode.swift:171-197 | The reference keeps its tag (member exactly when resolution gave a member) and its `Decl()` is the resolved declaration as a handle over the same program |
| `TypedNodes.TypedNode.Names` | Sources/Compiler/TypedNode.swift:200-204 | The names of a pattern have the length and order of the arena's names, each path unchanged and each pattern a name-pattern handle over the same program |
| `TypedNodes.ProjectNames` | Sources/Compiler/TypedNode.swift:203 | Projecting names keeps length, order and paths and uses the same program |
| `TypedNodes.TypedNode.TopLevelDecls` | Sources/Compiler/TypedNode.swift:216-219 | The top-level declarations of a module have the length and order of the arena's list, as declaration handles over the same program |
| `TypedNodes.TypedNode.Body` | Sources/Compiler/TypedNode.swift:234-246 | The body keeps its variant (expression, block, none) and wraps the same identity in the same program |
| `TypedNodes.TypedNode.FoldedSequenceExprs` | Sources/Compiler/TypedNode.swift:251-254 | The optional lookup unchanged: absent exactly when the table has no entry, otherwise the stored folded form |
| `TypedNodes.DeclsPointBack` | Sources/Compiler/TypedNode.swift:108-118 | When the scope tables agree, each declaration listed in a scope has that scope as its scope |
| `TypedNodes.ScopeListsDecl` | Sources/Compiler/TypedNode.swift:108-118 | When the scope tables agree, a declaration appears among the declarations of its own scope |

## Left out

- The dynamic-member subscripts (Sources/Compiler/TypedNode.swift:53-82): they are reflection
  over arbitrary syntax fields. The syntax fields the core reads (`receiver`, `explicitCaptures`, `body`, `domain`) are datatype fields of `Ast.Node`.
- The internals of `ast.names(in:)` and `ast.topLevelDecls(_)`: they belong to the syntax tree,
  which is not part of this model. They are given total functions of `Ast.Ast`.
- Lazy collections (`LazyMapCollection`, `FlattenSequence`): modelled as plain sequences.
- Swift `Hasher` mechanics: a hasher is the sequence of identities combined into it.
- `ValNode`/`AST.Node` type aliases (Sources/Compiler/TypedNode.swift:1-9): renaming only.
- Types other than module types, generic environments, synthesized declarations, folded
  sequence trees and type relations: facts of the solver, held as opaque tokens and only stored
  and returned.
- `TypeError` (Sources/Compiler/TypeChecking/TypeError.swift), `VarDecl` and `MapLiteralExpr`:
  data records without behaviour, used by no modelled operation.
- That `captures(of:)` changes no table holds by construction: `TypedProgram` is an immutable
  value, so there is no separate lemma.
- Acyclicity of the parent-scope table and totality of the tables are guarantees of the parser
  and the checker, not established by this code. Agreement of the two scope tables is stated
  as a predicate (`ScopeTablesAgree`) and assumed only by the two lemmas that use it.
- The `Equatable` and `Hashable` conformances of `Domain` and `DeclRef`: they follow handle
  equality and are not modelled separately.
- The set of node kinds is a representative selection of Val's kinds. Narrowing to a kind
  family (any declaration, any scope, ...) is not part of this code; only narrowing to a
  concrete kind is.
