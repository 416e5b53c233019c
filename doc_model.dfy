/** The values the documentation checker reads and writes: the run mode,
    declaration kinds, structured doc comments, declarations as the checker
    sees them, and the diagnostics it emits. */
module DocModel {

  datatype Option<+T> = None | Some(value: T)

  /** The run's checking mode, read once from the frontend options. */
  datatype Mode = Disabled | PresenceOnly | Consistency

  /** The compiler's declaration kinds (its closed `DeclKind` enumeration). */
  datatype DeclKind =
    | Class | Struct | Enum | EnumElement | Protocol | Constructor | Func
    | Var | Subscript | TypeAlias | AssociatedType | EnumCase
    | Extension | Destructor | Accessor | TopLevelCode | Import
    | PatternBinding | IfConfig | PoundDiagnostic | PrecedenceGroup
    | InfixOperator | PrefixOperator | PostfixOperator | Param
    | GenericTypeParam | Module | MissingMember | OpaqueType

  /** The kinds the checker documents; every other kind is only descended into. */
  predicate IsCheckedKind(k: DeclKind)
  {
    k in {Class, Struct, Enum, EnumElement, Protocol, Constructor, Func,
          Var, Subscript, TypeAlias, AssociatedType, EnumCase}
  }

  /** The kinds whose declarations are `AbstractFunctionDecl`s. */
  predicate IsAbstractFunction(k: DeclKind)
  {
    k in {Constructor, Destructor, Func, Accessor}
  }

  /** One `- parameter name:` field of a doc comment. */
  datatype ParamField = ParamField(name: string, body: string)

  /** The parts of a structured doc comment, as the markup parser produces them. */
  datatype DocParts = DocParts(
    brief: Option<string>,
    bodyNodes: seq<string>,
    paramFields: seq<ParamField>,
    returnsField: Option<string>,
    throwsField: Option<string>)
  {
    /** A comment that says nothing at all. */
    predicate IsEmpty()
    {
      brief.None? && bodyNodes == [] && paramFields == []
      && returnsField.None? && throwsField.None?
    }
  }

  /** The result type of a function type, reduced to the one query made of it. */
  datatype ResultType = ResultType(isVoid: bool)

  /** A function's interface type when it is a plain function type. */
  datatype FunctionType = FunctionType(result: Option<ResultType>, isThrowing: bool)

  /** A declaration node with everything the checker asks of it.
      `exempt` is the verdict of the compiler's "name or context implies
      omission from docs" query (access level public, context considered,
      SPI not considered); `doc` is the cascading doc comment, if any;
      `params` is the parameter list (absent when the node has none) and
      `fnType` the interface type when it is a function type. */
  datatype Decl = Decl(
    kind: DeclKind,
    name: string,
    loc: nat,
    exempt: bool,
    doc: Option<DocParts>,
    params: Option<seq<string>>,
    fnType: Option<FunctionType>)

  /** The four diagnostics the checker can emit. */
  datatype DiagKind =
    | MissingDocComment
    | MissingParamDescription
    | MissingReturnDescription
    | MissingThrowsDescription

  /** An emitted diagnostic: where, which message, and its substitutions. */
  datatype Diag = Diag(
    kind: DiagKind,
    loc: nat,
    declKind: DeclKind,
    declName: string,
    param: Option<string>)

  /** A doc comment that exists and is not empty. */
  predicate IsDocumented(doc: Option<DocParts>)
  {
    doc.Some? && !doc.value.IsEmpty()
  }

  /** Regrouping appended diagnostic sequences. */
  lemma ConcatAssoc(a: seq<Diag>, b: seq<Diag>, c: seq<Diag>, e: seq<Diag>)
    ensures ((a + b) + c) + e == a + ((b + c) + e)
    ensures (a + b) + c == a + (b + c)
  {
  }
}
