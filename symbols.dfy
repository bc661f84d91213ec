/**
 * The declaration model the analyzers inspect: what the Roslyn semantic model and
 * syntax trees answer about namespaces, types, methods, parameters and properties,
 * taken as given attributes.
 */
module Symbols {
  import opened Wrappers
  import opened Diagnostics
  import opened Xml

  /** Symbol identity, as `SymbolEqualityComparer.Default` sees it. */
  type SymbolId = nat

  /** A type as the semantic model describes it. */
  datatype TypeRef = TypeRef(
    id: SymbolId,
    name: string,
    isNamed: bool,                   // an `INamedTypeSymbol`, not an array, pointer or type parameter
    originalDefinition: SymbolId,    // `OriginalDefinition` (the type itself unless constructed)
    typeArguments: seq<TypeRef>,
    propertyNames: seq<string>)      // the names of its property members

  /** The written type of a parameter: its source text and location. */
  datatype TypeSyntax = TypeSyntax(text: string, location: Loc)

  datatype Parameter = Parameter(
    name: string,                          // symbol `Name`, without the `@` of a verbatim identifier
    verbatim: bool,                        // written as a verbatim identifier (`@name`)
    typeRef: TypeRef,
    typeSyntax: Option<TypeSyntax>,        // `ParameterSyntax.Type`, `null` when omitted
    attributeClasses: seq<Option<SymbolId>>, // `AttributeClass` of each attribute, `null` when unresolved
    attributeNames: seq<string>,           // the written name of each attribute
    locations: seq<Loc>,
    identifierLocation: Loc)
  {
    /** `Identifier.Text`: the identifier as written. */
    function Identifier(): string
    {
      IdentifierText(name, verbatim)
    }
  }

  /**
   * The text of an identifier as written, `Identifier.Text`: the symbol name, preceded by `@`
   * for a verbatim identifier.
   */
  function IdentifierText(name: string, verbatim: bool): (text: string)
    ensures !verbatim ==> text == name
    ensures verbatim ==> |text| == |name| + 1 && text[0] == '@' && text[1..] == name
  {
    if verbatim then "@" + name else name
  }

  /** The first declaring syntax of a symbol, with the locations the analyzers take from it. */
  datatype DeclSyntax =
    | ClassDeclaration(identifierLocation: Loc)
    | MethodDeclaration(identifierLocation: Loc, returnTypeLocation: Loc)
    | OtherDeclaration(location: Loc)

  /** Where a declaration is reported: its identifier for a class or method, else the whole node. */
  function DeclarationLocation(s: DeclSyntax): Loc
  {
    match s
      case ClassDeclaration(l) => l
      case MethodDeclaration(l, _) => l
      case OtherDeclaration(l) => l
  }

  /** The task category of a method. */
  datatype TaskCategory = Generic | Converter | Database | File | Http

  /**
   * The documentation comment: `GetDocumentationCommentXml()` (`null` when there is none) and
   * what `XDocument.Parse` makes of it (`None` when it throws).
   */
  datatype Docs = Docs(xml: Option<string>, tree: Option<Node>)

  datatype Method = Method(
    id: SymbolId,
    name: string,              // symbol `Name`, without the `@` of a verbatim identifier
    verbatim: bool,            // its declaration's identifier is written `@name`
    isStatic: bool,
    isPublic: bool,
    referenceString: string,   // `ToReferenceString()`: containing namespaces and types, then the name
    displayString: string,     // `ToDisplayString()` in the default format
    parameters: seq<Parameter>,
    returnType: TypeRef,
    category: TaskCategory,
    docs: Docs,
    locations: seq<Loc>,
    syntax: Option<DeclSyntax>)
  {
    /** `Identifier.Text` of the method's declaration. */
    function Identifier(): string
    {
      IdentifierText(name, verbatim)
    }
  }

  /** A compile-time constant as `GetConstantValue` returns it. */
  datatype ConstValue = BoolConst(b: bool) | StringConst(s: string) | NullConst | OtherConst

  /** `GetDefaultValue`: the initializer or `[DefaultValue]` constant and where it is written. */
  datatype DefaultValue = DefaultValue(value: ConstValue, location: Loc)

  datatype Property = Property(
    id: SymbolId,
    name: string,
    isPublic: bool,
    displayString: string,
    docs: Docs,
    defaultValue: Option<DefaultValue>,
    locations: seq<Loc>)

  datatype TypeDecl = TypeDecl(
    id: SymbolId,
    name: string,               // symbol `Name`, without the `@` of a verbatim identifier
    verbatim: bool,             // its declaration's identifier is written `@name`
    isStatic: bool,
    isPublic: bool,
    methods: seq<Method>,       // its method members, in declaration order
    properties: seq<Property>,  // its property members, in declaration order
    docs: Docs,
    locations: seq<Loc>,
    syntax: Option<DeclSyntax>)
  {
    /** `Identifier.Text` of the type's declaration. */
    function Identifier(): string
    {
      IdentifierText(name, verbatim)
    }
  }

  /** A declaring syntax reference of a namespace. */
  datatype SyntaxRef = NamespaceDeclaration(nameLocation: Loc) | OtherSyntax

  datatype Namespace = Namespace(
    types: seq<TypeDecl>,                         // `GetTypeMembers()`
    namespaces: seq<Namespace>,                   // nested namespaces
    declarations: seq<SyntaxRef>,                 // its own `DeclaringSyntaxReferences`
    containingDeclarations: Option<seq<SyntaxRef>>) // those of `ContainingNamespace`; `null` for the global namespace

  /** What the analyzers ask of the compilation. */
  datatype Compilation = Compilation(
    genericTask: Option<SymbolId>,          // `GetTypeByMetadataName("System.Threading.Tasks.Task`1")`
    propertyTabAttribute: Option<SymbolId>, // `GetTypeByMetadataName("System.ComponentModel.PropertyTabAttribute")`
    globalNamespace: Namespace)

  /** `GetMembers(name).OfType<IMethodSymbol>()`: the methods of a type with the name, in order. */
  function MethodsNamed(methods: seq<Method>, name: string): (r: seq<Method>)
    ensures |r| <= |methods|
    ensures forall m :: m in r <==> m in methods && m.name == name
  {
    if methods == [] then []
    else (if methods[0].name == name then [methods[0]] else []) + MethodsNamed(methods[1..], name)
  }

  /** The property names of a type. */
  function PropertyNames(ps: seq<Property>): (names: seq<string>)
    ensures |names| == |ps|
    ensures forall i :: 0 <= i < |ps| ==> names[i] == ps[i].name
  {
    if ps == [] then [] else [ps[0].name] + PropertyNames(ps[1..])
  }
}
