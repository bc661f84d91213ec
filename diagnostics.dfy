/**
 * What the analyzers report: a rule, a source location and the message arguments.
 */
module Diagnostics {

  /** A position in the analysed source, identified abstractly. */
  type Loc = nat

  /** A Roslyn `Location`; `NoLocation` is `Location.None` (also what a `null` location becomes). */
  datatype Location = NoLocation | At(loc: Loc)

  /** `Locations.FirstOrDefault()`, with `Location.None` for an empty list. */
  function FirstLocation(locations: seq<Loc>): (l: Location)
    ensures (l == NoLocation) <==> (|locations| == 0)
    ensures |locations| > 0 ==> l == At(locations[0])
  {
    if |locations| == 0 then NoLocation else At(locations[0])
  }

  /** Every diagnostic descriptor the analyzers use. */
  datatype Rule =
    // naming
    | NamespaceFormat | TypeName | MethodName
    // structure
    | ClassShouldBeStatic | MethodShouldBeStatic | MethodOverloadNotAllowed
    | ReturnTypeIncorrect | ReturnTypeMissingProperties
    // parameters
    | RequiredParameter | ParameterName | ParameterPropertyTabAttribute | ParameterUnknown | ParametersOrder
    // documentation
    | DocumentationLinkMissing | UnsupportedTagsUsed | RequiredTagsMissing | DocumentationInvalid
    // property types
    | RequiredPropertyMissing | IncorrectPropertyDefaultValue
    // registry
    | MetadataMissing
    // the oldest task-method analyzer
    | TaskMethodOverloaded | TaskMethodRequiredParameter | TaskMethodDeprecatedParameter
    | TaskMethodParameterType | TaskMethodParameterName | TaskMethodPropertyTabAttribute
    | TaskMethodUnrecognizedParameter
  {
    /** The descriptor's id. */
    function Id(): string
    {
      match this
        case NamespaceFormat => "FT0001"
        case TypeName => "FT0002"
        case MethodName => "FT0003"
        case ClassShouldBeStatic => "FT0004"
        case MethodShouldBeStatic => "FT0005"
        case MethodOverloadNotAllowed => "FT0006"
        case ReturnTypeIncorrect => "FT0010"
        case ReturnTypeMissingProperties => "FT0011"
        case RequiredParameter => "FT0007"
        case ParameterName => "FT0008"
        case ParameterPropertyTabAttribute => "FT0009"
        case ParameterUnknown => "FT0018"
        case ParametersOrder => "FT0019"
        case DocumentationLinkMissing => "FT0012"
        case UnsupportedTagsUsed => "FT0013"
        case RequiredTagsMissing => "FT0014"
        case DocumentationInvalid => "FT0021"
        case RequiredPropertyMissing => "FT0015"
        case IncorrectPropertyDefaultValue => "FT0016"
        case MetadataMissing => "FT0020"
        case TaskMethodOverloaded => "FT0001"
        case TaskMethodRequiredParameter => "FT0002"
        case TaskMethodDeprecatedParameter => "FT0003"
        case TaskMethodParameterType => "FT0004"
        case TaskMethodParameterName => "FT0005"
        case TaskMethodPropertyTabAttribute => "FT0006"
        case TaskMethodUnrecognizedParameter => "FT0007"
    }
  }

  /** `Diagnostic.Create(rule, location, args)`. */
  datatype Diagnostic = Diagnostic(rule: Rule, location: Location, args: seq<string>)

  /** How many diagnostics of a sequence carry the rule. */
  function CountRule(diags: seq<Diagnostic>, rule: Rule): nat
  {
    if diags == [] then 0 else (if diags[0].rule == rule then 1 else 0) + CountRule(diags[1..], rule)
  }

  lemma {:induction false} CountRuleConcat(a: seq<Diagnostic>, b: seq<Diagnostic>, rule: Rule)
    ensures CountRule(a + b, rule) == CountRule(a, rule) + CountRule(b, rule)
  {
    if a != [] {
      CountRuleConcat(a[1..], b, rule);
      assert (a + b)[1..] == a[1..] + b;
    } else {
      assert a + b == b;
    }
  }

  /** A single diagnostic counts once for its own rule and not for any other. */
  lemma CountRuleSingle(d: Diagnostic, rule: Rule)
    ensures CountRule([d], rule) == if d.rule == rule then 1 else 0
  {
    assert [d][1..] == [];
  }

  /** One diagnostic of the rule at each of the locations, in order. */
  function ReportAt(rule: Rule, locations: seq<Loc>, args: seq<string>): (r: seq<Diagnostic>)
    ensures |r| == |locations|
    ensures forall i :: 0 <= i < |locations| ==> r[i] == Diagnostic(rule, At(locations[i]), args)
  {
    if locations == [] then [] else [Diagnostic(rule, At(locations[0]), args)] + ReportAt(rule, locations[1..], args)
  }

  /** Reporting at each location gives as many diagnostics of the rule as there are locations, and none of any other. */
  lemma {:induction false} CountReportAt(rule: Rule, locations: seq<Loc>, args: seq<string>, counted: Rule)
    ensures CountRule(ReportAt(rule, locations, args), counted) == if rule == counted then |locations| else 0
  {
    if locations != [] {
      CountReportAt(rule, locations[1..], args, counted);
      assert ReportAt(rule, locations, args)[1..] == ReportAt(rule, locations[1..], args);
    }
  }

  /** `foreach (var location in locations) context.ReportDiagnostic(...)`. */
  method ReportEach(rule: Rule, locations: seq<Loc>, args: seq<string>) returns (diags: seq<Diagnostic>)
    ensures |diags| == |locations|
    ensures forall i :: 0 <= i < |locations| ==> diags[i] == Diagnostic(rule, At(locations[i]), args)
  {
    diags := [];
    for i := 0 to |locations|
      invariant |diags| == i
      invariant forall j :: 0 <= j < i ==> diags[j] == Diagnostic(rule, At(locations[j]), args)
    {
      diags := diags + [Diagnostic(rule, At(locations[i]), args)];
    }
  }
}
