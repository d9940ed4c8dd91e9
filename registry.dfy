/** The pattern registry: the ordered table of vulnerability categories (VULNERABILITY_PATTERNS). */
module Registry {
  import opened Wrappers

  /** One entry of the registry. The regular expression of each entry is not modelled:
      whether it matches a line is an input of the scanner. */
  datatype Category =
    | Reentrancy
    | Arithmetic
    | AccessControl
    | FrontRunning
    | TimeManipulation
    | DenialOfService
    | OracleManipulation
    | FlashLoan
    | SignatureReplay

  /** The registry in the insertion order of the dictionary, which is the order it is walked in. */
  const Patterns: seq<Category> := [
    Reentrancy, Arithmetic, AccessControl, FrontRunning, TimeManipulation,
    DenialOfService, OracleManipulation, FlashLoan, SignatureReplay
  ]

  /** The category a registry key names, if any. */
  function Named(s: string): Option<Category> {
    if s == "reentrancy" then Some(Reentrancy)
    else if s == "arithmetic" then Some(Arithmetic)
    else if s == "access_control" then Some(AccessControl)
    else if s == "front_running" then Some(FrontRunning)
    else if s == "time_manipulation" then Some(TimeManipulation)
    else if s == "denial_of_service" then Some(DenialOfService)
    else if s == "oracle_manipulation" then Some(OracleManipulation)
    else if s == "flash_loan" then Some(FlashLoan)
    else if s == "signature_replay" then Some(SignatureReplay)
    else None
  }

  /** The registry key of a category; the key names the category back, so keys are distinct. */
  function Name(c: Category): (s: string)
    ensures Named(s) == Some(c)
  {
    match c
    case Reentrancy => "reentrancy"
    case Arithmetic => "arithmetic"
    case AccessControl => "access_control"
    case FrontRunning => "front_running"
    case TimeManipulation => "time_manipulation"
    case DenialOfService => "denial_of_service"
    case OracleManipulation => "oracle_manipulation"
    case FlashLoan => "flash_loan"
    case SignatureReplay => "signature_replay"
  }

  /** Position of a category in the registry: every category is registered. */
  function Index(c: Category): (i: nat)
    ensures i < |Patterns| && Patterns[i] == c
  {
    match c
    case Reentrancy => 0
    case Arithmetic => 1
    case AccessControl => 2
    case FrontRunning => 3
    case TimeManipulation => 4
    case DenialOfService => 5
    case OracleManipulation => 6
    case FlashLoan => 7
    case SignatureReplay => 8
  }

  /** Every position of the registry holds the category whose index it is: no category twice. */
  lemma IndexOfPattern(i: nat)
    requires i < |Patterns|
    ensures Index(Patterns[i]) == i
  {
  }

  /** The default severity: "high" for reentrancy and access control, "medium" for all others. */
  function DefaultSeverity(c: Category): (s: string)
    ensures s == "high" <==> c == Reentrancy || c == AccessControl
    ensures s == "high" || s == "medium"
  {
    if Name(c) in ["reentrancy", "access_control"] then "high" else "medium"
  }
}
