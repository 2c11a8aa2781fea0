/** The contract every elemental function shares: its fixed characteristics
    (the four string enums and the frozen `FunctionCharacteristics` record, with
    the defaults `SYNC`, `CPU` and `SHORT`), the base `run` that subclasses must
    override, and `run_dict`, which normalises whatever `run` returned into a
    plain dict. */
module Base {
  import opened Values
  import opened Params

  datatype Role =
    | BusinessAction | RetryAnalysis | SpecialParamValidation | BusinessRuleValidation
    | CompleteIncompleteAction | Rollback | RebuildResponse

  datatype SyncType = Sync | Async

  datatype ResourceType = Cpu | Io | Network | ExternalApi

  datatype DurationClass = Short | Medium | Long

  /** The string each enum member stands for (`RoleInProcess.ROLLBACK.value`, ...). */
  function RoleValue(r: Role): string {
    match r
    case BusinessAction => "business_action"
    case RetryAnalysis => "retry_analysis"
    case SpecialParamValidation => "special_param_validation"
    case BusinessRuleValidation => "business_rule_validation"
    case CompleteIncompleteAction => "complete_incomplete_action"
    case Rollback => "rollback"
    case RebuildResponse => "rebuild_response"
  }

  function SyncValue(s: SyncType): string {
    match s
    case Sync => "sync"
    case Async => "async"
  }

  function ResourceValue(r: ResourceType): string {
    match r
    case Cpu => "cpu"
    case Io => "io"
    case Network => "network"
    case ExternalApi => "external_api"
  }

  function DurationValue(d: DurationClass): string {
    match d
    case Short => "short"
    case Medium => "medium"
    case Long => "long"
  }

  /** `RoleInProcess(s)`: the member whose value is `s`, `None` where Python raises `ValueError`. */
  function ParseRole(s: string): (r: Option<Role>)
    ensures r.Some? ==> RoleValue(r.value) == s
  {
    if s == "business_action" then Some(BusinessAction)
    else if s == "retry_analysis" then Some(RetryAnalysis)
    else if s == "special_param_validation" then Some(SpecialParamValidation)
    else if s == "business_rule_validation" then Some(BusinessRuleValidation)
    else if s == "complete_incomplete_action" then Some(CompleteIncompleteAction)
    else if s == "rollback" then Some(Rollback)
    else if s == "rebuild_response" then Some(RebuildResponse)
    else None
  }

  function ParseSync(s: string): (r: Option<SyncType>)
    ensures r.Some? ==> SyncValue(r.value) == s
  {
    if s == "sync" then Some(Sync) else if s == "async" then Some(Async) else None
  }

  function ParseResource(s: string): (r: Option<ResourceType>)
    ensures r.Some? ==> ResourceValue(r.value) == s
  {
    if s == "cpu" then Some(Cpu)
    else if s == "io" then Some(Io)
    else if s == "network" then Some(Network)
    else if s == "external_api" then Some(ExternalApi)
    else None
  }

  function ParseDuration(s: string): (r: Option<DurationClass>)
    ensures r.Some? ==> DurationValue(r.value) == s
  {
    if s == "short" then Some(Short)
    else if s == "medium" then Some(Medium)
    else if s == "long" then Some(Long)
    else None
  }

  /** Every member is found again from its value: the values are distinct. */
  lemma RoleRoundTrip(r: Role)
    ensures ParseRole(RoleValue(r)) == Some(r)
  {
    match r
    case BusinessAction =>
    case RetryAnalysis =>
      assert "retry_analysis"[0] != "business_action"[0];
    case SpecialParamValidation =>
      assert |"special_param_validation"| != |"business_action"| && |"special_param_validation"| != |"retry_analysis"|;
    case BusinessRuleValidation =>
      assert |"business_rule_validation"| != |"business_action"| && "business_rule_validation"[0] != "retry_analysis"[0];
      assert "business_rule_validation"[1] != "special_param_validation"[1];
    case CompleteIncompleteAction =>
      assert "complete_incomplete_action"[0] != "business_action"[0] && "complete_incomplete_action"[0] != "retry_analysis"[0];
      assert "complete_incomplete_action"[0] != "special_param_validation"[0] && "complete_incomplete_action"[0] != "business_rule_validation"[0];
    case Rollback =>
      assert "rollback"[0] != "business_action"[0] && |"rollback"| != |"retry_analysis"|;
      assert "rollback"[0] != "special_param_validation"[0] && "rollback"[0] != "business_rule_validation"[0];
      assert "rollback"[0] != "complete_incomplete_action"[0];
    case RebuildResponse =>
      assert "rebuild_response"[0] != "business_action"[0] && |"rebuild_response"| != |"retry_analysis"|;
      assert "rebuild_response"[0] != "special_param_validation"[0] && "rebuild_response"[0] != "business_rule_validation"[0];
      assert "rebuild_response"[0] != "complete_incomplete_action"[0] && |"rebuild_response"| != |"rollback"|;
  }

  lemma SyncRoundTrip(s: SyncType)
    ensures ParseSync(SyncValue(s)) == Some(s)
  {
    assert "async"[0] != "sync"[0];
  }

  lemma ResourceRoundTrip(r: ResourceType)
    ensures ParseResource(ResourceValue(r)) == Some(r)
  {
    assert |"io"| != |"cpu"| && |"network"| != |"cpu"| && |"network"| != |"io"|;
    assert |"external_api"| != |"cpu"| && |"external_api"| != |"io"| && |"external_api"| != |"network"|;
  }

  lemma DurationRoundTrip(d: DurationClass)
    ensures ParseDuration(DurationValue(d)) == Some(d)
  {
    assert "medium"[0] != "short"[0] && "long"[0] != "short"[0] && "long"[0] != "medium"[0];
  }

  /** The frozen `FunctionCharacteristics` dataclass. */
  datatype FunctionCharacteristics = FunctionCharacteristics(
    name: string,
    description: string,
    role: Role,
    sync: SyncType,
    resourceType: ResourceType,
    duration: DurationClass)

  /** `FunctionCharacteristics(name=..., description=..., role=...)`: the other
      three fields take their declared defaults. */
  function NewCharacteristics(name: string, description: string, role: Role): (c: FunctionCharacteristics)
    ensures c.name == name && c.description == description && c.role == role
    ensures c.sync == Sync && c.resourceType == Cpu && c.duration == Short
  {
    FunctionCharacteristics(name, description, role, Sync, Cpu, Short)
  }

  /** An elemental function holds its characteristics and nothing else. */
  datatype ElementalFunction = ElementalFunction(characteristics: FunctionCharacteristics)

  /** `ElementalFunction(characteristics)` stores them unchanged. */
  function NewFunction(c: FunctionCharacteristics): (f: ElementalFunction)
    ensures f.characteristics == c
  {
    ElementalFunction(c)
  }

  const NotImplementedMessage := "Subclasses must implement `run` to return a dict."

  /** The base `run`: every call raises `NotImplementedError`. */
  function BaseRun(f: ElementalFunction, b: ElementalParams): (r: Result<Value>)
    ensures r.Failure? && r.error.NotImplementedError?
  {
    Failure(NotImplementedError(NotImplementedMessage))
  }

  /** `repr(type(v))`, as the `TypeError` of `run_dict` prints it. */
  function ClassRepr(v: Value): string {
    if v.DateTime? then "<class 'datetime.datetime'>" else "<class '" + TypeName(v) + "'>"
  }

  /** `run_dict` given what `run` did: an exception passes through; a record
      becomes its field mapping (`model_dump`); a dict is returned unchanged;
      anything else raises `TypeError`. */
  function RunDict(result: Result<Value>): (r: Result<Value>)
    ensures result.Failure? ==> r == result
    ensures result.Success? && result.value.Dict? ==> r == result
    ensures result.Success? && result.value.Record? ==> r == Success(Dump(result.value))
    ensures result.Success? && !result.value.Dict? && !result.value.Record? ==> r.Failure? && r.error.TypeError?
    ensures r.Success? ==> r.value.Dict?
  {
    match result
    case Failure(e) => Failure(e)
    case Success(v) =>
      if v.Record? then Success(Dump(v))
      else if v.Dict? then Success(v)
      else Failure(TypeError("run() must return a dict, got: " + ClassRepr(v)))
  }

  /** Normalising twice is normalising once: `run_dict`'s output is already a dict. */
  lemma RunDictIdempotent(result: Result<Value>)
    ensures RunDict(RunDict(result)) == RunDict(result)
  {
  }

  /** `run_dict` succeeds exactly when `run` returned a dict or a record. */
  lemma RunDictSucceeds(result: Result<Value>)
    ensures RunDict(result).Success? <==> result.Success? && (result.value.Dict? || result.value.Record?)
  {
  }
}
