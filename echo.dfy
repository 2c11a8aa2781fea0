/** `EchoFunction`: answers with the bundle's `params` and `savepoint` unchanged. */
module EchoFunction {
  import opened Values
  import opened Params
  import opened Base
  import opened Responses

  const Characteristics := FunctionCharacteristics(
    "Echo", "Echoes input parameters.", BusinessAction, Sync, Cpu, Short)

  /** `{"echo": params, "savepoint": savepoint}`. */
  function Payload(b: ElementalParams): (d: Value)
    ensures Field(d, "echo") == Some(Dict(b.params)) && Field(d, "savepoint") == Some(Dict(b.savepoint))
  {
    assert "echo"[0] != "savepoint"[0];
    Display2("echo", Dict(b.params), "savepoint", Dict(b.savepoint));
    Dict([("echo", Dict(b.params)), ("savepoint", Dict(b.savepoint))])
  }

  /** `EchoFunction.run`: always a success, whatever the bundle holds. */
  function Run(b: ElementalParams): (r: Result<Value>)
    ensures r.Success? && IsResponse(r.value)
    ensures Field(r.value, "status") == Some(Str("success"))
    ensures Field(r.value, "data") == Some(Payload(b))
    ensures Field(r.value, "meta") == Some(MetaDump(b))
    ensures Field(r.value, "error") == None
  {
    SuccessIsResponse(Payload(b), MetaDump(b));
    Success(SuccessDict(Payload(b), MetaDump(b)))
  }
}
