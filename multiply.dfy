/** `MultiplyFunction`: reads `a` and `b` from the bundle's `params`, answers a
    `missing_param` error when either is absent or `None`, and otherwise returns
    both operands with their product. */
module MultiplyFunction {
  import opened Values
  import opened Params
  import opened Base
  import opened Responses

  const Characteristics := FunctionCharacteristics(
    "Multiply", "Receives two numbers and returns them along with their multiplication.",
    BusinessAction, Sync, Cpu, Short)

  const MissingMessage := "Both 'a' and 'b' must be provided."

  /** `{"a": a, "b": b, "product": product}`. */
  function Payload(a: Value, b: Value, product: Value): (d: Value)
    ensures Field(d, "a") == Some(a) && Field(d, "b") == Some(b) && Field(d, "product") == Some(product)
  {
    assert "a"[0] != "b"[0] && |"a"| != |"product"| && |"b"| != |"product"|;
    Display3("a", a, "b", b, "product", product);
    Dict([("a", a), ("b", b), ("product", product)])
  }

  /** `MultiplyFunction.run`. The check is `is None`, so `0` counts as given;
      `a * b` is Python's product, whose `TypeError` (a string times a string,
      say) is not caught. */
  function Run(b: ElementalParams): (r: Result<Value>)
    ensures Missing(b, "a") || Missing(b, "b") ==>
      && r.Success?
      && Field(r.value, "status") == Some(Str("error"))
      && ErrorCode(r.value) == Some(Str("missing_param"))
      && Field(r.value, "data") == Some(Null)
    ensures !Missing(b, "a") && !Missing(b, "b") ==>
      match Values.Multiply(Get(b, "a"), Get(b, "b"))
      case Failure(e) => r == Failure(e)
      case Success(p) =>
        && r.Success?
        && Field(r.value, "status") == Some(Str("success"))
        && Field(r.value, "data") == Some(Payload(Get(b, "a"), Get(b, "b"), p))
    ensures r.Success? ==> Field(r.value, "meta") == Some(MetaDump(b)) && IsResponse(r.value)
    ensures r.Failure? ==> r.error.TypeError?
  {
    var a, c := Get(b, "a"), Get(b, "b");
    var meta := MetaDump(b);
    if a == Null || c == Null then
      ErrorIsResponse("missing_param", MissingMessage, meta);
      Success(ErrorDict("missing_param", MissingMessage, meta))
    else
      match Values.Multiply(a, c)
      case Failure(e) => Failure(e)
      case Success(p) =>
        SuccessIsResponse(Payload(a, c, p), meta);
        Success(SuccessDict(Payload(a, c, p), meta))
  }

  /** Two given integers (booleans count as 0 and 1) always succeed, and the
      payload holds them and their product. */
  lemma IntegerProduct(b: ElementalParams)
    requires IsInteger(Get(b, "a")) && IsInteger(Get(b, "b"))
    ensures var r := Run(b);
      && r.Success?
      && Field(r.value, "status") == Some(Str("success"))
      && Field(r.value, "data") == Some(Payload(Get(b, "a"), Get(b, "b"), Int(IntOf(Get(b, "a")) * IntOf(Get(b, "b")))))
  {
  }

  /** `0` is a value, not a missing parameter: `a = 0` gives the product `0`. */
  lemma ZeroIsGiven(b: ElementalParams)
    requires Get(b, "a") == Int(0) && Get(b, "b").Int?
    ensures var r := Run(b);
      r.Success? && Field(r.value, "data") == Some(Payload(Int(0), Get(b, "b"), Int(0)))
  {
    IntegerProduct(b);
    var n := IntOf(Get(b, "b"));
    assert IntOf(Get(b, "a")) == 0;
    assert 0 * n == 0;
  }

  /** `{"a": 3, "b": 4}` gives the product 12. */
  lemma ThreeTimesFour(b: ElementalParams)
    requires b.params == [("a", Int(3)), ("b", Int(4))]
    ensures Run(b).Success? && Field(Run(b).value, "data") == Some(Payload(Int(3), Int(4), Int(12)))
  {
    assert "a"[0] != "b"[0];
    Display2("a", Int(3), "b", Int(4));
    assert Get(b, "a") == Int(3) && Get(b, "b") == Int(4);
    IntegerProduct(b);
  }

  /** A missing operand is reported whatever the other one is. */
  lemma MissingReported(b: ElementalParams)
    requires Lookup(b.params, "b").None?
    ensures var r := Run(b);
      r.Success? && Field(r.value, "status") == Some(Str("error")) && ErrorCode(r.value) == Some(Str("missing_param"))
  {
  }
}
