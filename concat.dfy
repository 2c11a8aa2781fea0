/** `ConcatFunction`: reads `text1` and `text2` from the bundle's `params`, answers
    a `missing_param` error when either is absent or `None`, and otherwise returns
    both inputs with `f"{text1}{text2}"`. */
module ConcatFunction {
  import opened Text
  import opened Values
  import opened Params
  import opened Base
  import opened Responses

  /** The characteristics used when the configuration holds no `Concat` entry. */
  const DefaultCharacteristics := FunctionCharacteristics(
    "Concat", "Receives two texts and returns them along with their concatenation.",
    BusinessAction, Sync, Cpu, Short)

  const MissingMessage := "Both 'text1' and 'text2' must be provided."

  /** The values whose `str()` this model spells out. */
  predicate Formattable(v: Value) {
    v.Null? || v.Bool? || v.Int? || v.Str?
  }

  /** `format(v)` inside an f-string, which is `str(v)` for these values. */
  function Format(v: Value): (s: string)
    requires Formattable(v)
    ensures v.Str? ==> s == v.s
    ensures v.Int? ==> IsIntLiteral(s) && ParseInt(s) == v.i
  {
    match v
    case Null => "None"
    case Bool(b) => if b then "True" else "False"
    case Int(i) => ParseDecimal(i); Decimal(i)
    case Str(s) => s
  }

  /** `{"text1": t1, "text2": t2, "concat": c}`. */
  function Payload(t1: Value, t2: Value, c: Value): (d: Value)
    ensures Field(d, "text1") == Some(t1) && Field(d, "text2") == Some(t2) && Field(d, "concat") == Some(c)
  {
    assert "text1"[4] != "text2"[4] && |"text1"| != |"concat"| && |"text2"| != |"concat"|;
    Display3("text1", t1, "text2", t2, "concat", c);
    Dict([("text1", t1), ("text2", t2), ("concat", c)])
  }

  /** `ConcatFunction.run`. The check is `is None`, so the empty string counts as given. */
  function Run(b: ElementalParams): (r: Result<Value>)
    requires Formattable(Get(b, "text1")) && Formattable(Get(b, "text2"))
    ensures r.Success? && IsResponse(r.value) && Field(r.value, "meta") == Some(MetaDump(b))
    ensures Missing(b, "text1") || Missing(b, "text2") ==>
      && Field(r.value, "status") == Some(Str("error"))
      && ErrorCode(r.value) == Some(Str("missing_param"))
      && ErrorMessage(r.value) == Some(Str(MissingMessage))
      && Field(r.value, "data") == Some(Null)
    ensures !Missing(b, "text1") && !Missing(b, "text2") ==>
      var t1, t2 := Get(b, "text1"), Get(b, "text2");
      && Field(r.value, "status") == Some(Str("success"))
      && Field(r.value, "data") == Some(Payload(t1, t2, Str(Format(t1) + Format(t2))))
  {
    var t1, t2 := Get(b, "text1"), Get(b, "text2");
    var meta := MetaDump(b);
    if t1 == Null || t2 == Null then
      ErrorIsResponse("missing_param", MissingMessage, meta);
      Success(ErrorDict("missing_param", MissingMessage, meta))
    else
      var data := Payload(t1, t2, Str(Format(t1) + Format(t2)));
      SuccessIsResponse(data, meta);
      Success(SuccessDict(data, meta))
  }

  /** The concatenation of two strings: the inputs come back unchanged, and the
      result starts with the first, ends with the second and is as long as both. */
  lemma StringConcat(b: ElementalParams, s1: string, s2: string)
    requires Get(b, "text1") == Str(s1) && Get(b, "text2") == Str(s2)
    ensures var r := Run(b);
      && Field(r.value, "status") == Some(Str("success"))
      && Field(r.value, "data") == Some(Payload(Str(s1), Str(s2), Str(s1 + s2)))
      && |s1 + s2| == |s1| + |s2|
      && (s1 + s2)[..|s1|] == s1 && (s1 + s2)[|s1|..] == s2
  {
  }

  /** An empty string is given, not missing: `""` and `s` concatenate to `s`. */
  lemma EmptyIsGiven(b: ElementalParams, s: string)
    requires Get(b, "text1") == Str("") && Get(b, "text2") == Str(s)
    ensures var r := Run(b);
      && Field(r.value, "status") == Some(Str("success"))
      && Field(r.value, "data") == Some(Payload(Str(""), Str(s), Str(s)))
  {
    AppendEmpty(s);
  }

  /** An integer is printed in decimal ahead of the string, and reading that
      prefix back as an integer gives the integer. */
  lemma IntegerFormatted(b: ElementalParams, i: int, s: string)
    requires Get(b, "text1") == Int(i) && Get(b, "text2") == Str(s)
    ensures var r := Run(b);
      && Field(r.value, "status") == Some(Str("success"))
      && Field(r.value, "data") == Some(Payload(Int(i), Str(s), Str(Format(Int(i)) + s)))
      && var c := Format(Int(i)) + s;
        IsIntLiteral(c[..|Format(Int(i))|]) && ParseInt(c[..|Format(Int(i))|]) == i
  {
    var d := Format(Int(i));
    assert (d + s)[..|d|] == d;
  }

  /** The missing-operand test: `{"text1": "Hello"}` reports `missing_param`. */
  lemma MissingReported(b: ElementalParams)
    requires Lookup(b.params, "text2").None? && Formattable(Get(b, "text1"))
    ensures var r := Run(b);
      Field(r.value, "status") == Some(Str("error")) && ErrorCode(r.value) == Some(Str("missing_param"))
  {
  }
}
