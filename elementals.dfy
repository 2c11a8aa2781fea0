/** The elemental functions side by side: the base class (whose `run` is not
    implemented) and the four examples, each with its characteristics, its `run`
    and the `run_dict` every one of them inherits. */
module Elementals {
  import opened Values
  import opened Params
  import opened Base
  import opened Responses
  import MultiplyFunction
  import LcmFunction
  import ConcatFunction
  import EchoFunction

  /** `LCMFunction` and `ConcatFunction` read their characteristics from the
      configuration when they are built; they are carried here as given. */
  datatype Elemental =
    | Abstract(characteristics: FunctionCharacteristics)
    | Multiply
    | Lcm(characteristics: FunctionCharacteristics)
    | Concat(characteristics: FunctionCharacteristics)
    | Echo

  function Characteristics(e: Elemental): (c: FunctionCharacteristics)
    ensures e.Multiply? ==> c == MultiplyFunction.Characteristics
    ensures e.Echo? ==> c == EchoFunction.Characteristics
    ensures e.Abstract? || e.Lcm? || e.Concat? ==> c == e.characteristics
  {
    match e
    case Multiply => MultiplyFunction.Characteristics
    case Echo => EchoFunction.Characteristics
    case _ => e.characteristics
  }

  /** What `run` of each class may be handed: the concatenation formats only the
      values it spells out. */
  predicate Accepts(e: Elemental, b: ElementalParams) {
    e.Concat? ==> ConcatFunction.Formattable(Get(b, "text1")) && ConcatFunction.Formattable(Get(b, "text2"))
  }

  /** `run` of each class. */
  function Run(e: Elemental, b: ElementalParams): (r: Result<Value>)
    requires Accepts(e, b)
    ensures e.Abstract? ==> r == BaseRun(ElementalFunction(e.characteristics), b)
    ensures e.Multiply? ==> r == MultiplyFunction.Run(b)
    ensures e.Lcm? ==> r == LcmFunction.Run(b)
    ensures e.Concat? ==> r == ConcatFunction.Run(b)
    ensures e.Echo? ==> r == EchoFunction.Run(b)
  {
    match e
    case Abstract(c) => BaseRun(ElementalFunction(c), b)
    case Multiply => MultiplyFunction.Run(b)
    case Lcm(_) => LcmFunction.Run(b)
    case Concat(_) => ConcatFunction.Run(b)
    case Echo => EchoFunction.Run(b)
  }

  /** The inherited `run_dict`. */
  function RunDict(e: Elemental, b: ElementalParams): (r: Result<Value>)
    requires Accepts(e, b)
    ensures r.Success? ==> r.value.Dict?
  {
    Base.RunDict(Run(e, b))
  }

  /** The examples already return dicts, so `run_dict` hands back what `run`
      returned, and every dict it returns is a valid response. */
  lemma ExamplesRunDict(e: Elemental, b: ElementalParams)
    requires !e.Abstract? && Accepts(e, b)
    ensures RunDict(e, b) == Run(e, b)
    ensures RunDict(e, b).Success? ==> IsResponse(RunDict(e, b).value)
  {
  }

  /** Only the multiplication can raise out of `run` (an operand type Python
      cannot multiply); the others always answer with a dict. */
  lemma OnlyMultiplyRaises(e: Elemental, b: ElementalParams)
    requires !e.Abstract? && !e.Multiply? && Accepts(e, b)
    ensures RunDict(e, b).Success?
  {
  }

  /** The base class raises `NotImplementedError` from `run_dict` too. */
  lemma AbstractRaises(c: FunctionCharacteristics, b: ElementalParams)
    ensures RunDict(Abstract(c), b).Failure? && RunDict(Abstract(c), b).error.NotImplementedError?
  {
  }
}
