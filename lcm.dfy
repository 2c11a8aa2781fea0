/** `LCMFunction`: reads `a` and `b` from the bundle's `params`, answers a
    `missing_param` error when either is absent or `None`, and otherwise returns
    `abs(a * b) // math.gcd(a, b)`; any exception raised on the way is caught and
    reported with code `exception`. */
module LcmFunction {
  import opened Values
  import opened Params
  import opened Base
  import opened Responses

  /** The characteristics used when the configuration holds no `LCM` entry. */
  const DefaultCharacteristics := FunctionCharacteristics(
    "LCM", "Calculate the least common multiple of two numbers",
    BusinessAction, Sync, Cpu, Short)

  const MissingMessage := "Parameters 'a' and 'b' are required."

  const ZeroDivisionMessage := "integer division or modulo by zero"

  function Abs(i: int): nat {
    if i < 0 then -i else i
  }

  /** `math.gcd` on magnitudes, by Euclid's algorithm; zero only for two zeros. */
  function Gcd(x: nat, y: nat): (g: nat)
    ensures g == 0 <==> x == 0 && y == 0
    decreases y
  {
    if y == 0 then x else Gcd(y, x % y)
  }

  lemma MulGe(d: int, k: int)
    requires d > 0 && k >= 1
    ensures d * k >= d
  {
  }

  lemma MulLe(d: int, k: int)
    requires d > 0 && k <= -1
    ensures d * k <= -d
  {
  }

  lemma MulZero(d: int, k: int)
    requires d > 0 && 0 <= d * k < d
    ensures k == 0
  {
    if k >= 1 {
      MulGe(d, k);
    } else if k <= -1 {
      MulLe(d, k);
    }
  }

  /** A multiple of `d` leaves no remainder, and dividing gives the factor back. */
  lemma MulMod(d: nat, m: int)
    requires d > 0
    ensures (d * m) % d == 0 && (d * m) / d == m
  {
    var q, r := (d * m) / d, (d * m) % d;
    assert d * (m - q) == r;
    MulZero(d, m - q);
  }

  lemma DivExact(n: int, d: nat)
    requires d > 0 && n % d == 0
    ensures n == d * (n / d)
  {
  }

  lemma DivMod(x: int, y: int)
    requires y != 0
    ensures x == x % y + (x / y) * y && x % y == x + (-(x / y)) * y
  {
  }

  lemma Distrib(d: int, ka: int, q: int, kb: int, a: int, b: int)
    requires a == d * ka && b == d * kb
    ensures a + q * b == d * (ka + q * kb)
  {
    assert q * (d * kb) == d * (q * kb);
  }

  /** Divisibility by `d` is closed under `a + q * b`. */
  lemma ModCombination(a: int, b: int, q: int, d: nat)
    requires d > 0 && a % d == 0 && b % d == 0
    ensures (a + q * b) % d == 0
  {
    var ka, kb := a / d, b / d;
    DivExact(a, d);
    DivExact(b, d);
    Distrib(d, ka, q, kb, a, b);
    MulMod(d, ka + q * kb);
  }

  /** The gcd divides both arguments. */
  lemma {:induction false} GcdDivides(x: nat, y: nat)
    requires x > 0 || y > 0
    ensures x % Gcd(x, y) == 0 && y % Gcd(x, y) == 0
    decreases y
  {
    if y == 0 {
      MulMod(x, 1);
    } else {
      var g, r, q := Gcd(x, y), x % y, x / y;
      assert g == Gcd(y, r);
      GcdDivides(y, r);
      ModCombination(r, y, q, g);
      DivMod(x, y);
    }
  }

  /** Every common divisor divides the gcd: it is the greatest one. */
  lemma {:induction false} GcdGreatest(x: nat, y: nat, d: nat)
    requires d > 0 && x % d == 0 && y % d == 0
    ensures Gcd(x, y) % d == 0
    decreases y
  {
    if y != 0 {
      var r, q := x % y, x / y;
      DivMod(x, y);
      ModCombination(x, y, -q, d);
      GcdGreatest(y, r, d);
    }
  }

  /** `g == s * x + t * y`. */
  predicate Combination(g: int, x: int, y: int, s: int, t: int) {
    g == s * x + t * y
  }

  /** Bezout's identity: the gcd is an integer combination of the arguments. */
  lemma {:induction false} Bezout(x: nat, y: nat)
    ensures exists s, t :: Combination(Gcd(x, y), x, y, s, t)
    decreases y
  {
    if y == 0 {
      assert Combination(Gcd(x, y), x, y, 1, 0);
    } else {
      Bezout(y, x % y);
      var s, t :| Combination(Gcd(y, x % y), y, x % y, s, t);
      BezoutStep(x, y, Gcd(x, y), s, t);
    }
  }

  /** One step of Euclid carried back: a combination of `y` and `x % y` is one of `x` and `y`. */
  lemma BezoutStep(x: nat, y: nat, g: int, s: int, t: int)
    requires y > 0 && Combination(g, y, x % y, s, t)
    ensures Combination(g, x, y, t, s - t * (x / y))
  {
    var q := x / y;
    assert x % y == x - q * y;
    assert t * (x - q * y) == t * x - (t * q) * y;
    assert (s - t * q) * y == s * y - (t * q) * y;
  }

  /** `abs(a * b) // math.gcd(a, b)` on integers: `ZeroDivisionError` exactly when both are zero. */
  function LcmOf(a: int, b: int): (r: Result<int>)
    ensures r.Failure? <==> a == 0 && b == 0
    ensures r.Failure? ==> r.error == ZeroDivisionError(ZeroDivisionMessage)
    ensures r.Success? ==> r.value >= 0
  {
    var g := Gcd(Abs(a), Abs(b));
    if g == 0 then Failure(ZeroDivisionError(ZeroDivisionMessage))
    else Success(Abs(a * b) / g)
  }

  lemma AbsMul(a: int, b: int)
    ensures Abs(a * b) == Abs(a) * Abs(b)
  {
    if a < 0 && b < 0 {
      assert a * b == (-a) * (-b);
    } else if a < 0 {
      assert -(a * b) == (-a) * b;
    } else if b < 0 {
      assert -(a * b) == a * (-b);
    }
  }

  /** When exactly one argument is zero the lcm is zero. */
  lemma LcmZero(a: int, b: int)
    requires (a == 0) != (b == 0)
    ensures LcmOf(a, b) == Success(0)
  {
    assert a * b == 0;
  }

  lemma Rearrange(x: int, y: int, g: int, kx: int, ky: int)
    requires x == g * kx && y == g * ky
    ensures x * ky == kx * y && x * y == (x * ky) * g
  {
    assert x * ky == (g * kx) * ky == kx * (g * ky);
    assert x * y == x * (g * ky) == (x * ky) * g;
  }

  lemma MulPositive(x: int, y: int)
    requires x > 0 && y > 0
    ensures x * y > 0
  {
  }

  /** For non-zero arguments the gcd is positive and divides both magnitudes, and
      the lcm is `|a|` times `|b| / gcd`. */
  lemma LcmShape(a: int, b: int)
    requires a != 0 && b != 0
    ensures var x, y := Abs(a), Abs(b);
      var g := Gcd(x, y);
      && g > 0 && x % g == 0 && y % g == 0 && y / g > 0
      && x * y == (x * (y / g)) * g
      && LcmOf(a, b) == Success(x * (y / g))
  {
    var x, y := Abs(a), Abs(b);
    var g := Gcd(x, y);
    GcdDivides(x, y);
    var kx, ky := x / g, y / g;
    DivExact(x, g);
    DivExact(y, g);
    Rearrange(x, y, g, kx, ky);
    if ky <= 0 {
      MulNonPos(g, ky);
    }
    AbsMul(a, b);
    MulMod(g, x * ky);
    assert (x * ky) * g == g * (x * ky);
  }

  lemma MulNonPos(g: int, k: int)
    requires g > 0 && k <= 0
    ensures g * k <= 0
  {
  }

  /** When neither argument is zero, the lcm is a positive common multiple of both
      that divides `|a * b|`. */
  lemma LcmCommonMultiple(a: int, b: int)
    requires a != 0 && b != 0
    ensures var r := LcmOf(a, b);
      && r.Success? && r.value > 0
      && r.value % Abs(a) == 0 && r.value % Abs(b) == 0
      && Abs(a * b) % r.value == 0
  {
    var x, y := Abs(a), Abs(b);
    var g := Gcd(x, y);
    LcmShape(a, b);
    var kx, ky := x / g, y / g;
    DivExact(x, g);
    DivExact(y, g);
    Rearrange(x, y, g, kx, ky);
    var l := x * ky;
    MulPositive(x, ky);
    MulMod(x, ky);
    MulMod(y, kx);
    assert y * kx == kx * y;
    AbsMul(a, b);
    MulMod(l, g);
  }

  /** The lcm divides every common multiple of `a` and `b`: it is the least one. */
  lemma LcmLeast(a: int, b: int, m: int)
    requires a != 0 && b != 0 && m % Abs(a) == 0 && m % Abs(b) == 0
    ensures var r := LcmOf(a, b); r.Success? && r.value > 0 && m % r.value == 0
  {
    var x, y := Abs(a), Abs(b);
    var g := Gcd(x, y);
    LcmCommonMultiple(a, b);
    LcmShape(a, b);
    var l := x * (y / g);
    Bezout(x, y);
    var s, t :| Combination(g, x, y, s, t);
    var u, v := m / x, m / y;
    DivExact(m, x);
    DivExact(m, y);
    LeastStep(x, y, g, l, m, s, t, u, v);
    MulCancel(g, m, l * (s * v + t * u));
    MulMod(l, s * v + t * u);
  }

  /** The arithmetic of `LcmLeast`: `m * g == (l * w) * g`. */
  lemma LeastStep(x: int, y: int, g: int, l: int, m: int, s: int, t: int, u: int, v: int)
    requires Combination(g, x, y, s, t) && m == x * u && m == y * v && x * y == l * g
    ensures m * g == (l * (s * v + t * u)) * g
  {
    calc {
      m * g;
      m * (s * x + t * y);
      (m * s) * x + (m * t) * y;
      { assert m * s * x == (y * v) * s * x; assert m * t * y == (x * u) * t * y; }
      (x * y) * (s * v) + (x * y) * (t * u);
      (x * y) * (s * v + t * u);
      (l * g) * (s * v + t * u);
      (l * (s * v + t * u)) * g;
    }
  }

  lemma MulCancel(g: int, p: int, q: int)
    requires g > 0 && p * g == q * g
    ensures p == q
  {
    assert (p - q) * g == 0;
    if p > q {
      MulPositive(p - q, g);
    } else if p < q {
      MulPositive(q - p, g);
    }
  }

  /** `abs(a * b) // math.gcd(a, b)` on Python values, in Python's evaluation
      order: the product first (its `TypeError` propagates), then `abs` of it (a
      repeated sequence has none), then `gcd` and the floor division. */
  function LcmValue(a: Value, b: Value): (r: Result<Value>)
    ensures IsInteger(a) && IsInteger(b) ==>
      match LcmOf(IntOf(a), IntOf(b))
      case Success(l) => r == Success(Int(l))
      case Failure(e) => r == Failure(e)
    ensures !(IsInteger(a) && IsInteger(b)) ==> r.Failure? && r.error.TypeError?
  {
    match Values.Multiply(a, b)
    case Failure(e) => Failure(e)
    case Success(p) =>
      if !p.Int? then Failure(TypeError("bad operand type for abs(): '" + TypeName(p) + "'"))
      else
        match LcmOf(IntOf(a), IntOf(b))
        case Success(l) => Success(Int(l))
        case Failure(e) => Failure(e)
  }

  /** `{"lcm": l}`. */
  function Payload(l: Value): (d: Value)
    ensures Field(d, "lcm") == Some(l)
  {
    Dict([("lcm", l)])
  }

  /** `LCMFunction.run`: never raises. A missing operand gives `missing_param`, an
      exception while computing gives `exception` with the exception's message, and
      otherwise the payload holds the lcm. */
  function Run(b: ElementalParams): (r: Result<Value>)
    ensures r.Success? && IsResponse(r.value) && Field(r.value, "meta") == Some(MetaDump(b))
    ensures Missing(b, "a") || Missing(b, "b") ==>
      && Field(r.value, "status") == Some(Str("error"))
      && ErrorCode(r.value) == Some(Str("missing_param"))
      && ErrorMessage(r.value) == Some(Str(MissingMessage))
      && Field(r.value, "data") == Some(Null)
    ensures !Missing(b, "a") && !Missing(b, "b") ==>
      match LcmValue(Get(b, "a"), Get(b, "b"))
      case Success(l) =>
        && Field(r.value, "status") == Some(Str("success"))
        && Field(r.value, "data") == Some(Payload(l))
      case Failure(e) =>
        && Field(r.value, "status") == Some(Str("error"))
        && ErrorCode(r.value) == Some(Str("exception"))
        && ErrorMessage(r.value) == Some(Str(e.message))
        && Field(r.value, "data") == Some(Null)
  {
    var a, c := Get(b, "a"), Get(b, "b");
    var meta := MetaDump(b);
    if a == Null || c == Null then
      ErrorIsResponse("missing_param", MissingMessage, meta);
      Success(ErrorDict("missing_param", MissingMessage, meta))
    else
      match LcmValue(a, c)
      case Success(l) =>
        SuccessIsResponse(Payload(l), meta);
        Success(SuccessDict(Payload(l), meta))
      case Failure(e) =>
        ErrorIsResponse("exception", e.message, meta);
        Success(ErrorDict("exception", e.message, meta))
  }

  /** `a = b = 0`: `gcd(0, 0)` is 0 and the division fails, reported as an exception. */
  lemma BothZero(b: ElementalParams)
    requires Get(b, "a") == Int(0) && Get(b, "b") == Int(0)
    ensures var r := Run(b);
      && Field(r.value, "status") == Some(Str("error"))
      && ErrorCode(r.value) == Some(Str("exception"))
      && ErrorMessage(r.value) == Some(Str(ZeroDivisionMessage))
      && Field(r.value, "data") == Some(Null)
  {
    assert Gcd(0, 0) == 0;
    assert LcmOf(0, 0) == Failure(ZeroDivisionError(ZeroDivisionMessage));
    assert Values.Multiply(Int(0), Int(0)) == Success(Int(0));
    assert LcmValue(Int(0), Int(0)) == Failure(ZeroDivisionError(ZeroDivisionMessage));
  }

  /** Two given non-zero integers give their least common multiple. */
  lemma IntegerLcm(b: ElementalParams, x: int, y: int)
    requires Get(b, "a") == Int(x) && Get(b, "b") == Int(y) && x != 0 && y != 0
    ensures var r := Run(b);
      && Field(r.value, "status") == Some(Str("success"))
      && Field(r.value, "data") == Some(Payload(Int(LcmOf(x, y).value)))
      && LcmOf(x, y).value > 0
      && LcmOf(x, y).value % Abs(x) == 0 && LcmOf(x, y).value % Abs(y) == 0
  {
    LcmCommonMultiple(x, y);
  }

  /** `gcd(6, 8) == 2`, so `lcm(6, 8) == 48 // 2 == 24`. */
  lemma SixAndEight()
    ensures LcmOf(6, 8) == Success(24)
  {
    assert Gcd(6, 8) == 2 by {
      assert Gcd(6, 8) == Gcd(8, 6) == Gcd(6, 2) == Gcd(2, 0);
    }
  }

  /** The missing-operand test: `{"a": 6}` reports `missing_param`. */
  lemma MissingReported(b: ElementalParams)
    requires Lookup(b.params, "b").None?
    ensures var r := Run(b);
      Field(r.value, "status") == Some(Str("error")) && ErrorCode(r.value) == Some(Str("missing_param"))
  {
  }
}
