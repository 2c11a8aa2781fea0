/** The Python values the resolvers and the example functions handle: `None`,
    booleans, integers, strings, datetimes, lists, tuples, string-keyed dicts
    (in insertion order) and pydantic model instances ("records", with their
    fields in declaration order), together with the exceptions raised on them. */
module Values {
  import opened Text

  datatype Option<+T> = None | Some(value: T) {
    function GetOr(default: T): T {
      match this
      case Some(v) => v
      case None => default
    }
  }

  /** The exceptions the modelled code raises, each with its message. */
  datatype Error =
    | ValueError(message: string)
    | KeyError(message: string)
    | TypeError(message: string)
    | AttributeError(message: string)
    | NotImplementedError(message: string)
    | ZeroDivisionError(message: string)

  /** A value, or the exception that aborted its computation. */
  datatype Result<+T> = Success(value: T) | Failure(error: Error)

  datatype Value =
    | Null
    | Bool(b: bool)
    | Int(i: int)
    | Str(s: string)
    | DateTime(ticks: int)
    | List(items: seq<Value>)
    | Tuple(items: seq<Value>)
    | Dict(entries: seq<(string, Value)>)
    | Record(model: string, fields: seq<(string, Value)>)

  /** A dict's (or a record's) key/value pairs in iteration order. */
  type Entries = seq<(string, Value)>

  function Keys(d: Entries): (ks: seq<string>)
    ensures |ks| == |d| && forall i :: 0 <= i < |d| ==> ks[i] == d[i].0
  {
    seq(|d|, i requires 0 <= i < |d| => d[i].0)
  }

  lemma KeysCons(e: (string, Value), d: Entries)
    ensures Keys([e] + d) == [e.0] + Keys(d)
  {
  }

  /** `d.get(k)`, with absence reported as `None` rather than a Python `None`. */
  function Lookup(d: Entries, k: string): (r: Option<Value>)
    ensures r.None? <==> k !in Keys(d)
    ensures r.Some? ==> (k, r.value) in d
  {
    if d == [] then None
    else if d[0].0 == k then Some(d[0].1)
    else
      assert Keys(d) == [d[0].0] + Keys(d[1..]);
      Lookup(d[1..], k)
  }

  /** Keys before the first occurrence of `k` do not affect the lookup. */
  lemma {:induction false} LookupSkip(d: Entries, k: string, n: nat)
    requires n <= |d| && forall i :: 0 <= i < n ==> d[i].0 != k
    ensures Lookup(d, k) == Lookup(d[n..], k)
  {
    if n > 0 {
      LookupSkip(d[1..], k, n - 1);
      assert d[1..][n - 1..] == d[n..];
    }
  }

  /** The first entry under `k` is the one `Lookup` finds. */
  lemma LookupAt(d: Entries, k: string, n: nat)
    requires n < |d| && d[n].0 == k && forall i :: 0 <= i < n ==> d[i].0 != k
    ensures Lookup(d, k) == Some(d[n].1)
  {
    LookupSkip(d, k, n);
    assert d[n..][0] == d[n];
  }

  /** Dict displays with distinct keys: each key reads as its own value. */
  lemma Display2(k0: string, v0: Value, k1: string, v1: Value)
    requires k0 != k1
    ensures var d := [(k0, v0), (k1, v1)];
      Lookup(d, k0) == Some(v0) && Lookup(d, k1) == Some(v1)
  {
    DisplayCons(k0, v0, [(k1, v1)], k1);
  }

  lemma Display3(k0: string, v0: Value, k1: string, v1: Value, k2: string, v2: Value)
    requires k0 != k1 && k0 != k2 && k1 != k2
    ensures var d := [(k0, v0), (k1, v1), (k2, v2)];
      Lookup(d, k0) == Some(v0) && Lookup(d, k1) == Some(v1) && Lookup(d, k2) == Some(v2)
  {
    var rest := [(k1, v1), (k2, v2)];
    Display2(k1, v1, k2, v2);
    DisplayCons(k0, v0, rest, k1);
    DisplayCons(k0, v0, rest, k2);
  }

  lemma Display4(k0: string, v0: Value, k1: string, v1: Value, k2: string, v2: Value, k3: string, v3: Value)
    requires k0 != k1 && k0 != k2 && k0 != k3 && k1 != k2 && k1 != k3 && k2 != k3
    ensures var d := [(k0, v0), (k1, v1), (k2, v2), (k3, v3)];
      && Lookup(d, k0) == Some(v0) && Lookup(d, k1) == Some(v1)
      && Lookup(d, k2) == Some(v2) && Lookup(d, k3) == Some(v3)
  {
    var rest := [(k1, v1), (k2, v2), (k3, v3)];
    Display3(k1, v1, k2, v2, k3, v3);
    DisplayCons(k0, v0, rest, k1);
    DisplayCons(k0, v0, rest, k2);
    DisplayCons(k0, v0, rest, k3);
  }

  /** A key none of the three entries has is absent. */
  lemma DisplayMiss3(k0: string, v0: Value, k1: string, v1: Value, k2: string, v2: Value, k: string)
    requires k != k0 && k != k1 && k != k2
    ensures Lookup([(k0, v0), (k1, v1), (k2, v2)], k) == None
  {
    DisplayCons(k2, v2, [], k);
    DisplayCons(k1, v1, [(k2, v2)], k);
    DisplayCons(k0, v0, [(k1, v1), (k2, v2)], k);
  }

  /** A key other than the first is looked up in the rest. */
  lemma DisplayCons(k0: string, v0: Value, rest: Entries, k: string)
    requires k != k0
    ensures Lookup([(k0, v0)] + rest, k) == Lookup(rest, k)
  {
    assert ([(k0, v0)] + rest)[1..] == rest;
  }

  /** `d[k] = v`: an existing key keeps its position, a new key goes last. */
  function Put(d: Entries, k: string, v: Value): (r: Entries)
    ensures Keys(r) == if k in Keys(d) then Keys(d) else Keys(d) + [k]
  {
    if d == [] then [(k, v)]
    else if d[0].0 == k then
      KeysCons(d[0], d[1..]);
      KeysCons((k, v), d[1..]);
      assert [d[0]] + d[1..] == d;
      [(k, v)] + d[1..]
    else
      KeysCons(d[0], d[1..]);
      KeysCons(d[0], Put(d[1..], k, v));
      assert [d[0]] + d[1..] == d;
      [d[0]] + Put(d[1..], k, v)
  }

  /** After `d[k] = v`, `d[k]` is `v` and every other key reads as before. */
  lemma {:induction false} PutLookup(d: Entries, k: string, v: Value, k': string)
    ensures Lookup(Put(d, k, v), k') == if k' == k then Some(v) else Lookup(d, k')
  {
    if d != [] && d[0].0 != k {
      PutLookup(d[1..], k, v, k');
    }
  }

  /** `d.update(kvs)`: each pair in turn, as `Put`. */
  function Update(d: Entries, kvs: Entries): (r: Entries)
    ensures forall k :: k in Keys(d) ==> k in Keys(r)
    ensures forall k :: k in Keys(kvs) ==> k in Keys(r)
    decreases |kvs|
  {
    if kvs == [] then d
    else Update(Put(d, kvs[0].0, kvs[0].1), kvs[1..])
  }

  /** After `d.update(kvs)` a key of `kvs` reads as its last value there, any other key as in `d`. */
  lemma {:induction false} UpdateLookup(d: Entries, kvs: Entries, k: string)
    ensures Lookup(Update(d, kvs), k) == if k in Keys(Reverse(kvs)) then Lookup(Reverse(kvs), k) else Lookup(d, k)
    decreases |kvs|
  {
    if kvs != [] {
      UpdateLookup(Put(d, kvs[0].0, kvs[0].1), kvs[1..], k);
      PutLookup(d, kvs[0].0, kvs[0].1, k);
      assert Reverse(kvs) == Reverse(kvs[1..]) + [kvs[0]];
      LookupAppend(Reverse(kvs[1..]), kvs[0], k);
    }
  }

  predicate DistinctKeys(kvs: Entries) {
    forall i, j :: 0 <= i < j < |kvs| ==> kvs[i].0 != kvs[j].0
  }

  lemma DistinctTail(kvs: Entries)
    requires kvs != [] && DistinctKeys(kvs)
    ensures DistinctKeys(kvs[1..]) && kvs[0].0 !in Keys(kvs[1..])
  {
    var rest := kvs[1..];
    forall i, j | 0 <= i < j < |rest| ensures rest[i].0 != rest[j].0 {
      assert rest[i] == kvs[i + 1] && rest[j] == kvs[j + 1];
    }
    forall j | 0 <= j < |rest| ensures rest[j].0 != kvs[0].0 {
      assert rest[j] == kvs[j + 1];
    }
  }

  /** With distinct keys in `kvs`, `d.update(kvs)` reads a key of `kvs` as its value
      there and any other key as in `d`. */
  lemma {:induction false} UpdateDistinct(d: Entries, kvs: Entries, k: string)
    requires DistinctKeys(kvs)
    ensures Lookup(Update(d, kvs), k) == if k in Keys(kvs) then Lookup(kvs, k) else Lookup(d, k)
    decreases |kvs|
  {
    if kvs != [] {
      var rest, d' := kvs[1..], Put(d, kvs[0].0, kvs[0].1);
      assert Update(d, kvs) == Update(d', rest);
      DistinctTail(kvs);
      UpdateDistinct(d', rest, k);
      PutLookup(d, kvs[0].0, kvs[0].1, k);
      assert Keys(kvs) == [kvs[0].0] + Keys(rest);
      if k == kvs[0].0 {
        assert Lookup(kvs, k) == Some(kvs[0].1);
      } else {
        assert Lookup(kvs, k) == Lookup(rest, k);
      }
    }
  }

  function Reverse(d: Entries): (r: Entries)
    ensures |r| == |d|
  {
    if d == [] then [] else Reverse(d[1..]) + [d[0]]
  }

  lemma {:induction false} LookupAppend(d: Entries, e: (string, Value), k: string)
    ensures Lookup(d + [e], k) == if k in Keys(d) then Lookup(d, k) else if e.0 == k then Some(e.1) else None
  {
    assert Keys(d + [e]) == Keys(d) + [e.0];
    if d != [] {
      assert (d + [e])[1..] == d[1..] + [e];
      assert Keys(d) == [d[0].0] + Keys(d[1..]);
      LookupAppend(d[1..], e, k);
    }
  }

  /** True when a record occurs somewhere inside `v` (in a container's items or values). */
  predicate HasRecord(v: Value) {
    match v
    case Record(_, _) => true
    case List(xs) => exists i :: 0 <= i < |xs| && HasRecord(xs[i])
    case Tuple(xs) => exists i :: 0 <= i < |xs| && HasRecord(xs[i])
    case Dict(d) => exists i :: 0 <= i < |d| && HasRecord(d[i].1)
    case _ => false
  }

  /** pydantic's `model_dump()`, applied to `v`: every record, however deeply nested,
      becomes a dict of its fields; a value holding no record is returned as it is. */
  function Dump(v: Value): (r: Value)
    ensures !HasRecord(r)
    ensures !HasRecord(v) ==> r == v
    ensures v.Record? ==> r.Dict? && Keys(r.entries) == Keys(v.fields)
    ensures v.Dict? ==> r.Dict? && Keys(r.entries) == Keys(v.entries)
    ensures v.List? ==> r.List? && |r.items| == |v.items|
    ensures v.Tuple? ==> r.Tuple? && |r.items| == |v.items|
  {
    match v
    case List(xs) => List(DumpItems(v, xs))
    case Tuple(xs) => Tuple(DumpItems(v, xs))
    case Dict(d) => Dict(DumpEntries(v, d))
    case Record(_, fs) => Dict(DumpEntries(v, fs))
    case _ => v
  }

  function DumpItems(ghost parent: Value, xs: seq<Value>): (r: seq<Value>)
    requires forall i :: 0 <= i < |xs| ==> xs[i] < parent
    ensures |r| == |xs|
    ensures forall i :: 0 <= i < |xs| ==> r[i] == Dump(xs[i])
    ensures (forall i :: 0 <= i < |xs| ==> !HasRecord(xs[i])) ==> r == xs
    decreases parent, 0
  {
    seq(|xs|, i requires 0 <= i < |xs| => Dump(xs[i]))
  }

  function DumpEntries(ghost parent: Value, d: Entries): (r: Entries)
    requires forall i :: 0 <= i < |d| ==> d[i].1 < parent
    ensures |r| == |d| && Keys(r) == Keys(d)
    ensures forall i :: 0 <= i < |d| ==> r[i] == (d[i].0, Dump(d[i].1))
    ensures (forall i :: 0 <= i < |d| ==> !HasRecord(d[i].1)) ==> r == d
    decreases parent, 0
  {
    seq(|d|, i requires 0 <= i < |d| => (d[i].0, Dump(d[i].1)))
  }

  /** `model_dump()` descends into every child: a record's fields and a dict's
      entries keep their names and order with their values dumped, and a list or
      tuple holds its items dumped. */
  lemma DumpChildren(v: Value)
    ensures v.Record? ==>
      (Dump(v).Dict? && |Dump(v).entries| == |v.fields|
       && forall i :: 0 <= i < |v.fields| ==> Dump(v).entries[i] == (v.fields[i].0, Dump(v.fields[i].1)))
    ensures v.Dict? ==>
      (Dump(v).Dict? && |Dump(v).entries| == |v.entries|
       && forall i :: 0 <= i < |v.entries| ==> Dump(v).entries[i] == (v.entries[i].0, Dump(v.entries[i].1)))
    ensures v.List? || v.Tuple? ==>
      (|Dump(v).items| == |v.items|
       && forall i :: 0 <= i < |v.items| ==> Dump(v).items[i] == Dump(v.items[i]))
  {
  }

  /** The name Python reports for the type of `v` (`type(v).__name__`). */
  function TypeName(v: Value): string {
    match v
    case Null => "NoneType"
    case Bool(_) => "bool"
    case Int(_) => "int"
    case Str(_) => "str"
    case DateTime(_) => "datetime"
    case List(_) => "list"
    case Tuple(_) => "tuple"
    case Dict(_) => "dict"
    case Record(m, _) => m
  }

  /** Python truthiness (`bool(v)`). */
  predicate Truthy(v: Value) {
    match v
    case Null => false
    case Bool(b) => b
    case Int(i) => i != 0
    case Str(s) => s != ""
    case DateTime(_) => true
    case List(xs) => xs != []
    case Tuple(xs) => xs != []
    case Dict(d) => d != []
    case Record(_, _) => true
  }

  /** `bool` is a subclass of `int` in Python: both take part in integer arithmetic. */
  predicate IsInteger(v: Value) { v.Int? || v.Bool? }

  function IntOf(v: Value): int
    requires IsInteger(v)
  {
    if v.Int? then v.i else if v.b then 1 else 0
  }

  predicate IsSequence(v: Value) { v.Str? || v.List? || v.Tuple? }

  /** How many copies `s * n` makes: none when `n <= 0`. */
  function Copies(n: int): nat {
    if n <= 0 then 0 else n
  }

  /** `y` is `x` repeated: position `k` of `y` holds position `k % |x|` of `x`. */
  predicate Cycles<T(==)>(x: seq<T>, y: seq<T>) {
    forall k :: 0 <= k < |y| ==> |x| > 0 && y[k] == x[k % |x|]
  }

  lemma MulAtLeast(a: int, m: int)
    requires a >= 1 && m > 0
    ensures a * m >= m
  {
  }

  /** `a % m` is the `r` of any `a == d * m + r` with `0 <= r < m`. */
  lemma ModUnique(a: int, d: int, m: int, r: int)
    requires m > 0 && 0 <= r < m && a == d * m + r
    ensures a % m == r
  {
    var q, s := a / m, a % m;
    assert (q - d) * m == r - s;
    if q > d {
      MulAtLeast(q - d, m);
    } else if q < d {
      MulAtLeast(d - q, m);
    }
  }

  lemma ModShift(k: int, m: int)
    requires m > 0 && k >= m
    ensures (k - m) % m == k % m
  {
    ModUnique(k - m, k / m - 1, m, k % m);
  }

  /** One more copy in front of a repetition is still a repetition. */
  lemma CyclesCons<T>(x: seq<T>, rest: seq<T>)
    requires Cycles(x, rest)
    ensures Cycles(x, x + rest)
  {
    var y := x + rest;
    forall k | 0 <= k < |y| ensures |x| > 0 && y[k] == x[k % |x|] {
      if k < |x| {
        ModUnique(k, 0, |x|, k);
      } else {
        assert y[k] == rest[k - |x|];
        assert rest[k - |x|] == x[(k - |x|) % |x|];
        ModShift(k, |x|);
      }
    }
  }

  /** `s * n` for a string, list or tuple `s`: `n` copies of `s` one after the
      other, none when `n <= 0`. */
  function Repeat(s: Value, n: int): (r: Value)
    requires IsSequence(s)
    ensures r.Str? == s.Str? && r.List? == s.List? && r.Tuple? == s.Tuple?
    ensures s.Str? ==> |r.s| == Copies(n) * |s.s| && Cycles(s.s, r.s)
    ensures !s.Str? ==> |r.items| == Copies(n) * |s.items| && Cycles(s.items, r.items)
    decreases Copies(n)
  {
    if n <= 0 then
      match s
      case Str(_) => Str("")
      case List(_) => List([])
      case Tuple(_) => Tuple([])
    else
      var rest := Repeat(s, n - 1);
      match s
      case Str(t) => CyclesCons(t, rest.s); Str(t + rest.s)
      case List(xs) => CyclesCons(xs, rest.items); List(xs + rest.items)
      case Tuple(xs) => CyclesCons(xs, rest.items); Tuple(xs + rest.items)
  }

  /** Python's `x * y` on these values: integer product (booleans count as 0 and 1),
      sequence repetition when one side is a string, list or tuple, and the
      `TypeError` CPython raises otherwise. */
  function Multiply(x: Value, y: Value): (r: Result<Value>)
    ensures IsInteger(x) && IsInteger(y) ==> r == Success(Int(IntOf(x) * IntOf(y)))
    ensures IsSequence(x) && IsInteger(y) ==> r == Success(Repeat(x, IntOf(y)))
    ensures IsInteger(x) && IsSequence(y) ==> r == Success(Repeat(y, IntOf(x)))
    ensures r.Success? && r.value.Int? ==> IsInteger(x) && IsInteger(y)
    ensures !IsInteger(x) && !IsInteger(y) ==> r.Failure? && r.error.TypeError?
    ensures r.Failure? ==> r.error.TypeError?
  {
    if IsSequence(x) then
      if IsInteger(y) then Success(Repeat(x, IntOf(y)))
      else Failure(TypeError("can't multiply sequence by non-int of type '" + TypeName(y) + "'"))
    else if IsSequence(y) then
      if IsInteger(x) then Success(Repeat(y, IntOf(x)))
      else Failure(TypeError("can't multiply sequence by non-int of type '" + TypeName(x) + "'"))
    else if IsInteger(x) && IsInteger(y) then Success(Int(IntOf(x) * IntOf(y)))
    else Failure(TypeError("unsupported operand type(s) for *: '" + TypeName(x) + "' and '" + TypeName(y) + "'"))
  }

  /** True when some string leaf of template `t` satisfies `p`. Only dict values,
      list items and tuple items are visited: keys and records are leaves. */
  predicate HasString(t: Value, p: string -> bool) {
    match t
    case Str(s) => p(s)
    case List(xs) => exists i :: 0 <= i < |xs| && HasString(xs[i], p)
    case Tuple(xs) => exists i :: 0 <= i < |xs| && HasString(xs[i], p)
    case Dict(d) => exists i :: 0 <= i < |d| && HasString(d[i].1, p)
    case _ => false
  }

  /** `r` has the shape of template `t`: the same container kinds, dict keys (in
      order), lengths and arities at every level, and every leaf unchanged except
      the strings `isPath` selects, which may have been replaced by anything. */
  predicate Conforms(t: Value, r: Value, isPath: string -> bool) {
    match t
    case Dict(d) =>
      && r.Dict? && Keys(r.entries) == Keys(d)
      && forall i :: 0 <= i < |d| ==> Conforms(d[i].1, r.entries[i].1, isPath)
    case List(xs) =>
      && r.List? && |r.items| == |xs|
      && forall i :: 0 <= i < |xs| ==> Conforms(xs[i], r.items[i], isPath)
    case Tuple(xs) =>
      && r.Tuple? && |r.items| == |xs|
      && forall i :: 0 <= i < |xs| ==> Conforms(xs[i], r.items[i], isPath)
    case Str(s) => isPath(s) || r == t
    case _ => r == t
  }

  /** The first failure among `rs`, or all their values: what evaluating a
      comprehension left to right gives when any element may raise. */
  function Collect(rs: seq<Result<Value>>): (r: Result<seq<Value>>)
    ensures r.Success? <==> forall i :: 0 <= i < |rs| ==> rs[i].Success?
    ensures r.Success? ==> |r.value| == |rs| && forall i :: 0 <= i < |rs| ==> rs[i] == Success(r.value[i])
    ensures r.Failure? ==> exists i :: 0 <= i < |rs| && rs[i] == Failure(r.error) && forall j :: 0 <= j < i ==> rs[j].Success?
  {
    if rs == [] then Success([])
    else if rs[0].Failure? then Failure(rs[0].error)
    else
      match Collect(rs[1..])
      case Failure(e) =>
        FirstFailureCons(rs, e);
        Failure(e)
      case Success(vs) => Success([rs[0].value] + vs)
  }

  /** The first failure of `rs[1..]` is the first of `rs` when `rs[0]` succeeds. */
  lemma FirstFailureCons(rs: seq<Result<Value>>, e: Error)
    requires rs != [] && rs[0].Success?
    requires exists i :: 0 <= i < |rs| - 1 && rs[1..][i] == Failure(e) && forall j :: 0 <= j < i ==> rs[1..][j].Success?
    ensures exists i :: 0 <= i < |rs| && rs[i] == Failure(e) && forall j :: 0 <= j < i ==> rs[j].Success?
  {
    var i :| 0 <= i < |rs| - 1 && rs[1..][i] == Failure(e) && forall j :: 0 <= j < i ==> rs[1..][j].Success?;
    forall j | 0 <= j < i + 1 ensures rs[j].Success? {
      if j > 0 {
        assert rs[j] == rs[1..][j - 1];
      }
    }
  }
}
