/** The strict resolver: a `$`-prefixed path such as `$params.items[1].val` is
    split into tokens, walked from the parameter bundle one step at a time, and
    either resolves, falls back to a caller-supplied default, or raises.
    Templates (dicts, lists and tuples nested to any depth) have their path
    strings replaced by what they resolve to, under a missing-path policy. */
module ParamPaths {
  import opened Text
  import opened Values
  import opened Params
  import opened PathSyntax

  const NotAPath: string := "Path expressions must start with '$'"
  const BadPolicy: string := "on_missing must be one of: none, keep, error"
  const NotADict: string := "path_map must resolve to a dict"

  function NotFound(path: string): string { "Path not found: " + path }

  /** `_is_path_expr` on a string: once surrounding whitespace is stripped it starts with `$`. */
  predicate IsPathString(s: string) {
    var t := Strip(s);
    t != "" && t[0] == '$'
  }

  /** `_is_path_expr` on any value: only strings can be path expressions. */
  predicate IsPathExpr(v: Value) {
    v.Str? && IsPathString(v.s)
  }

  // ---------------------------------------------------------------------------
  // Tokenizing

  /** The token for the (stripped) text between `[` and `]`: an index when it is
      an integer literal, otherwise a name, possibly empty. */
  function BracketToken(t: string): Token {
    if IsIntLiteral(t) then Index(ParseInt(t)) else Name(t)
  }

  /** The tokens of `part` from position `i` on, `buf` being the pending name.
      An unmatched `[` makes the rest of the part one name. */
  function SegmentTokens(part: string, i: nat, buf: string): seq<Token>
    decreases |part| - i
  {
    if i >= |part| then Flush(buf)
    else if part[i] == '[' then
      var j := Find(part, ']', i + 1);
      if j == -1 then Flush(buf) + [Name(part[i..])]
      else Flush(buf) + [BracketToken(Strip(part[i + 1..j]))] + SegmentTokens(part, j + 1, "")
    else SegmentTokens(part, i + 1, buf + [part[i]])
  }

  /** The tokens of one part; empty parts (from `..`, or a leading or trailing `.`) give none. */
  function PartTokens(part: string): seq<Token> {
    if part == "" then [] else SegmentTokens(part, 0, "")
  }

  function PartsTokens(parts: seq<string>): seq<Token> {
    if parts == [] then [] else PartsTokens(parts[..|parts| - 1]) + PartTokens(parts[|parts| - 1])
  }

  /** `_tokenize(path)`: every leading `$` is dropped, then surrounding whitespace,
      then the rest is split on `.` and each part scanned for brackets. */
  function Tokens(path: string): seq<Token> {
    var raw := Strip(LStripChar(path, '$'));
    if raw == "" then [] else PartsTokens(Split(raw, '.'))
  }

  lemma PartsTokensSnoc(parts: seq<string>, k: nat)
    requires k < |parts|
    ensures PartsTokens(parts[..k + 1]) == PartsTokens(parts[..k]) + PartTokens(parts[k])
  {
    assert parts[..k + 1][..k] == parts[..k];
  }

  /** `_tokenize`, as the loop it is written as. */
  method Tokenize(path: string) returns (tokens: seq<Token>)
    ensures tokens == Tokens(path)
  {
    var raw := Strip(LStripChar(path, '$'));
    if raw == "" {
      return [];
    }
    tokens := [];
    var parts := Split(raw, '.');
    assert Tokens(path) == PartsTokens(parts);
    for k := 0 to |parts|
      invariant tokens == PartsTokens(parts[..k])
    {
      PartsTokensSnoc(parts, k);
      var part := parts[k];
      if part != "" {
        var partTokens := TokenizePart(part);
        tokens := tokens + partTokens;
      }
    }
    assert parts[..|parts|] == parts;
  }

  /** The body of `_tokenize`'s loop for one non-empty part: characters gather
      in `buf` until a `[` flushes it. */
  method TokenizePart(part: string) returns (tokens: seq<Token>)
    ensures tokens == SegmentTokens(part, 0, "")
  {
    tokens := [];
    var buf := "";
    var i := 0;
    while i < |part|
      invariant 0 <= i <= |part|
      invariant SegmentTokens(part, 0, "") == tokens + SegmentTokens(part, i, buf)
    {
      var ch := part[i];
      if ch == '[' {
        ghost var done, pending := tokens, buf;
        tokens := tokens + Flush(buf);
        buf := "";
        var j := Find(part, ']', i + 1);
        if j == -1 {
          buf := buf + part[i..];
          SegmentUnmatched(part, i, done, pending);
          break;
        }
        var idxText := Strip(part[i + 1..j]);
        tokens := tokens + [BracketToken(idxText)];
        SegmentMatched(part, i, j, done, pending);
        i := j + 1;
      } else {
        SegmentChar(part, i, tokens, buf);
        buf := buf + [ch];
        i := i + 1;
      }
    }
    tokens := tokens + Flush(buf);
  }

  lemma SegmentChar(part: string, i: nat, done: seq<Token>, buf: string)
    requires i < |part| && part[i] != '['
    requires SegmentTokens(part, 0, "") == done + SegmentTokens(part, i, buf)
    ensures SegmentTokens(part, 0, "") == done + SegmentTokens(part, i + 1, buf + [part[i]])
  {
  }

  lemma SegmentUnmatched(part: string, i: nat, done: seq<Token>, pending: string)
    requires i < |part| && part[i] == '[' && Find(part, ']', i + 1) == -1
    requires SegmentTokens(part, 0, "") == done + SegmentTokens(part, i, pending)
    ensures SegmentTokens(part, 0, "") == done + Flush(pending) + Flush("" + part[i..])
  {
    assert "" + part[i..] == part[i..];
  }

  lemma SegmentMatched(part: string, i: nat, j: int, done: seq<Token>, pending: string)
    requires i < |part| && part[i] == '[' && j == Find(part, ']', i + 1) && j != -1
    requires SegmentTokens(part, 0, "") == done + SegmentTokens(part, i, pending)
    ensures SegmentTokens(part, 0, "") == done + Flush(pending) + [BracketToken(Strip(part[i + 1..j]))] + SegmentTokens(part, j + 1, "")
  {
  }

  // ---------------------------------------------------------------------------
  // Walking

  /** Python's reading of a sequence index `i` for a sequence of length `n`:
      a negative index counts from the end. */
  function SignedIndex(n: nat, i: int): int {
    if i < 0 then n + i else i
  }

  /** `_get_child(obj, token)`, with `None` standing for the `_MISSING` sentinel. */
  function GetChild(obj: Value, t: Token): (r: Option<Value>)
    ensures obj.Null? ==> r.None?
    ensures (obj.Record? || obj.Dict?) && t.Index? ==> r.None?
    ensures r.Some? && (obj.List? || obj.Tuple?) ==> r.value in obj.items
    ensures r.Some? && obj.Dict? ==> (t.name, r.value) in obj.entries
    ensures r.Some? && obj.Record? ==> (t.name, r.value) in obj.fields
  {
    match obj
    case Null => None
    case Record(_, fs) => if t.Index? then None else Lookup(fs, t.name)
    case Dict(d) => if t.Index? then None else Lookup(d, t.name)
    case List(xs) =>
      if t.Index? && -|xs| <= t.index < |xs| then Some(xs[SignedIndex(|xs|, t.index)]) else None
    case Tuple(xs) =>
      if t.Index? && -|xs| <= t.index < |xs| then Some(xs[SignedIndex(|xs|, t.index)]) else None
    case Str(s) =>
      if t.Index? && -|s| <= t.index < |s| then Some(Str([s[SignedIndex(|s|, t.index)]])) else None
    case _ => None
  }

  /** The value at the end of `ts` from `v`, or `None` at the first step that misses. */
  function Walk(v: Value, ts: seq<Token>): Option<Value>
    decreases |ts|
  {
    if ts == [] then Some(v)
    else match GetChild(v, ts[0])
      case None => None
      case Some(c) => Walk(c, ts[1..])
  }

  lemma WalkStep(v: Value, ts: seq<Token>, k: nat)
    requires k < |ts|
    ensures Walk(v, ts[k..]) == match GetChild(v, ts[k]) case None => None case Some(c) => Walk(c, ts[k + 1..])
  {
    assert ts[k..][1..] == ts[k + 1..];
  }

  /** A one-token path is a single step. */
  lemma WalkOne(v: Value, t: Token)
    ensures Walk(v, [t]) == GetChild(v, t)
  {
    assert [t][1..] == [];
  }

  /** `resolve_path(params, path, default=..., dump_models=...)`; `default` is
      `None` when the caller gave none. A resolved record is returned as its
      field mapping when `dumpModels` is set; the default is returned as given. */
  function Resolve(b: ElementalParams, path: string, default: Option<Value>, dumpModels: bool): (r: Result<Value>)
    ensures r == Failure(ValueError(NotAPath)) <==> !IsPathString(path)
    ensures r.Failure? && r.error.KeyError? <==> IsPathString(path) && default.None? && Walk(BundleValue(b), Tokens(path)).None?
    ensures r.Failure? ==> r.error == ValueError(NotAPath) || r.error == KeyError(NotFound(path))
    ensures r.Success? && dumpModels ==> !r.value.Record? || (default.Some? && r.value == default.value)
    ensures IsPathString(path) ==>
      match Walk(BundleValue(b), Tokens(path))
      case Some(v) => r == Success(if dumpModels && v.Record? then Dump(v) else v)
      case None => default.Some? ==> r == Success(default.value)
  {
    if !IsPathString(path) then Failure(ValueError(NotAPath))
    else match Walk(BundleValue(b), Tokens(path))
      case None => if default.None? then Failure(KeyError(NotFound(path))) else Success(default.value)
      case Some(v) => Success(if dumpModels && v.Record? then Dump(v) else v)
  }

  /** `resolve_path`, as the loop it is written as. */
  method ResolvePath(b: ElementalParams, path: string, default: Option<Value>, dumpModels: bool) returns (r: Result<Value>)
    ensures r == Resolve(b, path, default, dumpModels)
  {
    if !IsPathString(path) {
      return Failure(ValueError(NotAPath));
    }
    ghost var root := BundleValue(b);
    var current := BundleValue(b);
    var tokens := Tokenize(path);
    for k := 0 to |tokens|
      invariant Walk(root, tokens) == Walk(current, tokens[k..])
    {
      WalkStep(current, tokens, k);
      var next := GetChild(current, tokens[k]);
      if next.None? {
        if default.None? {
          return Failure(KeyError(NotFound(path)));
        }
        return Success(default.value);
      }
      current := next.value;
    }
    if dumpModels && current.Record? {
      return Success(Dump(current));
    }
    return Success(current);
  }

  // ---------------------------------------------------------------------------
  // Templates

  /** The default `resolve_template` hands to `resolve_path` under policy
      `onMissing` for the path string `s`: the string itself, `None`, no default
      (so a miss raises), or a `ValueError` for an unknown policy. */
  function MissingDefault(onMissing: string, s: string): (r: Result<Option<Value>>)
    ensures r.Failure? <==> onMissing !in {"keep", "none", "error"}
    ensures r.Failure? ==> r.error == ValueError(BadPolicy)
    ensures r.Success? ==> (r.value.None? <==> onMissing == "error")
  {
    if onMissing == "keep" then Success(Some(Str(s)))
    else if onMissing == "none" then Success(Some(Null))
    else if onMissing == "error" then Success(None)
    else Failure(ValueError(BadPolicy))
  }

  /** `resolve_template(template, params, on_missing=..., dump_models=...)`:
      containers are rebuilt around their rendered items, path strings are
      resolved, every other value is returned as it is. The first error raised
      while rendering, in iteration order, aborts the whole render. */
  function ResolveTemplate(t: Value, b: ElementalParams, onMissing: string, dumpModels: bool): Result<Value>
    decreases t, 1
  {
    match t
    case Dict(d) =>
      (match ResolveEntries(t, d, b, onMissing, dumpModels)
       case Failure(e) => Failure(e)
       case Success(es) => Success(Dict(es)))
    case List(xs) =>
      (match ResolveItems(t, xs, b, onMissing, dumpModels)
       case Failure(e) => Failure(e)
       case Success(ys) => Success(List(ys)))
    case Tuple(xs) =>
      (match ResolveItems(t, xs, b, onMissing, dumpModels)
       case Failure(e) => Failure(e)
       case Success(ys) => Success(Tuple(ys)))
    case Str(s) =>
      if IsPathString(s) then
        match MissingDefault(onMissing, s)
        case Failure(e) => Failure(e)
        case Success(default) => Resolve(b, s, default, dumpModels)
      else Success(t)
    case _ => Success(t)
  }

  function ResolveItems(ghost parent: Value, xs: seq<Value>, b: ElementalParams, onMissing: string, dumpModels: bool): (r: Result<seq<Value>>)
    requires forall i :: 0 <= i < |xs| ==> xs[i] < parent
    ensures r.Success? <==> forall i :: 0 <= i < |xs| ==> ResolveTemplate(xs[i], b, onMissing, dumpModels).Success?
    ensures r.Success? ==> |r.value| == |xs| && forall i :: 0 <= i < |xs| ==> ResolveTemplate(xs[i], b, onMissing, dumpModels) == Success(r.value[i])
    ensures r.Failure? ==>
      exists i :: 0 <= i < |xs| && ResolveTemplate(xs[i], b, onMissing, dumpModels) == Failure(r.error)
        && forall j :: 0 <= j < i ==> ResolveTemplate(xs[j], b, onMissing, dumpModels).Success?
    decreases parent, 0
  {
    var rs := seq(|xs|, i requires 0 <= i < |xs| => ResolveTemplate(xs[i], b, onMissing, dumpModels));
    assert forall i :: 0 <= i < |xs| ==> rs[i] == ResolveTemplate(xs[i], b, onMissing, dumpModels);
    Collect(rs)
  }

  function ResolveEntries(ghost parent: Value, d: Entries, b: ElementalParams, onMissing: string, dumpModels: bool): (r: Result<Entries>)
    requires forall i :: 0 <= i < |d| ==> d[i].1 < parent
    ensures r.Success? <==> forall i :: 0 <= i < |d| ==> ResolveTemplate(d[i].1, b, onMissing, dumpModels).Success?
    ensures r.Success? ==> |r.value| == |d| && forall i :: 0 <= i < |d| ==> r.value[i].0 == d[i].0 && ResolveTemplate(d[i].1, b, onMissing, dumpModels) == Success(r.value[i].1)
    ensures r.Failure? ==>
      exists i :: 0 <= i < |d| && ResolveTemplate(d[i].1, b, onMissing, dumpModels) == Failure(r.error)
        && forall j :: 0 <= j < i ==> ResolveTemplate(d[j].1, b, onMissing, dumpModels).Success?
    decreases parent, 0
  {
    var rs := seq(|d|, i requires 0 <= i < |d| => ResolveTemplate(d[i].1, b, onMissing, dumpModels));
    assert forall i :: 0 <= i < |d| ==> rs[i] == ResolveTemplate(d[i].1, b, onMissing, dumpModels);
    match Collect(rs)
    case Failure(e) => Failure(e)
    case Success(vs) => Success(seq(|d|, i requires 0 <= i < |d| => (d[i].0, vs[i])))
  }

  /** `apply_path_map`: `resolve_template`, then a `TypeError` unless the result is a dict. */
  function ApplyPathMap(pathMap: Value, b: ElementalParams, onMissing: string, dumpModels: bool): (r: Result<Value>)
    ensures r.Success? ==> r.value.Dict?
    ensures r == Failure(TypeError(NotADict)) <==>
      var rendered := ResolveTemplate(pathMap, b, onMissing, dumpModels);
      rendered.Success? && !rendered.value.Dict?
  {
    match ResolveTemplate(pathMap, b, onMissing, dumpModels)
    case Failure(e) =>
      assert e != TypeError(NotADict) by { TemplateErrors(pathMap, b, onMissing, dumpModels); }
      Failure(e)
    case Success(v) => if v.Dict? then Success(v) else Failure(TypeError(NotADict))
  }

  /** Rendering raises only the policy's `ValueError` or a path's `KeyError`. */
  lemma {:induction false} TemplateErrors(t: Value, b: ElementalParams, onMissing: string, dumpModels: bool)
    ensures var r := ResolveTemplate(t, b, onMissing, dumpModels);
      r.Failure? ==> r.error.ValueError? || r.error.KeyError?
    decreases t
  {
    match t
    case Dict(d) =>
      forall i | 0 <= i < |d| ensures var r := ResolveTemplate(d[i].1, b, onMissing, dumpModels); r.Failure? ==> r.error.ValueError? || r.error.KeyError? {
        TemplateErrors(d[i].1, b, onMissing, dumpModels);
      }
    case List(xs) =>
      forall i | 0 <= i < |xs| ensures var r := ResolveTemplate(xs[i], b, onMissing, dumpModels); r.Failure? ==> r.error.ValueError? || r.error.KeyError? {
        TemplateErrors(xs[i], b, onMissing, dumpModels);
      }
    case Tuple(xs) =>
      forall i | 0 <= i < |xs| ensures var r := ResolveTemplate(xs[i], b, onMissing, dumpModels); r.Failure? ==> r.error.ValueError? || r.error.KeyError? {
        TemplateErrors(xs[i], b, onMissing, dumpModels);
      }
    case _ =>
  }

  /** True when some path string of template `t` does not resolve. */
  predicate HasMissingPath(t: Value, b: ElementalParams) {
    match t
    case Str(s) => IsPathString(s) && Walk(BundleValue(b), Tokens(s)).None?
    case List(xs) => exists i :: 0 <= i < |xs| && HasMissingPath(xs[i], b)
    case Tuple(xs) => exists i :: 0 <= i < |xs| && HasMissingPath(xs[i], b)
    case Dict(d) => exists i :: 0 <= i < |d| && HasMissingPath(d[i].1, b)
    case _ => false
  }

  /** True when `s` is a path string of template `t` that does not resolve. */
  predicate MissingPathIn(t: Value, b: ElementalParams, s: string) {
    match t
    case Str(x) => x == s && IsPathString(s) && Walk(BundleValue(b), Tokens(s)).None?
    case List(xs) => exists i :: 0 <= i < |xs| && MissingPathIn(xs[i], b, s)
    case Tuple(xs) => exists i :: 0 <= i < |xs| && MissingPathIn(xs[i], b, s)
    case Dict(d) => exists i :: 0 <= i < |d| && MissingPathIn(d[i].1, b, s)
    case _ => false
  }

  /** A rendered template has the template's shape: the same dict keys in the
      same order, lists and tuples of the same length, and every leaf that is
      not a path string unchanged. */
  lemma {:induction false} TemplateShape(t: Value, b: ElementalParams, onMissing: string, dumpModels: bool)
    ensures var r := ResolveTemplate(t, b, onMissing, dumpModels);
      r.Success? ==> Conforms(t, r.value, IsPathString)
    decreases t
  {
    var r := ResolveTemplate(t, b, onMissing, dumpModels);
    match t
    case Dict(d) =>
      if r.Success? {
        var es := ResolveEntries(t, d, b, onMissing, dumpModels).value;
        forall i | 0 <= i < |d| ensures Conforms(d[i].1, es[i].1, IsPathString) {
          TemplateShape(d[i].1, b, onMissing, dumpModels);
        }
        assert Keys(es) == Keys(d);
      }
    case List(xs) =>
      forall i | 0 <= i < |xs| ensures var ri := ResolveTemplate(xs[i], b, onMissing, dumpModels); ri.Success? ==> Conforms(xs[i], ri.value, IsPathString) {
        TemplateShape(xs[i], b, onMissing, dumpModels);
      }
    case Tuple(xs) =>
      forall i | 0 <= i < |xs| ensures var ri := ResolveTemplate(xs[i], b, onMissing, dumpModels); ri.Success? ==> Conforms(xs[i], ri.value, IsPathString) {
        TemplateShape(xs[i], b, onMissing, dumpModels);
      }
    case _ =>
  }

  /** A template without path strings renders to itself, whatever the policy. */
  lemma {:induction false} TemplateLiterals(t: Value, b: ElementalParams, onMissing: string, dumpModels: bool)
    requires !HasString(t, IsPathString)
    ensures ResolveTemplate(t, b, onMissing, dumpModels) == Success(t)
    decreases t
  {
    match t
    case Dict(d) =>
      forall i | 0 <= i < |d| ensures ResolveTemplate(d[i].1, b, onMissing, dumpModels) == Success(d[i].1) {
        TemplateLiterals(d[i].1, b, onMissing, dumpModels);
      }
      var es := ResolveEntries(t, d, b, onMissing, dumpModels).value;
      assert es == d;
    case List(xs) =>
      forall i | 0 <= i < |xs| ensures ResolveTemplate(xs[i], b, onMissing, dumpModels) == Success(xs[i]) {
        TemplateLiterals(xs[i], b, onMissing, dumpModels);
      }
      assert ResolveItems(t, xs, b, onMissing, dumpModels).value == xs;
    case Tuple(xs) =>
      forall i | 0 <= i < |xs| ensures ResolveTemplate(xs[i], b, onMissing, dumpModels) == Success(xs[i]) {
        TemplateLiterals(xs[i], b, onMissing, dumpModels);
      }
      assert ResolveItems(t, xs, b, onMissing, dumpModels).value == xs;
    case _ =>
  }

  /** Under `none` or `keep` rendering never raises. */
  lemma {:induction false} TemplateTotal(t: Value, b: ElementalParams, onMissing: string, dumpModels: bool)
    requires onMissing == "none" || onMissing == "keep"
    ensures ResolveTemplate(t, b, onMissing, dumpModels).Success?
    decreases t
  {
    match t
    case Dict(d) =>
      forall i | 0 <= i < |d| ensures ResolveTemplate(d[i].1, b, onMissing, dumpModels).Success? {
        TemplateTotal(d[i].1, b, onMissing, dumpModels);
      }
    case List(xs) =>
      forall i | 0 <= i < |xs| ensures ResolveTemplate(xs[i], b, onMissing, dumpModels).Success? {
        TemplateTotal(xs[i], b, onMissing, dumpModels);
      }
    case Tuple(xs) =>
      forall i | 0 <= i < |xs| ensures ResolveTemplate(xs[i], b, onMissing, dumpModels).Success? {
        TemplateTotal(xs[i], b, onMissing, dumpModels);
      }
    case _ =>
  }

  /** An unknown policy raises `ValueError` exactly when the template holds a
      path string: the policy is only looked at when one is met. */
  lemma {:induction false} TemplateBadPolicy(t: Value, b: ElementalParams, onMissing: string, dumpModels: bool)
    requires onMissing !in {"none", "keep", "error"}
    ensures var r := ResolveTemplate(t, b, onMissing, dumpModels);
      && (r.Failure? <==> HasString(t, IsPathString))
      && (r.Failure? ==> r.error == ValueError(BadPolicy))
    decreases t
  {
    match t
    case Dict(d) =>
      forall i | 0 <= i < |d|
        ensures var ri := ResolveTemplate(d[i].1, b, onMissing, dumpModels);
          (ri.Failure? <==> HasString(d[i].1, IsPathString)) && (ri.Failure? ==> ri.error == ValueError(BadPolicy))
      {
        TemplateBadPolicy(d[i].1, b, onMissing, dumpModels);
      }
    case List(xs) =>
      forall i | 0 <= i < |xs|
        ensures var ri := ResolveTemplate(xs[i], b, onMissing, dumpModels);
          (ri.Failure? <==> HasString(xs[i], IsPathString)) && (ri.Failure? ==> ri.error == ValueError(BadPolicy))
      {
        TemplateBadPolicy(xs[i], b, onMissing, dumpModels);
      }
    case Tuple(xs) =>
      forall i | 0 <= i < |xs|
        ensures var ri := ResolveTemplate(xs[i], b, onMissing, dumpModels);
          (ri.Failure? <==> HasString(xs[i], IsPathString)) && (ri.Failure? ==> ri.error == ValueError(BadPolicy))
      {
        TemplateBadPolicy(xs[i], b, onMissing, dumpModels);
      }
    case _ =>
  }

  /** Under `error` rendering raises exactly when some path string of the
      template does not resolve, and what it raises is that path's `KeyError`. */
  lemma {:induction false} TemplateErrorPolicy(t: Value, b: ElementalParams, dumpModels: bool)
    ensures var r := ResolveTemplate(t, b, "error", dumpModels);
      && (r.Failure? <==> HasMissingPath(t, b))
      && (r.Failure? ==> r.error.KeyError?)
      && (r.Failure? ==> exists s :: MissingPathIn(t, b, s) && r.error == KeyError(NotFound(s)))
    decreases t
  {
    TemplateMissingError(t, b, dumpModels);
    match t
    case Dict(d) =>
      forall i | 0 <= i < |d|
        ensures var ri := ResolveTemplate(d[i].1, b, "error", dumpModels);
          (ri.Failure? <==> HasMissingPath(d[i].1, b)) && (ri.Failure? ==> ri.error.KeyError?)
      {
        TemplateErrorPolicy(d[i].1, b, dumpModels);
      }
    case List(xs) =>
      forall i | 0 <= i < |xs|
        ensures var ri := ResolveTemplate(xs[i], b, "error", dumpModels);
          (ri.Failure? <==> HasMissingPath(xs[i], b)) && (ri.Failure? ==> ri.error.KeyError?)
      {
        TemplateErrorPolicy(xs[i], b, dumpModels);
      }
    case Tuple(xs) =>
      forall i | 0 <= i < |xs|
        ensures var ri := ResolveTemplate(xs[i], b, "error", dumpModels);
          (ri.Failure? <==> HasMissingPath(xs[i], b)) && (ri.Failure? ==> ri.error.KeyError?)
      {
        TemplateErrorPolicy(xs[i], b, dumpModels);
      }
    case _ =>
  }

  /** Under `error` what rendering raises is the `KeyError` of one of the
      template's own path strings that does not resolve. */
  lemma {:induction false} TemplateMissingError(t: Value, b: ElementalParams, dumpModels: bool)
    ensures var r := ResolveTemplate(t, b, "error", dumpModels);
      r.Failure? ==> exists s :: MissingPathIn(t, b, s) && r.error == KeyError(NotFound(s))
    decreases t
  {
    var r := ResolveTemplate(t, b, "error", dumpModels);
    match t
    case Dict(d) =>
      if r.Failure? {
        var i :| 0 <= i < |d| && ResolveTemplate(d[i].1, b, "error", dumpModels) == Failure(r.error);
        TemplateMissingError(d[i].1, b, dumpModels);
        var s :| MissingPathIn(d[i].1, b, s) && r.error == KeyError(NotFound(s));
        assert MissingPathIn(t, b, s);
      }
    case List(xs) =>
      if r.Failure? {
        var i :| 0 <= i < |xs| && ResolveTemplate(xs[i], b, "error", dumpModels) == Failure(r.error);
        TemplateMissingError(xs[i], b, dumpModels);
        var s :| MissingPathIn(xs[i], b, s) && r.error == KeyError(NotFound(s));
        assert MissingPathIn(t, b, s);
      }
    case Tuple(xs) =>
      if r.Failure? {
        var i :| 0 <= i < |xs| && ResolveTemplate(xs[i], b, "error", dumpModels) == Failure(r.error);
        TemplateMissingError(xs[i], b, dumpModels);
        var s :| MissingPathIn(xs[i], b, s) && r.error == KeyError(NotFound(s));
        assert MissingPathIn(t, b, s);
      }
    case Str(x) =>
      if r.Failure? {
        assert MissingPathIn(t, b, x);
      }
    case _ =>
  }

  /** What an unresolved path string renders to under each policy. */
  lemma MissingPolicy(s: string, b: ElementalParams, onMissing: string, dumpModels: bool)
    requires IsPathString(s) && Walk(BundleValue(b), Tokens(s)).None?
    ensures var r := ResolveTemplate(Str(s), b, onMissing, dumpModels);
      && (onMissing == "none" ==> r == Success(Null))
      && (onMissing == "keep" ==> r == Success(Str(s)))
      && (onMissing == "error" ==> r == Failure(KeyError(NotFound(s))))
      && (onMissing !in {"none", "keep", "error"} ==> r == Failure(ValueError(BadPolicy)))
  {
  }

  /** A path string that resolves renders to its value under every known policy. */
  lemma FoundPolicy(s: string, b: ElementalParams, onMissing: string, dumpModels: bool, v: Value)
    requires IsPathString(s) && Walk(BundleValue(b), Tokens(s)) == Some(v)
    requires onMissing in {"none", "keep", "error"}
    ensures ResolveTemplate(Str(s), b, onMissing, dumpModels) == Success(if dumpModels && v.Record? then Dump(v) else v)
  {
  }

  /** A dict path map never hits `apply_path_map`'s `TypeError`. */
  lemma ApplyPathMapDict(pathMap: Value, b: ElementalParams, onMissing: string, dumpModels: bool)
    requires pathMap.Dict?
    ensures ApplyPathMap(pathMap, b, onMissing, dumpModels) == ResolveTemplate(pathMap, b, onMissing, dumpModels)
  {
  }
}
