/** The permissive resolver: a path such as `params.items[0].id` (one leading
    `$` allowed) is scanned character by character and resolved as it goes.
    Every step that cannot be taken, and every malformed bracket, makes the
    whole path resolve to `None`; nothing is ever raised. */
module PathMap {
  import opened Text
  import opened Values
  import opened Params
  import opened PathSyntax

  /** `_get_attr_or_key(obj, key)`: a key present in a dict wins, then a record
      field; anything else is a miss (`None` here, a `KeyError` in the source). */
  function GetAttrOrKey(obj: Value, key: string): (r: Option<Value>)
    ensures obj.Dict? && key in Keys(obj.entries) ==> r == Lookup(obj.entries, key)
    ensures obj.Record? ==> r == Lookup(obj.fields, key)
    ensures !obj.Dict? && !obj.Record? ==> r.None?
    ensures obj.Dict? && key !in Keys(obj.entries) ==> r.None?
  {
    if obj.Dict? && key in Keys(obj.entries) then Lookup(obj.entries, key)
    else if obj.Record? then Lookup(obj.fields, key)
    else None
  }

  /** One step of `_resolve_path`: a name goes through `_get_attr_or_key`; an
      index is taken only on a list or tuple, and only when `0 <= idx < len`. */
  function Child(cur: Value, t: Token): (r: Option<Value>)
    ensures t.Index? && r.Some? ==> (cur.List? || cur.Tuple?) && 0 <= t.index < |cur.items| && r.value == cur.items[t.index]
    ensures t.Index? && (cur.List? || cur.Tuple?) && 0 <= t.index < |cur.items| ==> r.Some?
  {
    match t
    case Name(n) => GetAttrOrKey(cur, n)
    case Index(i) => if (cur.List? || cur.Tuple?) && 0 <= i < |cur.items| then Some(cur.items[i]) else None
  }

  function Walk(v: Value, ts: seq<Token>): Option<Value>
    decreases |ts|
  {
    if ts == [] then Some(v)
    else match Child(v, ts[0])
      case None => None
      case Some(c) => Walk(c, ts[1..])
  }

  /** A one-token path is a single step. */
  lemma WalkOne(v: Value, t: Token)
    ensures Walk(v, [t]) == Child(v, t)
  {
    assert [t][1..] == [];
  }

  function Prepend(ts: seq<Token>, rest: Option<seq<Token>>): (r: Option<seq<Token>>)
    ensures r.Some? <==> rest.Some?
    ensures r.Some? ==> r.value == ts + rest.value
  {
    match rest
    case None => None
    case Some(us) => Some(ts + us)
  }

  /** The tokens `_resolve_path` takes from `path` from position `i` on, `token`
      being the pending name, or `None` when it meets an unmatched `[` or a
      bracket whose stripped contents are not an integer literal. */
  function Scan(path: string, i: nat, token: string): Option<seq<Token>>
    decreases |path| - i
  {
    if i >= |path| then Some(Flush(token))
    else if path[i] == '.' then Prepend(Flush(token), Scan(path, i + 1, ""))
    else if path[i] == '[' then
      var j := Find(path, ']', i + 1);
      if j == -1 then None
      else
        var idx := Strip(path[i + 1..j]);
        if IsIntLiteral(idx) then Prepend(Flush(token) + [Index(ParseInt(idx))], Scan(path, j + 1, ""))
        else None
    else Scan(path, i + 1, token + [path[i]])
  }

  /** What `_resolve_path` returns when it is at `cur`, position `i` and pending
      name `token`: the end of the walk, or `None` at the first failure. */
  function ScanWalk(cur: Value, path: string, i: nat, token: string): Value {
    match Scan(path, i, token)
    case None => Null
    case Some(ts) => Walk(cur, ts).GetOr(Null)
  }

  /** `_resolve_path(root, path)`. */
  function PathValue(root: Value, path: string): Value {
    ScanWalk(root, path, 0, "")
  }

  lemma WalkPrepend(cur: Value, ts: seq<Token>, us: seq<Token>)
    ensures Walk(cur, ts + us) == match Walk(cur, ts) case None => None case Some(c) => Walk(c, us)
    decreases |ts|
  {
    if ts == [] {
      assert ts + us == us;
    } else {
      assert (ts + us)[1..] == ts[1..] + us;
      match Child(cur, ts[0])
      case None =>
      case Some(c) => WalkPrepend(c, ts[1..], us);
    }
  }

  /** At a `.`, a `[` or the end the pending name is committed before anything else. */
  lemma ScanFlush(path: string, i: nat, token: string)
    requires i >= |path| || path[i] == '.' || path[i] == '['
    ensures Scan(path, i, token) == Prepend(Flush(token), Scan(path, i, ""))
  {
    if i >= |path| {
      assert Flush(token) + [] == Flush(token);
    } else if path[i] == '.' {
      match Scan(path, i + 1, "")
      case None =>
      case Some(us) => assert [] + us == us;
    } else {
      var j := Find(path, ']', i + 1);
      if j != -1 {
        var idx := Strip(path[i + 1..j]);
        if IsIntLiteral(idx) {
          match Scan(path, j + 1, "")
          case None =>
          case Some(us) =>
            var t := Index(ParseInt(idx));
            assert Flush("") + [t] + us == [t] + us;
            assert Flush(token) + [t] + us == Flush(token) + ([t] + us);
        }
      }
    }
  }

  /** Committing a pending name is one `_get_attr_or_key` step. */
  lemma CommitStep(cur: Value, path: string, i: nat, token: string)
    requires i >= |path| || path[i] == '.' || path[i] == '['
    requires token != ""
    ensures ScanWalk(cur, path, i, token) ==
      match GetAttrOrKey(cur, token) case None => Null case Some(c) => ScanWalk(c, path, i, "")
  {
    ScanFlush(path, i, token);
    match Scan(path, i, "")
    case None =>
    case Some(us) => WalkPrepend(cur, [Name(token)], us);
  }

  lemma DotStep(cur: Value, path: string, i: nat)
    requires i < |path| && path[i] == '.'
    ensures ScanWalk(cur, path, i, "") == ScanWalk(cur, path, i + 1, "")
  {
    match Scan(path, i + 1, "")
    case None =>
    case Some(us) => assert [] + us == us;
  }

  lemma BracketStep(cur: Value, path: string, i: nat, j: int)
    requires i < |path| && path[i] == '[' && j == Find(path, ']', i + 1) && j != -1
    requires IsIntLiteral(Strip(path[i + 1..j]))
    ensures ScanWalk(cur, path, i, "") ==
      match Child(cur, Index(ParseInt(Strip(path[i + 1..j])))) case None => Null case Some(c) => ScanWalk(c, path, j + 1, "")
  {
    var t := Index(ParseInt(Strip(path[i + 1..j])));
    match Scan(path, j + 1, "")
    case None =>
    case Some(us) =>
      assert Flush("") + [t] == [t];
      WalkPrepend(cur, [t], us);
  }

  /** Any other character joins the pending name. */
  lemma CharStep(cur: Value, path: string, i: nat, token: string)
    requires i < |path| && path[i] != '.' && path[i] != '['
    ensures ScanWalk(cur, path, i, token) == ScanWalk(cur, path, i + 1, token + [path[i]])
  {
  }

  /** `_resolve_path`, as the loop it is written as. */
  method ResolveLoop(root: Value, path: string) returns (r: Value)
    ensures r == PathValue(root, path)
  {
    var cur := root;
    var token := "";
    var i := 0;
    while i < |path|
      invariant 0 <= i <= |path|
      invariant PathValue(root, path) == ScanWalk(cur, path, i, token)
    {
      var ch := path[i];
      if ch == '.' {
        if token != "" {
          CommitStep(cur, path, i, token);
          var next := GetAttrOrKey(cur, token);
          if next.None? {
            return Null;
          }
          cur := next.value;
          token := "";
        }
        DotStep(cur, path, i);
        i := i + 1;
        continue;
      }
      if ch == '[' {
        if token != "" {
          CommitStep(cur, path, i, token);
          var next := GetAttrOrKey(cur, token);
          if next.None? {
            return Null;
          }
          cur := next.value;
          token := "";
        }
        var j := Find(path, ']', i + 1);
        if j == -1 {
          return Null;
        }
        var idxStr := Strip(path[i + 1..j]);
        if !IsIntLiteral(idxStr) {
          return Null;
        }
        var idx := ParseInt(idxStr);
        BracketStep(cur, path, i, j);
        if cur.List? || cur.Tuple? {
          if 0 <= idx < |cur.items| {
            assert Child(cur, Index(idx)) == Some(cur.items[idx]);
            cur := cur.items[idx];
          } else {
            return Null;
          }
        } else {
          return Null;
        }
        i := j + 1;
        continue;
      }
      CharStep(cur, path, i, token);
      token := token + [ch];
      i := i + 1;
    }
    if token != "" {
      CommitStep(cur, path, i, token);
      var next := GetAttrOrKey(cur, token);
      if next.None? {
        return Null;
      }
      cur := next.value;
    }
    return cur;
  }

  /** `resolve_path(params, path)`: one leading `$`, if present, is dropped. */
  function ResolvePath(b: ElementalParams, path: string): Value {
    PathValue(BundleValue(b), if path != "" && path[0] == '$' then path[1..] else path)
  }

  /** The strings `render_template` resolves: those whose first character is `$`. */
  predicate StartsWithDollar(s: string) {
    s != "" && s[0] == '$'
  }

  /** `render_template(params, template)`: containers are rebuilt around their
      rendered items, strings starting with `$` are resolved, everything else is
      returned as it is. */
  function RenderTemplate(b: ElementalParams, t: Value): Value
    decreases t, 1
  {
    match t
    case Dict(d) => Dict(RenderEntries(t, b, d))
    case List(xs) => List(RenderItems(t, b, xs))
    case Tuple(xs) => Tuple(RenderItems(t, b, xs))
    case Str(s) => if StartsWithDollar(s) then ResolvePath(b, s) else t
    case _ => t
  }

  function RenderItems(ghost parent: Value, b: ElementalParams, xs: seq<Value>): (r: seq<Value>)
    requires forall i :: 0 <= i < |xs| ==> xs[i] < parent
    ensures |r| == |xs| && forall i :: 0 <= i < |xs| ==> r[i] == RenderTemplate(b, xs[i])
    decreases parent, 0
  {
    seq(|xs|, i requires 0 <= i < |xs| => RenderTemplate(b, xs[i]))
  }

  function RenderEntries(ghost parent: Value, b: ElementalParams, d: Entries): (r: Entries)
    requires forall i :: 0 <= i < |d| ==> d[i].1 < parent
    ensures |r| == |d| && forall i :: 0 <= i < |d| ==> r[i] == (d[i].0, RenderTemplate(b, d[i].1))
    decreases parent, 0
  {
    seq(|d|, i requires 0 <= i < |d| => (d[i].0, RenderTemplate(b, d[i].1)))
  }

  /** A rendered template has the template's shape: the same dict keys in the
      same order, lists and tuples of the same length, every leaf that is not a
      `$` string unchanged. */
  lemma {:induction false} RenderShape(b: ElementalParams, t: Value)
    ensures Conforms(t, RenderTemplate(b, t), StartsWithDollar)
    decreases t
  {
    match t
    case Dict(d) =>
      forall i | 0 <= i < |d| ensures Conforms(d[i].1, RenderTemplate(b, d[i].1), StartsWithDollar) {
        RenderShape(b, d[i].1);
      }
      assert Keys(RenderTemplate(b, t).entries) == Keys(d);
    case List(xs) =>
      forall i | 0 <= i < |xs| ensures Conforms(xs[i], RenderTemplate(b, xs[i]), StartsWithDollar) {
        RenderShape(b, xs[i]);
      }
    case Tuple(xs) =>
      forall i | 0 <= i < |xs| ensures Conforms(xs[i], RenderTemplate(b, xs[i]), StartsWithDollar) {
        RenderShape(b, xs[i]);
      }
    case _ =>
  }

  /** A template without `$` strings renders to itself. */
  lemma {:induction false} RenderLiterals(b: ElementalParams, t: Value)
    requires !HasString(t, StartsWithDollar)
    ensures RenderTemplate(b, t) == t
    decreases t
  {
    match t
    case Dict(d) =>
      forall i | 0 <= i < |d| ensures RenderTemplate(b, d[i].1) == d[i].1 {
        RenderLiterals(b, d[i].1);
      }
      assert RenderEntries(t, b, d) == d;
    case List(xs) =>
      forall i | 0 <= i < |xs| ensures RenderTemplate(b, xs[i]) == xs[i] {
        RenderLiterals(b, xs[i]);
      }
      assert RenderItems(t, b, xs) == xs;
    case Tuple(xs) =>
      forall i | 0 <= i < |xs| ensures RenderTemplate(b, xs[i]) == xs[i] {
        RenderLiterals(b, xs[i]);
      }
      assert RenderItems(t, b, xs) == xs;
    case _ =>
  }
}
