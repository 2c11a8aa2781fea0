/** How the two resolvers relate. Both read the canonical text of a token
    sequence back as that sequence; on such paths every value the permissive
    resolver finds is also what the strict one finds, and the places where
    they part ways (negative and string indices, non-numeric brackets, `$`
    handling, records returned whole or flattened) are stated one by one. */
module Resolvers {
  import opened Text
  import opened Values
  import opened Params
  import opened PathSyntax
  import ParamPaths
  import PathMap

  // ---------------------------------------------------------------------------
  // The permissive scanner reads canonical text back

  /** Characters of a name accumulate in the pending name. */
  lemma {:induction false} ScanName(s: string, a: nat, n: string, tok: string)
    requires a + |n| <= |s| && s[a..a + |n|] == n
    requires forall k :: 0 <= k < |n| ==> n[k] != '.' && n[k] != '['
    ensures PathMap.Scan(s, a, tok) == PathMap.Scan(s, a + |n|, tok + n)
    decreases |n|
  {
    if n != [] {
      SliceFirst(s, a, n);
      ScanName(s, a + 1, n[1..], tok + [n[0]]);
      AppendFirst(tok, n);
    } else {
      AppendEmpty(tok);
    }
  }

  /** A suffix that starts with `x + y` holds `x` and then `y`. */
  lemma SuffixConcat(s: string, a: nat, x: string, y: string)
    requires a <= |s| && s[a..] == x + y
    ensures a + |x| <= |s| && s[a..a + |x|] == x && s[a + |x|..] == y
  {
    assert s[a..a + |x|] == (x + y)[..|x|];
    assert s[a + |x|..] == (x + y)[|x|..];
  }

  lemma PlainTail(ts: seq<Token>)
    requires ts != [] && Plain(ts)
    ensures Plain(ts[1..])
  {
    forall i | 0 <= i < |ts[1..]| && ts[1..][i].Name? ensures PlainName(ts[1..][i].name) {
      assert ts[1..][i] == ts[i + 1];
    }
  }

  /** `s` from position `a` on is the canonical text of `ts`, piece by piece
      (stated through short slices, which keeps the scanning proofs cheap). */
  predicate Spells(s: string, a: nat, ts: seq<Token>)
    decreases |ts|
  {
    if ts == [] then a == |s|
    else
      var p := Piece(ts[0]);
      a + |p| <= |s| && s[a..a + |p|] == p && Spells(s, a + |p|, ts[1..])
  }

  /** The first piece spelled, and where the rest begins. */
  lemma SpellsHead(s: string, a: nat, ts: seq<Token>) returns (e: nat)
    requires ts != [] && Spells(s, a, ts)
    ensures e == a + |Piece(ts[0])| && e <= |s| && s[a..e] == Piece(ts[0]) && Spells(s, e, ts[1..])
  {
    e := a + |Piece(ts[0])|;
  }

  lemma {:induction false} SpellsTail(s: string, a: nat, ts: seq<Token>)
    requires a <= |s| && s[a..] == RenderTail(ts)
    ensures Spells(s, a, ts)
    decreases |ts|
  {
    if ts != [] {
      SuffixConcat(s, a, Piece(ts[0]), RenderTail(ts[1..]));
      SpellsTail(s, a + |Piece(ts[0])|, ts[1..]);
    }
  }

  /** The characters of an index piece `[d]` at `a`, ending before `e`. */
  lemma IndexPieceAt(s: string, a: nat, d: int, e: nat)
    requires e == a + |Piece(Index(d))| && e <= |s| && s[a..e] == Piece(Index(d))
    ensures e == a + 2 + |Decimal(d)|
    ensures s[a] == '[' && s[a + 1..e - 1] == Decimal(d) && s[e - 1] == ']'
  {
    var digits := Decimal(d);
    var p := Piece(Index(d));
    assert p == "[" + digits + "]";
    assert s[a] == p[0];
    assert s[e - 1] == p[|p| - 1];
    forall k | 0 <= k < |digits| ensures s[a + 1 + k] == digits[k] {
      assert s[a + 1 + k] == s[a..e][1 + k] == p[1 + k];
    }
  }

  /** The characters of a name piece `.n` at `a`. */
  lemma NamePieceAt(s: string, a: nat, n: string, e: nat)
    requires e == a + |Piece(Name(n))| && e <= |s| && s[a..e] == Piece(Name(n))
    ensures e == a + 1 + |n| && s[a] == '.' && s[a + 1..e] == n
  {
    var p := Piece(Name(n));
    assert p == "." + n;
    assert s[a] == p[0];
    assert s[a + 1..a + 1 + |n|] == p[1..];
  }

  /** An index piece `[d]` is one index token. */
  lemma ScanIndex(s: string, a: nat, d: int, e: nat, us: seq<Token>)
    requires a + 2 <= e <= |s| && s[a] == '[' && s[a + 1..e - 1] == Decimal(d) && s[e - 1] == ']'
    requires PathMap.Scan(s, e, "") == Some(us)
    ensures PathMap.Scan(s, a, "") == Some([Index(d)] + us)
  {
    CloseBracket(s, a, d, e);
    DigitsIndex(d);
    assert Flush("") + [Index(d)] == [Index(d)];
  }

  lemma ScanDot(s: string, a: nat)
    requires a < |s| && s[a] == '.'
    ensures PathMap.Scan(s, a, "") == PathMap.Scan(s, a + 1, "")
  {
    match PathMap.Scan(s, a + 1, "")
    case None =>
    case Some(us) => assert [] + us == us;
  }

  /** A name piece `.n` leaves `n` pending. */
  lemma ScanDotName(s: string, a: nat, n: string, e: nat)
    requires e == a + 1 + |n| && e <= |s| && s[a] == '.' && s[a + 1..e] == n
    requires PlainName(n)
    ensures PathMap.Scan(s, a, "") == PathMap.Scan(s, e, n)
  {
    ScanName(s, a + 1, n, "");
    assert "" + n == n;
    ScanDot(s, a);
  }

  lemma {:induction false} ScanTail(s: string, a: nat, ts: seq<Token>)
    requires Plain(ts) && Spells(s, a, ts)
    ensures PathMap.Scan(s, a, "") == Some(ts)
    decreases |ts|, 1
  {
    if ts == [] {
      assert Flush("") == [];
    } else if ts[0].Name? {
      ScanTailName(s, a, ts);
    } else {
      ScanTailIndex(s, a, ts);
    }
  }

  lemma {:induction false} ScanTailName(s: string, a: nat, ts: seq<Token>)
    requires Plain(ts) && ts != [] && ts[0].Name? && Spells(s, a, ts)
    ensures PathMap.Scan(s, a, "") == Some(ts)
    decreases |ts|, 0
  {
    var n := ts[0].name;
    var e := a + |Piece(ts[0])|;
    PlainTail(ts);
    ScanAfterName(s, e, n, ts[1..]);
    NamePieceAt(s, a, n, e);
    ScanDotName(s, a, n, e);
    assert [Name(n)] + ts[1..] == ts;
  }

  lemma {:induction false} ScanTailIndex(s: string, a: nat, ts: seq<Token>)
    requires Plain(ts) && ts != [] && ts[0].Index? && Spells(s, a, ts)
    ensures PathMap.Scan(s, a, "") == Some(ts)
    decreases |ts|, 0
  {
    var d := ts[0].index;
    var e := a + |Piece(ts[0])|;
    PlainTail(ts);
    ScanTail(s, e, ts[1..]);
    IndexPieceAt(s, a, d, e);
    ScanIndex(s, a, d, e, ts[1..]);
    assert [Index(d)] + ts[1..] == ts;
  }

  /** A pending name followed by canonical text is committed as the first token. */
  lemma {:induction false} ScanAfterName(s: string, e: nat, n: string, rest: seq<Token>)
    requires n != "" && Plain(rest) && Spells(s, e, rest)
    ensures PathMap.Scan(s, e, n) == Some([Name(n)] + rest)
    decreases |rest|, 2
  {
    if rest != [] {
      assert s[e] == s[e..e + |Piece(rest[0])|][0];
    }
    PathMap.ScanFlush(s, e, n);
    ScanTail(s, e, rest);
  }

  /** `_resolve_path` scans the canonical text of plain tokens back into those tokens. */
  lemma ScanRender(ts: seq<Token>)
    requires Plain(ts)
    ensures PathMap.Scan(Render(ts), 0, "") == Some(ts)
  {
    var s := Render(ts);
    if ts != [] && ts[0].Name? {
      RenderHeadSpells(ts);
      PlainTail(ts);
      ScanNameFirst(s, ts, ts[0].name);
    } else {
      assert s[0..] == s;
      SpellsTail(s, 0, ts);
      ScanTail(s, 0, ts);
    }
  }

  lemma ScanNameFirst(s: string, ts: seq<Token>, n: string)
    requires ts != [] && ts[0] == Name(n) && PlainName(n) && Plain(ts[1..])
    requires |n| <= |s| && s[0..|n|] == n && Spells(s, |n|, ts[1..])
    ensures PathMap.Scan(s, 0, "") == Some(ts)
  {
    ScanName(s, 0, n, "");
    AppendEmpty(n);
    ScanAfterName(s, |n|, n, ts[1..]);
    ConsTail(ts);
  }

  /** The canonical text starts with the bare first name, then spells the rest. */
  lemma RenderHeadSpells(ts: seq<Token>)
    requires ts != [] && ts[0].Name?
    ensures var s, n := Render(ts), ts[0].name;
      |n| <= |s| && s[0..|n|] == n && Spells(s, |n|, ts[1..])
  {
    var s, n := Render(ts), ts[0].name;
    SuffixConcat(s, 0, n, RenderTail(ts[1..]));
    SpellsTail(s, |n|, ts[1..]);
  }

  // ---------------------------------------------------------------------------
  // The strict tokenizer reads canonical text back

  /** Characters of a name accumulate in the pending name. */
  lemma {:induction false} SegName(s: string, a: nat, n: string, buf: string)
    requires a + |n| <= |s| && s[a..a + |n|] == n
    requires forall k :: 0 <= k < |n| ==> n[k] != '['
    ensures ParamPaths.SegmentTokens(s, a, buf) == ParamPaths.SegmentTokens(s, a + |n|, buf + n)
    decreases |n|
  {
    if n != [] {
      SliceFirst(s, a, n);
      SegName(s, a + 1, n[1..], buf + [n[0]]);
      AppendFirst(buf, n);
    } else {
      AppendEmpty(buf);
    }
  }

  /** An index piece `[d]` commits the pending name, then one index token. */
  lemma SegIndex(s: string, a: nat, d: int, e: nat, buf: string)
    requires a + 2 <= e <= |s| && s[a] == '[' && s[a + 1..e - 1] == Decimal(d) && s[e - 1] == ']'
    ensures ParamPaths.SegmentTokens(s, a, buf) == Flush(buf) + [Index(d)] + ParamPaths.SegmentTokens(s, e, "")
  {
    var j := e - 1;
    CloseBracket(s, a, d, e);
    SegBracket(s, a, j, buf);
    DigitsIndex(d);
    assert ParamPaths.BracketToken(Strip(s[a + 1..j])) == Index(d);
  }

  /** A matched `[` commits the pending name, then the bracket's token. */
  lemma SegBracket(s: string, a: nat, j: int, buf: string)
    requires a < |s| && s[a] == '[' && j == Find(s, ']', a + 1) && j != -1
    ensures ParamPaths.SegmentTokens(s, a, buf) == Flush(buf) + [ParamPaths.BracketToken(Strip(s[a + 1..j]))] + ParamPaths.SegmentTokens(s, j + 1, "")
  {
  }

  /** The `]` after the digits of `[d]` is the first one after the `[`. */
  lemma CloseBracket(s: string, a: nat, d: int, e: nat)
    requires a + 2 <= e <= |s| && s[a + 1..e - 1] == Decimal(d) && s[e - 1] == ']'
    ensures Find(s, ']', a + 1) == e - 1
  {
    var digits := Decimal(d);
    forall k | a + 1 <= k < e - 1 ensures s[k] != ']' {
      assert s[k] == digits[k - a - 1];
    }
  }

  /** The digits of `d`, stripped, are read as the index `d` by both resolvers. */
  lemma DigitsIndex(d: int)
    ensures Strip(Decimal(d)) == Decimal(d) && IsIntLiteral(Decimal(d)) && ParseInt(Decimal(d)) == d
    ensures ParamPaths.BracketToken(Strip(Decimal(d))) == Index(d)
  {
    StripNoSpace(Decimal(d));
    ParseDecimal(d);
  }

  /** Regrouping `f`, one token and a committed tail as `f` followed by the whole. */
  lemma Regroup(f: seq<Token>, t: Token, rest: seq<Token>, all: seq<Token>)
    requires all != [] && all[0] == t && all[1..] == rest
    ensures f + [t] + (Flush("") + rest) == f + all
  {
    assert Flush("") + rest == rest;
    assert [t] + rest == all;
  }

  /** Index pieces after the pending name `buf` give that name, then the indices. */
  lemma {:induction false} SegIndices(s: string, a: nat, idxs: seq<Token>, buf: string)
    requires AllIndex(idxs) && Spells(s, a, idxs)
    ensures ParamPaths.SegmentTokens(s, a, buf) == Flush(buf) + idxs
    decreases |idxs|
  {
    if idxs == [] {
      assert Flush(buf) + [] == Flush(buf);
    } else {
      var e := SpellsHead(s, a, idxs);
      AllIndexTail(idxs);
      SegIndices(s, e, idxs[1..], "");
      SegIndexStep(s, a, idxs, e, buf);
    }
  }

  lemma SegIndexStep(s: string, a: nat, idxs: seq<Token>, e: nat, buf: string)
    requires idxs != [] && idxs[0].Index?
    requires e == a + |Piece(idxs[0])| && e <= |s| && s[a..e] == Piece(idxs[0])
    requires ParamPaths.SegmentTokens(s, e, "") == Flush("") + idxs[1..]
    ensures ParamPaths.SegmentTokens(s, a, buf) == Flush(buf) + idxs
  {
    var d := idxs[0].index;
    IndexPieceAt(s, a, d, e);
    SegIndex(s, a, d, e, buf);
    Regroup(Flush(buf), Index(d), idxs[1..], idxs);
  }

  /** A group (an optional name, then only indices) is read back by one part's scan. */
  lemma GroupTokens(g: seq<Token>)
    requires g != [] && Plain(g) && AllIndex(g[1..])
    ensures ParamPaths.PartTokens(Render(g)) == g
  {
    var s := Render(g);
    if g[0].Name? {
      RenderHeadSpells(g);
      GroupFromName(s, g, g[0].name);
    } else {
      assert AllIndex(g);
      assert s[0..] == s;
      SpellsTail(s, 0, g);
      GroupFromIndex(s, g);
    }
  }

  lemma GroupFromName(s: string, g: seq<Token>, n: string)
    requires g != [] && g[0] == Name(n) && PlainName(n) && AllIndex(g[1..])
    requires |n| <= |s| && s[0..|n|] == n && Spells(s, |n|, g[1..])
    ensures ParamPaths.PartTokens(s) == g
  {
    SliceFirst(s, 0, n);
    SegName(s, 0, n, "");
    AppendEmpty(n);
    SegIndices(s, |n|, g[1..], n);
    ConsTail(g);
  }

  lemma GroupFromIndex(s: string, g: seq<Token>)
    requires g != [] && AllIndex(g) && Spells(s, 0, g)
    ensures ParamPaths.PartTokens(s) == g
  {
    var e := SpellsHead(s, 0, g);
    assert |Piece(g[0])| > 0;
    SegIndices(s, 0, g, "");
    assert Flush("") + g == g;
  }

  /** Where the group starting at `ts[0]` ends: the next name from `i` on, or the end. */
  function NextName(ts: seq<Token>, i: nat): (k: nat)
    requires i <= |ts|
    ensures i <= k <= |ts|
    ensures k < |ts| ==> ts[k].Name?
    ensures forall j :: i <= j < k ==> ts[j].Index?
    decreases |ts| - i
  {
    if i == |ts| then i else if ts[i].Name? then i else NextName(ts, i + 1)
  }

  lemma RenderSplitAt(ts: seq<Token>, k: nat)
    requires 1 <= k <= |ts|
    ensures Render(ts) == Render(ts[..k]) + RenderTail(ts[k..])
  {
    if ts[0].Name? {
      RenderSplitName(ts, k, ts[..k], ts[1..k], ts[k..]);
    } else {
      RenderSplitIndex(ts, ts[..k], ts[k..]);
    }
  }

  lemma RenderSplitName(ts: seq<Token>, k: nat, head: seq<Token>, mid: seq<Token>, rest: seq<Token>)
    requires 1 <= k <= |ts| && ts[0].Name? && head == ts[..k] && mid == ts[1..k] && rest == ts[k..]
    ensures Render(ts) == Render(head) + RenderTail(rest)
  {
    var h := ts[0].name;
    SliceAt(ts, 1, k);
    TakeSlice(ts, k);
    RenderName(ts, h, mid + rest);
    RenderName(head, h, mid);
    RenderTailAppend(mid, rest);
    ConcatAssoc(h, RenderTail(mid), RenderTail(rest));
  }

  lemma RenderSplitIndex(ts: seq<Token>, head: seq<Token>, rest: seq<Token>)
    requires ts != [] && !ts[0].Name? && head != [] && head[0] == ts[0] && ts == head + rest
    ensures Render(ts) == Render(head) + RenderTail(rest)
  {
    RenderTailAppend(head, rest);
  }

  lemma GroupNoDot(g: seq<Token>)
    requires g != [] && Plain(g) && AllIndex(g[1..])
    ensures '.' !in Render(g)
  {
    IndexTailNoDot(g[1..]);
    if !g[0].Name? {
      assert AllIndex(g);
      IndexTailNoDot(g);
    }
  }

  lemma {:induction false} PartsTokensCons(x: string, rest: seq<string>)
    ensures ParamPaths.PartsTokens([x] + rest) == ParamPaths.PartTokens(x) + ParamPaths.PartsTokens(rest)
    decreases |rest|
  {
    if rest == [] {
      assert [x] + rest == [x];
      assert ([x] + rest)[..0] == [];
    } else {
      var init, last := rest[..|rest| - 1], rest[|rest| - 1];
      var whole := [x] + rest;
      assert whole[..|whole| - 1] == [x] + init && whole[|whole| - 1] == last;
      PartsTokensCons(x, init);
      var a, b, c := ParamPaths.PartTokens(x), ParamPaths.PartsTokens(init), ParamPaths.PartTokens(last);
      assert ParamPaths.PartsTokens(whole) == a + b + c;
      assert ParamPaths.PartsTokens(rest) == b + c;
      assert a + b + c == a + (b + c);
    }
  }

  lemma TakeDrop<T>(xs: seq<T>, k: nat)
    requires k <= |xs|
    ensures xs[..k] + xs[k..] == xs
  {
  }

  /** Splitting a separator-free head followed by `.` and more text. */
  lemma SplitHead(x: string, r: string)
    requires '.' !in x
    ensures Split(x + ("." + r), '.') == [x] + Split(r, '.')
  {
    SplitAfterPrefix(x, "." + r, '.');
    assert ("." + r)[1..] == r;
    assert Split("." + r, '.') == [""] + Split(r, '.');
    assert x + "" == x;
  }

  lemma SplitWhole(x: string)
    requires '.' !in x
    ensures Split(x, '.') == [x]
  {
    SplitAfterPrefix(x, "", '.');
    assert x + "" == x;
  }

  /** `_tokenize`'s split-and-scan reads the canonical text of plain tokens back. */
  lemma {:induction false} PartsRender(ts: seq<Token>)
    requires ts != [] && Plain(ts)
    ensures ParamPaths.PartsTokens(Split(Render(ts), '.')) == ts
    decreases |ts|
  {
    var k := NextName(ts, 1);
    var head, rest := ts[..k], ts[k..];
    assert Plain(head) && AllIndex(head[1..]) by {
      forall i | 0 <= i < |head| ensures head[i] == ts[i] { }
      forall i | 0 <= i < |head[1..]| ensures head[1..][i] == ts[i + 1] { }
    }
    RenderSplitAt(ts, k);
    GroupNoDot(head);
    GroupTokens(head);
    if k == |ts| {
      assert head == ts && rest == [];
      SplitWhole(Render(head));
      assert [Render(head)][..0] == [];
    } else {
      assert Plain(rest) by {
        forall i | 0 <= i < |rest| ensures rest[i] == ts[k + i] { }
      }
      TailAtName(rest);
      SplitHead(Render(head), Render(rest));
      PartsTokensCons(Render(head), Split(Render(rest), '.'));
      PartsRender(rest);
      TakeDrop(ts, k);
    }
  }

  /** `_tokenize("$" + text)` gives back the tokens whose canonical text it is. */
  lemma TokensRender(ts: seq<Token>)
    requires WellFormed(ts)
    ensures ParamPaths.Tokens("$" + Render(ts)) == ts
  {
    var q := Render(ts);
    assert ("$" + q)[1..] == q;
    RenderNoSpace(ts);
    if ts != [] {
      if ts[0].Name? {
        assert q[0] == ts[0].name[0];
      } else {
        assert q[0] == Piece(ts[0])[0];
      }
      PartsRender(ts);
    }
    assert LStripChar("$" + q, '$') == q;
    StripNoSpace(q);
  }

  // ---------------------------------------------------------------------------
  // Agreement: the permissive resolver never finds what the strict one misses

  /** Every step `_resolve_path` takes, `_get_child` takes too, to the same value. */
  lemma ChildRefines(v: Value, t: Token)
    requires PathMap.Child(v, t).Some?
    ensures ParamPaths.GetChild(v, t) == PathMap.Child(v, t)
  {
  }

  lemma {:induction false} WalkRefines(v: Value, ts: seq<Token>)
    requires PathMap.Walk(v, ts).Some?
    ensures ParamPaths.Walk(v, ts) == PathMap.Walk(v, ts)
    decreases |ts|
  {
    if ts != [] {
      ChildRefines(v, ts[0]);
      WalkRefines(PathMap.Child(v, ts[0]).value, ts[1..]);
    }
  }

  /** The canonical text, `$`-prefixed, is a path expression for `_is_path_expr`. */
  lemma CanonicalIsPath(ts: seq<Token>)
    requires Plain(ts)
    ensures ParamPaths.IsPathString("$" + Render(ts))
  {
    RenderNoSpace(ts);
    NoSpaceAppend("$", Render(ts));
    StripNoSpace("$" + Render(ts));
  }

  /** `_resolve_path` on the canonical text, with or without its `$`, walks the tokens. */
  lemma PermissiveCanonical(b: ElementalParams, ts: seq<Token>)
    requires WellFormed(ts)
    ensures PathMap.ResolvePath(b, "$" + Render(ts)) == PathMap.Walk(BundleValue(b), ts).GetOr(Null)
    ensures PathMap.ResolvePath(b, Render(ts)) == PathMap.Walk(BundleValue(b), ts).GetOr(Null)
  {
    var q := Render(ts);
    assert ("$" + q)[1..] == q;
    ScanRender(ts);
    if ts != [] {
      if ts[0].Name? {
        assert q[0] == ts[0].name[0];
      } else {
        assert q[0] == Piece(ts[0])[0];
      }
    }
  }

  /** The strict resolver on the canonical text walks the tokens. */
  lemma StrictCanonical(b: ElementalParams, ts: seq<Token>, default: Option<Value>, dumpModels: bool)
    requires WellFormed(ts)
    ensures ParamPaths.Resolve(b, "$" + Render(ts), default, dumpModels) ==
      match ParamPaths.Walk(BundleValue(b), ts)
      case None => if default.None? then Failure(KeyError(ParamPaths.NotFound("$" + Render(ts)))) else Success(default.value)
      case Some(v) => Success(if dumpModels && v.Record? then Dump(v) else v)
  {
    CanonicalIsPath(ts);
    TokensRender(ts);
  }

  /** Whatever `_resolve_path` finds on a canonical path (anything but `None`),
      `resolve_path` returns too, flattened when it is a record and
      `dump_models` is set; so the permissive resolver finds nothing the strict
      one misses. */
  lemma PermissiveRefinesStrict(b: ElementalParams, ts: seq<Token>, default: Option<Value>, dumpModels: bool)
    requires WellFormed(ts)
    requires PathMap.ResolvePath(b, "$" + Render(ts)) != Null
    ensures var v := PathMap.ResolvePath(b, "$" + Render(ts));
      ParamPaths.Resolve(b, "$" + Render(ts), default, dumpModels) == Success(if dumpModels && v.Record? then Dump(v) else v)
  {
    PermissiveCanonical(b, ts);
    WalkRefines(BundleValue(b), ts);
    StrictCanonical(b, ts, default, dumpModels);
  }

  // ---------------------------------------------------------------------------
  // Where the two resolvers part ways

  /** A negative index counts from the end for `_get_child`; `_resolve_path` refuses it. */
  lemma NegativeIndex(xs: seq<Value>, i: int)
    requires -|xs| <= i < 0
    ensures ParamPaths.GetChild(List(xs), Index(i)) == Some(xs[|xs| + i])
    ensures ParamPaths.GetChild(Tuple(xs), Index(i)) == Some(xs[|xs| + i])
    ensures PathMap.Child(List(xs), Index(i)).None? && PathMap.Child(Tuple(xs), Index(i)).None?
  {
  }

  /** `_get_child` indexes into a string (a one-character string); `_resolve_path` does not. */
  lemma StringIndex(s: string, i: int)
    requires -|s| <= i < |s|
    ensures ParamPaths.GetChild(Str(s), Index(i)) == Some(Str([s[if i < 0 then |s| + i else i]]))
    ensures PathMap.Child(Str(s), Index(i)).None?
  {
  }

  /** Bracket text that is not an integer literal: `name[key]` or `name[]`. */
  predicate KeyText(k: string) {
    NoSpace(k) && ']' !in k && '.' !in k && !IsIntLiteral(k)
  }

  /** The characters of `n[k]`. */
  lemma KeyPathChars(n: string, k: string)
    requires PlainName(n) && KeyText(k)
    ensures var q := n + "[" + k + "]";
      && q[0..|n|] == n && q[|n|] == '[' && q[|n| + 1..|q| - 1] == k && q[|q| - 1] == ']'
      && Find(q, ']', |n| + 1) == |q| - 1
  {
    var q := n + "[" + k + "]";
    assert q[0..|n|] == n;
    assert q[|n| + 1..|q| - 1] == k;
    forall j | |n| + 1 <= j < |q| - 1 ensures q[j] != ']' {
      assert q[j] == k[j - |n| - 1];
    }
  }

  /** `n[k]` holds no `.` and no whitespace, and starts as `n` does. */
  lemma KeyPathClean(n: string, k: string)
    requires PlainName(n) && KeyText(k)
    ensures var q := n + "[" + k + "]";
      '.' !in q && NoSpace(q) && q[0] == n[0]
  {
    var q := n + "[" + k + "]";
    assert NoSpace(n);
    assert NoSpace("[") && NoSpace("]");
    NoSpaceAppend(n, "[");
    NoSpaceAppend(n + "[", k);
    NoSpaceAppend(n + "[" + k, "]");
    forall j | 0 <= j < |q| ensures q[j] != '.' {
      if j < |n| {
        assert q[j] == n[j];
      } else if |n| < j < |q| - 1 {
        assert q[j] == k[j - |n| - 1];
      }
    }
  }

  /** `_tokenize("$" + q)` for a separator-free, space-free `q` not starting
      with `$` is the scan of `q` as one part. */
  lemma OnePart(q: string)
    requires q != "" && q[0] != '$' && '.' !in q && NoSpace(q)
    ensures ParamPaths.Tokens("$" + q) == ParamPaths.SegmentTokens(q, 0, "")
  {
    assert ("$" + q)[1..] == q;
    assert LStripChar("$" + q, '$') == q;
    StripNoSpace(q);
    SplitWhole(q);
    PartsTokensCons(q, []);
    assert [q] + [] == [q];
  }

  lemma KeySegments(n: string, k: string)
    requires PlainName(n) && KeyText(k)
    ensures ParamPaths.SegmentTokens(n + "[" + k + "]", 0, "") == [Name(n), Name(k)]
  {
    var q := n + "[" + k + "]";
    KeyPathChars(n, k);
    StripNoSpace(k);
    SegName(q, 0, n, "");
    assert "" + n == n;
    assert ParamPaths.SegmentTokens(q, |n|, n) == Flush(n) + [Name(k)] + ParamPaths.SegmentTokens(q, |q|, "");
  }

  lemma KeyScan(n: string, k: string)
    requires PlainName(n) && KeyText(k)
    ensures PathMap.Scan(n + "[" + k + "]", 0, "").None?
  {
    var q := n + "[" + k + "]";
    KeyPathChars(n, k);
    StripNoSpace(k);
    ScanName(q, 0, n, "");
  }

  /** `_tokenize` turns non-numeric bracket text into a key (`$a[x]` is
      `["a", "x"]`, `$a[]` is `["a", ""]`); `_resolve_path` gives up on the
      whole path. */
  lemma KeyBracket(n: string, k: string)
    requires PlainName(n) && n[0] != '$' && KeyText(k)
    ensures ParamPaths.Tokens("$" + n + "[" + k + "]") == [Name(n), Name(k)]
    ensures PathMap.Scan(n + "[" + k + "]", 0, "").None?
  {
    var q := n + "[" + k + "]";
    assert "$" + n + "[" + k + "]" == "$" + q;
    KeyPathClean(n, k);
    OnePart(q);
    KeySegments(n, k);
    KeyScan(n, k);
  }

  /** The characters of `n[k` with no closing bracket. */
  lemma OpenPathChars(n: string, k: string)
    requires PlainName(n) && NoSpace(k) && ']' !in k && '.' !in k
    ensures var q := n + "[" + k;
      && q[0..|n|] == n && q[|n|] == '[' && q[|n|..] == "[" + k
      && Find(q, ']', |n| + 1) == -1
      && '.' !in q && NoSpace(q) && q[0] == n[0]
  {
    var q := n + "[" + k;
    assert q[0..|n|] == n;
    assert q[|n|..] == "[" + k;
    forall j | |n| + 1 <= j < |q| ensures q[j] != ']' {
      assert q[j] == k[j - |n| - 1];
    }
    assert NoSpace(n);
    assert NoSpace("[");
    NoSpaceAppend(n, "[");
    NoSpaceAppend(n + "[", k);
    forall j | 0 <= j < |q| ensures q[j] != '.' {
      if j < |n| {
        assert q[j] == n[j];
      } else if j > |n| {
        assert q[j] == k[j - |n| - 1];
      }
    }
  }

  lemma OpenSegments(n: string, k: string)
    requires PlainName(n) && NoSpace(k) && ']' !in k && '.' !in k
    ensures ParamPaths.SegmentTokens(n + "[" + k, 0, "") == [Name(n), Name("[" + k)]
  {
    var q := n + "[" + k;
    OpenPathChars(n, k);
    SegName(q, 0, n, "");
    assert "" + n == n;
    assert ParamPaths.SegmentTokens(q, |n|, n) == Flush(n) + [Name(q[|n|..])];
  }

  lemma OpenScan(n: string, k: string)
    requires PlainName(n) && NoSpace(k) && ']' !in k && '.' !in k
    ensures PathMap.Scan(n + "[" + k, 0, "").None?
  {
    var q := n + "[" + k;
    OpenPathChars(n, k);
    ScanName(q, 0, n, "");
  }

  /** An unmatched `[`: `_tokenize` commits the name before it and keeps the
      `[` and the rest of the part as one name (`$a[0` is `["a", "[0"]`);
      `_resolve_path` gives up on the whole path. */
  lemma UnmatchedBracket(n: string, k: string)
    requires PlainName(n) && n[0] != '$' && NoSpace(k) && ']' !in k && '.' !in k
    ensures ParamPaths.Tokens("$" + n + "[" + k) == [Name(n), Name("[" + k)]
    ensures PathMap.Scan(n + "[" + k, 0, "").None?
  {
    OpenTokens(n, k);
    OpenScan(n, k);
  }

  lemma OpenTokens(n: string, k: string)
    requires PlainName(n) && n[0] != '$' && NoSpace(k) && ']' !in k && '.' !in k
    ensures ParamPaths.Tokens("$" + n + "[" + k) == [Name(n), Name("[" + k)]
  {
    var q := n + "[" + k;
    assert "$" + n + "[" + k == "$" + q;
    OpenPathChars(n, k);
    OnePart(q);
    OpenSegments(n, k);
  }

  /** A bare `$` names the bundle itself for both resolvers: the strict one has
      no token to walk, the permissive one an empty path. */
  lemma DollarOnly(b: ElementalParams, default: Option<Value>, dumpModels: bool)
    ensures ParamPaths.Tokens("$") == []
    ensures ParamPaths.Resolve(b, "$", default, dumpModels) ==
      Success(if dumpModels then Dump(BundleValue(b)) else BundleValue(b))
    ensures PathMap.ResolvePath(b, "$") == BundleValue(b)
  {
    DollarStrict(b, default, dumpModels);
    DollarPermissive(b);
  }

  lemma DollarStrict(b: ElementalParams, default: Option<Value>, dumpModels: bool)
    ensures ParamPaths.Tokens("$") == []
    ensures ParamPaths.Resolve(b, "$", default, dumpModels) ==
      Success(if dumpModels then Dump(BundleValue(b)) else BundleValue(b))
  {
    assert LStripChar("$", '$') == "";
    assert ParamPaths.Tokens("$") == [];
    assert ParamPaths.IsPathString("$");
    assert ParamPaths.Walk(BundleValue(b), []) == Some(BundleValue(b));
  }

  lemma DollarPermissive(b: ElementalParams)
    ensures PathMap.ResolvePath(b, "$") == BundleValue(b)
  {
    assert "$"[1..] == "";
    assert PathMap.ResolvePath(b, "$") == PathMap.PathValue(BundleValue(b), "");
  }

  /** `_tokenize` drops every leading `$`; `_resolve_path` drops only one. */
  lemma ExtraDollar(p: string)
    ensures ParamPaths.Tokens("$" + p) == ParamPaths.Tokens(p)
  {
    assert ("$" + p)[1..] == p;
  }

  /** The tokens with a `$` put before the first name, and their canonical text. */
  lemma DollarFirst(ts: seq<Token>)
    requires WellFormed(ts) && ts != [] && ts[0].Name?
    ensures var us := [Name("$" + ts[0].name)] + ts[1..];
      Plain(us) && Render(us) == "$" + Render(ts)
  {
    var n := ts[0].name;
    var us := [Name("$" + n)] + ts[1..];
    DollarPlain(ts);
    var tail := RenderTail(ts[1..]);
    assert us[1..] == ts[1..];
    assert Render(us) == ("$" + n) + tail;
    assert Render(ts) == n + tail;
    ConcatAssoc("$", n, tail);
  }

  /** Putting a `$` before the first name keeps the tokens plain. */
  lemma DollarPlain(ts: seq<Token>)
    requires WellFormed(ts) && ts != [] && ts[0].Name?
    ensures Plain([Name("$" + ts[0].name)] + ts[1..])
  {
    var us := [Name("$" + ts[0].name)] + ts[1..];
    forall i | 0 <= i < |us| && us[i].Name? ensures PlainName(us[i].name) {
      if i > 0 {
        assert us[i] == ts[i];
      }
    }
  }

  /** No field of the bundle is named with a leading `$`. */
  lemma NoDollarField(b: ElementalParams, n: string)
    ensures PathMap.Child(BundleValue(b), Name("$" + n)).None?
    ensures ParamPaths.GetChild(BundleValue(b), Name("$" + n)).None?
  {
    var root := BundleValue(b);
    var key := "$" + n;
    assert key[0] == '$';
    assert key !in Keys(root.fields) by {
      var ks := Keys(root.fields);
      assert ks == ["params", "savepoint", "process", "environment", "meta"];
      forall i | 0 <= i < |ks| ensures ks[i] != key {
        assert ks[i][0] != '$';
      }
    }
  }

  /** So `$$name...` is the strict path `$name...`, while `_resolve_path` looks
      for a bundle field called `$name` and finds nothing. */
  lemma DoubleDollar(b: ElementalParams, ts: seq<Token>)
    requires WellFormed(ts) && ts != [] && ts[0].Name?
    ensures ParamPaths.Tokens("$$" + Render(ts)) == ts
    ensures PathMap.ResolvePath(b, "$$" + Render(ts)) == Null
  {
    var q := Render(ts);
    var us := [Name("$" + ts[0].name)] + ts[1..];
    assert "$$" + q == "$" + ("$" + q);
    ExtraDollar("$" + q);
    TokensRender(ts);
    DollarFirst(ts);
    ScanRender(us);
    assert ("$$" + q)[1..] == "$" + q;
    NoDollarField(b, ts[0].name);
  }

  /** Whitespace before the `$` survives `lstrip("$")` and goes with `strip()`. */
  lemma PaddedText(q: string)
    requires NoSpace("$" + q)
    ensures LStripChar(" $" + q, '$') == " $" + q
    ensures Strip(" $" + q) == "$" + q
  {
    assert " $" + q == " " + ("$" + q);
    assert (" " + ("$" + q))[1..] == "$" + q;
    assert IsSpace(' ');
    assert StripLeft(" $" + q) == StripLeft("$" + q);
    StripNoSpace("$" + q);
  }

  /** A path padded with whitespace before its `$` passes `_is_path_expr` (which
      strips first), but `_tokenize` strips the `$` before the whitespace, so
      the `$` stays on the first name and the path never resolves: without a
      default it raises `KeyError`. */
  lemma PaddedPath(b: ElementalParams, ts: seq<Token>, dumpModels: bool)
    requires WellFormed(ts) && ts != [] && ts[0].Name?
    ensures ParamPaths.IsPathString(" $" + Render(ts))
    ensures ParamPaths.Tokens(" $" + Render(ts)) == [Name("$" + ts[0].name)] + ts[1..]
    ensures ParamPaths.Resolve(b, " $" + Render(ts), None, dumpModels) == Failure(KeyError(ParamPaths.NotFound(" $" + Render(ts))))
  {
    var q := Render(ts);
    var us := [Name("$" + ts[0].name)] + ts[1..];
    DollarFirst(ts);
    RenderNoSpace(us);
    PaddedText(q);
    PartsRender(us);
    NoDollarField(b, ts[0].name);
  }

  /** `$environment` is the canonical text of one name token. */
  lemma EnvironmentPath()
    ensures WellFormed([Name("environment")]) && "$" + Render([Name("environment")]) == "$environment"
  {
    assert Render([Name("environment")]) == "environment" + RenderTail([]);
  }

  /** Both walks of `environment` from the bundle reach the environment record
      (one lemma per resolver keeps each proof small). */
  lemma EnvironmentPermissiveWalk(b: ElementalParams)
    requires b.environment.Some?
    ensures PathMap.Walk(BundleValue(b), [Name("environment")]) == Some(EnvironmentValue(b.environment.value))
  {
    BundleEnvironment(b);
    PathMap.WalkOne(BundleValue(b), Name("environment"));
  }

  lemma EnvironmentStrictWalk(b: ElementalParams)
    requires b.environment.Some?
    ensures ParamPaths.Walk(BundleValue(b), [Name("environment")]) == Some(EnvironmentValue(b.environment.value))
  {
    BundleEnvironment(b);
    ParamPaths.WalkOne(BundleValue(b), Name("environment"));
  }

  /** The flattened environment is a dict whose `name` is the environment's name. */
  lemma EnvironmentDump(e: Environment)
    ensures var d := Dump(EnvironmentValue(e));
      d.Dict? && Lookup(d.entries, "name") == Some(Str(e.name))
  {
    var d := Dump(EnvironmentValue(e));
    assert d.entries[0] == ("name", Str(e.name));
  }

  /** A record the path reaches is returned whole by `_resolve_path`, and as its
      field mapping by `resolve_path` with `dump_models` (its default): for
      `$environment`, a dict whose `name` is the environment's name. */
  lemma EnvironmentFlattened(b: ElementalParams, default: Option<Value>)
    requires b.environment.Some?
    ensures PathMap.ResolvePath(b, "$environment") == EnvironmentValue(b.environment.value)
    ensures ParamPaths.Resolve(b, "$environment", default, false) == Success(EnvironmentValue(b.environment.value))
    ensures ParamPaths.Resolve(b, "$environment", default, true) == Success(Dump(EnvironmentValue(b.environment.value)))
    ensures var d := Dump(EnvironmentValue(b.environment.value));
      d.Dict? && Lookup(d.entries, "name") == Some(Str(b.environment.value.name))
  {
    var ts := [Name("environment")];
    EnvironmentPath();
    EnvironmentPermissiveWalk(b);
    EnvironmentStrictWalk(b);
    PermissiveCanonical(b, ts);
    StrictCanonical(b, ts, default, false);
    StrictCanonical(b, ts, default, true);
    EnvironmentDump(b.environment.value);
  }
}
