/** The pure steps of the scaffolding script: the two name-casing helpers
    `to_snake` and `to_pascal`, the names and file names derived from `--name`,
    and the merge of the new function's entry into the configuration mapping. */
module Scaffold {
  import opened Text
  import opened Values
  import opened Base

  /** `s` with every character satisfying `drop` removed. */
  function Remove(s: string, drop: char -> bool): (r: string)
    ensures |r| <= |s|
    ensures forall i :: 0 <= i < |r| ==> !drop(r[i])
  {
    if s == [] then ""
    else (if drop(s[0]) then "" else [s[0]]) + Remove(s[1..], drop)
  }

  lemma {:induction false} RemoveAppend(a: string, b: string, drop: char -> bool)
    ensures Remove(a + b, drop) == Remove(a, drop) + Remove(b, drop)
  {
    if a == [] {
      assert a + b == b;
    } else {
      assert (a + b)[1..] == a[1..] + b;
      RemoveAppend(a[1..], b, drop);
      var h := if drop(a[0]) then "" else [a[0]];
      ConcatAssoc(h, Remove(a[1..], drop), Remove(b, drop));
    }
  }

  lemma RemoveAt(s: string, j: nat, drop: char -> bool)
    requires j <= |s|
    ensures Remove(s, drop) == Remove(s[..j], drop) + Remove(s[j..], drop)
  {
    SliceJoin(s, j);
    RemoveAppend(s[..j], s[j..], drop);
  }

  lemma RemoveCons(c: char, s: string, drop: char -> bool)
    ensures Remove([c] + s, drop) == (if drop(c) then "" else [c]) + Remove(s, drop)
  {
    assert ([c] + s)[1..] == s;
  }

  /** Nothing to remove: `s` comes back unchanged. */
  lemma {:induction false} RemoveNone(s: string, drop: char -> bool)
    requires forall i :: 0 <= i < |s| ==> !drop(s[i])
    ensures Remove(s, drop) == s
  {
    if s != [] {
      RemoveNone(s[1..], drop);
    }
  }

  /** Everything removed: nothing is left. */
  lemma {:induction false} RemoveAll(s: string, drop: char -> bool)
    requires forall i :: 0 <= i < |s| ==> drop(s[i])
    ensures Remove(s, drop) == ""
  {
    if s != [] {
      RemoveAll(s[1..], drop);
    }
  }

  predicate IsUnderscore(c: char) { c == '_' }

  predicate NoUpper(s: string) {
    forall i :: 0 <= i < |s| ==> !IsUpper(s[i])
  }

  lemma LowerCons(c: char, s: string)
    ensures LowerStr([c] + s) == [Lower(c)] + LowerStr(s)
  {
  }

  lemma LowerAppend(a: string, b: string)
    ensures LowerStr(a + b) == LowerStr(a) + LowerStr(b)
  {
  }

  /** Lower-casing neither makes nor removes an underscore. */
  lemma {:induction false} LowerRemoveUnderscores(s: string)
    ensures Remove(LowerStr(s), IsUnderscore) == LowerStr(Remove(s, IsUnderscore))
  {
    if s != [] {
      assert s == [s[0]] + s[1..];
      LowerCons(s[0], s[1..]);
      RemoveCons(Lower(s[0]), LowerStr(s[1..]), IsUnderscore);
      LowerRemoveUnderscores(s[1..]);
      if !IsUnderscore(s[0]) {
        LowerCons(s[0], Remove(s[1..], IsUnderscore));
      }
    }
  }

  lemma LowerNoUpper(s: string)
    requires NoUpper(s)
    ensures LowerStr(s) == s
  {
  }

  // ---------------------------------------------------------------- to_snake

  /** The length of the run of lowercase ASCII letters `s` starts with. */
  function LowerRun(s: string): (n: nat)
    ensures n <= |s| && (n == |s| || !IsLower(s[n]))
    ensures forall i :: 0 <= i < n ==> IsLower(s[i])
  {
    if s != [] && IsLower(s[0]) then 1 + LowerRun(s[1..]) else 0
  }

  /** `re.sub("(.)([A-Z][a-z]+)", r"\1_\2", s)`: scanning from the left, a
      character other than a newline followed by a capital and a (greedy) run of
      lowercase letters gets an underscore after it; the scan resumes after the
      run. */
  function CamelSplit(s: string): (r: string)
    ensures |r| >= |s|
    ensures s != [] ==> r != [] && r[0] == s[0]
    decreases |s|
  {
    if |s| >= 3 && s[0] != '\n' && IsUpper(s[1]) && IsLower(s[2]) then
      var n := 2 + LowerRun(s[2..]);
      [s[0], '_'] + s[1..n] + CamelSplit(s[n..])
    else if s == [] then ""
    else [s[0]] + CamelSplit(s[1..])
  }

  /** `re.sub("([a-z0-9])([A-Z])", r"\1_\2", s)`: a lowercase letter or digit
      followed by a capital gets an underscore between them; the scan resumes
      after the capital. */
  function HumpSplit(s: string): (r: string)
    ensures |r| >= |s|
    ensures s != [] ==> r != [] && r[0] == s[0]
    decreases |s|
  {
    if |s| >= 2 && (IsLower(s[0]) || IsDigit(s[0])) && IsUpper(s[1]) then
      [s[0], '_', s[1]] + HumpSplit(s[2..])
    else if s == [] then ""
    else [s[0]] + HumpSplit(s[1..])
  }

  /** `to_snake`: both substitutions, then `lower()`. */
  function ToSnake(name: string): (r: string)
    ensures NoUpper(r)
    ensures name != [] ==> r != [] && r[0] == Lower(name[0])
  {
    LowerStr(HumpSplit(CamelSplit(name)))
  }

  /** The first substitution only inserts underscores. */
  lemma {:induction false} CamelSplitInserts(s: string)
    ensures Remove(CamelSplit(s), IsUnderscore) == Remove(s, IsUnderscore)
    decreases |s|
  {
    if |s| >= 3 && s[0] != '\n' && IsUpper(s[1]) && IsLower(s[2]) {
      var n := 2 + LowerRun(s[2..]);
      CamelSplitInserts(s[n..]);
      InsertStep(s, n, CamelSplit(s[n..]));
    } else if s != [] {
      CamelSplitInserts(s[1..]);
      RemoveCons(s[0], CamelSplit(s[1..]), IsUnderscore);
      RemoveCons(s[0], s[1..], IsUnderscore);
      assert [s[0]] + s[1..] == s;
    }
  }

  /** One match of either substitution (an underscore after the first character),
      with the rest already known to only insert underscores. */
  lemma InsertStep(s: string, n: nat, rest: string)
    requires 2 <= n <= |s|
    requires Remove(rest, IsUnderscore) == Remove(s[n..], IsUnderscore)
    ensures Remove([s[0], '_'] + s[1..n] + rest, IsUnderscore) == Remove(s, IsUnderscore)
  {
    RemoveAppend([s[0], '_'] + s[1..n], rest, IsUnderscore);
    RemoveAppend([s[0], '_'], s[1..n], IsUnderscore);
    UnderscoreAfter(s[0]);
    RemoveAppend([s[0]], s[1..n], IsUnderscore);
    RemoveAppend([s[0]] + s[1..n], s[n..], IsUnderscore);
    assert [s[0]] + s[1..n] + s[n..] == s;
  }

  lemma UnderscoreAfter(c: char)
    ensures Remove([c, '_'], IsUnderscore) == Remove([c], IsUnderscore)
  {
    RemoveAppend([c], ['_'], IsUnderscore);
    assert [c] + ['_'] == [c, '_'];
    RemoveCons('_', [], IsUnderscore);
    AppendEmpty(Remove([c], IsUnderscore));
  }

  /** The second substitution only inserts underscores. */
  lemma {:induction false} HumpSplitInserts(s: string)
    ensures Remove(HumpSplit(s), IsUnderscore) == Remove(s, IsUnderscore)
    decreases |s|
  {
    if |s| >= 2 && (IsLower(s[0]) || IsDigit(s[0])) && IsUpper(s[1]) {
      HumpSplitInserts(s[2..]);
      InsertStep(s, 2, HumpSplit(s[2..]));
      assert [s[0], '_'] + s[1..2] == [s[0], '_', s[1]];
    } else if s != [] {
      HumpSplitInserts(s[1..]);
      RemoveCons(s[0], HumpSplit(s[1..]), IsUnderscore);
      RemoveCons(s[0], s[1..], IsUnderscore);
      assert [s[0]] + s[1..] == s;
    }
  }

  /** `to_snake` only inserts underscores and lower-cases: without its
      underscores, the output is the lower-cased input without its underscores. */
  lemma ToSnakeLetters(name: string)
    ensures Remove(ToSnake(name), IsUnderscore) == Remove(LowerStr(name), IsUnderscore)
  {
    var h := HumpSplit(CamelSplit(name));
    CamelSplitInserts(name);
    HumpSplitInserts(CamelSplit(name));
    LowerRemoveUnderscores(h);
    LowerRemoveUnderscores(name);
  }

  /** Both patterns need a capital, so a name without one passes unchanged. */
  lemma {:induction false} CamelSplitNoUpper(s: string)
    requires NoUpper(s)
    ensures CamelSplit(s) == s
    decreases |s|
  {
    if s != [] {
      CamelSplitNoUpper(s[1..]);
      assert [s[0]] + s[1..] == s;
    }
  }

  lemma {:induction false} HumpSplitNoUpper(s: string)
    requires NoUpper(s)
    ensures HumpSplit(s) == s
    decreases |s|
  {
    if s != [] {
      HumpSplitNoUpper(s[1..]);
      assert [s[0]] + s[1..] == s;
    }
  }

  /** A name without capitals is already snake case. */
  lemma ToSnakeNoUpper(name: string)
    requires NoUpper(name)
    ensures ToSnake(name) == name
  {
    CamelSplitNoUpper(name);
    HumpSplitNoUpper(name);
    LowerNoUpper(name);
  }

  /** Converting twice is converting once. */
  lemma ToSnakeIdempotent(name: string)
    ensures ToSnake(ToSnake(name)) == ToSnake(name)
  {
    ToSnakeNoUpper(ToSnake(name));
  }

  /** The module and file names derived from `--name` (`{module}.py` under the
      examples package, `test_{module}.py` under the tests). */
  function ModuleName(name: string): string { ToSnake(name) }

  function ModuleFile(name: string): (f: string)
    ensures f == ModuleName(name) + ".py"
  {
    ModuleName(name) + ".py"
  }

  function TestFile(name: string): (f: string)
    ensures f == "test_" + ModuleName(name) + ".py"
  {
    "test_" + ModuleName(name) + ".py"
  }

  /** `--name Sum` gives the module `sum`, the files `sum.py` and `test_sum.py`. */
  lemma SumNames()
    ensures ModuleName("Sum") == "sum"
    ensures ModuleFile("Sum") == "sum.py" && TestFile("Sum") == "test_sum.py"
  {
    assert CamelSplit("Sum") == "Sum" by {
      assert CamelSplit("m") == "m";
      assert CamelSplit("um") == "um";
    }
    assert HumpSplit("Sum") == "Sum" by {
      assert HumpSplit("m") == "m";
      assert HumpSplit("um") == "um";
    }
  }

  predicate AllLower(s: string) {
    forall i :: 0 <= i < |s| ==> IsLower(s[i])
  }

  /** Positions where the first pattern cannot start are copied through. */
  lemma {:induction false} CamelSkip(p: string, t: string)
    requires forall i :: 1 <= i < |p| ==> !IsUpper(p[i])
    requires t == [] || !IsUpper(t[0])
    ensures CamelSplit(p + t) == p + CamelSplit(t)
  {
    if p == [] {
      assert p + t == t;
    } else {
      var s := p + t;
      assert s[1..] == p[1..] + t;
      CamelSkip(p[1..], t);
      ConcatAssoc([p[0]], p[1..], CamelSplit(t));
      assert [p[0]] + p[1..] == p;
    }
  }

  /** Without a lowercase letter or digit before a capital the second pattern never matches. */
  lemma {:induction false} HumpNone(s: string)
    requires forall i :: 0 <= i < |s| - 1 ==> !((IsLower(s[i]) || IsDigit(s[i])) && IsUpper(s[i + 1]))
    ensures HumpSplit(s) == s
  {
    if s != [] {
      HumpNone(s[1..]);
      assert [s[0]] + s[1..] == s;
    }
  }

  /** A capital and its lowercase run, after the last letter `c` of the previous word. */
  lemma CamelBoundary(c: char, v: char, l2: string)
    requires IsLower(c) && IsUpper(v) && l2 != [] && AllLower(l2)
    ensures CamelSplit([c, v] + l2) == [c, '_', v] + l2
  {
    var t := [c, v] + l2;
    assert t[2..] == l2;
    var n := 2 + LowerRun(l2);
    assert n == |t|;
    assert t[n..] == [];
    assert t[1..n] == [v] + l2;
  }

  /** `[u] + l1 + [v] + l2` cut before the last letter of `l1`, and the same
      with an underscore put in before `v`. */
  lemma CamelCut(u: char, l1: string, v: char, l2: string)
    requires l1 != []
    ensures var p := [u] + l1[..|l1| - 1];
      && [u] + l1 + [v] + l2 == p + ([l1[|l1| - 1], v] + l2)
      && p + ([l1[|l1| - 1], '_', v] + l2) == [u] + l1 + ['_', v] + l2
  {
    var p := [u] + l1[..|l1| - 1];
    assert [u] + l1 == p + [l1[|l1| - 1]];
  }

  /** The first substitution on two capitalised words inserts one underscore. */
  lemma CamelTwo(u: char, l1: string, v: char, l2: string)
    requires IsUpper(v) && l1 != [] && l2 != [] && AllLower(l1) && AllLower(l2)
    ensures CamelSplit([u] + l1 + [v] + l2) == [u] + l1 + ['_', v] + l2
  {
    var m := |l1|;
    var p, t := [u] + l1[..m - 1], [l1[m - 1], v] + l2;
    CamelCut(u, l1, v, l2);
    forall i | 1 <= i < |p| ensures !IsUpper(p[i]) {
      assert p[i] == l1[i - 1];
    }
    CamelSkip(p, t);
    CamelBoundary(l1[m - 1], v, l2);
  }

  /** The second substitution finds nothing: no capital follows a lowercase letter or digit. */
  lemma HumpTwo(u: char, l1: string, v: char, l2: string)
    requires AllLower(l1) && AllLower(l2) && IsUpper(v)
    ensures var c := [u] + l1 + ['_', v] + l2; HumpSplit(c) == c
  {
    var c := [u] + l1 + ['_', v] + l2;
    forall i | 0 <= i < |c| - 1 ensures !((IsLower(c[i]) || IsDigit(c[i])) && IsUpper(c[i + 1])) {
      if i + 1 <= |l1| {
        assert c[i + 1] == l1[i];
      } else if i + 1 == |l1| + 1 {
        assert c[i + 1] == '_';
      } else if i + 1 == |l1| + 2 {
        assert c[i] == '_';
      } else {
        assert c[i + 1] == l2[i + 1 - |l1| - 3];
      }
    }
    HumpNone(c);
  }

  /** Two capitalised words: the second is split off with an underscore and both
      are lower-cased (`SumTwo` gives `sum_two`). */
  lemma TwoWords(u: char, l1: string, v: char, l2: string)
    requires IsUpper(u) && IsUpper(v) && l1 != [] && l2 != [] && AllLower(l1) && AllLower(l2)
    ensures ToSnake([u] + l1 + [v] + l2) == [Lower(u)] + l1 + ['_', Lower(v)] + l2
  {
    CamelTwo(u, l1, v, l2);
    HumpTwo(u, l1, v, l2);
    LowerWords(u, l1, v, l2);
  }

  lemma LowerWords(u: char, l1: string, v: char, l2: string)
    requires AllLower(l1) && AllLower(l2)
    ensures LowerStr([u] + l1 + ['_', v] + l2) == [Lower(u)] + l1 + ['_', Lower(v)] + l2
  {
    var c := [u] + l1 + ['_', v] + l2;
    var d := [Lower(u)] + l1 + ['_', Lower(v)] + l2;
    forall i | 0 <= i < |c| ensures LowerStr(c)[i] == d[i] {
      if 1 <= i <= |l1| {
        assert c[i] == l1[i - 1] && d[i] == l1[i - 1];
      } else if i > |l1| + 2 {
        assert c[i] == l2[i - |l1| - 3] && d[i] == l2[i - |l1| - 3];
      }
    }
  }

  // --------------------------------------------------------------- to_pascal

  /** The separators of `to_pascal`'s pattern `[_\-\s]+`. */
  predicate IsSep(c: char) { c == '_' || c == '-' || IsSpace(c) }

  predicate NoSep(s: string) {
    forall i :: 0 <= i < |s| ==> !IsSep(s[i])
  }

  /** The length of the separator-free run `s` starts with. */
  function WordLen(s: string): (n: nat)
    ensures n <= |s| && (n == |s| || IsSep(s[n]))
    ensures forall i :: 0 <= i < n ==> !IsSep(s[i])
  {
    if s != [] && !IsSep(s[0]) then 1 + WordLen(s[1..]) else 0
  }

  /** The length of the run of separators `s` starts with. */
  function SepRun(s: string): (n: nat)
    ensures n <= |s| && (n == |s| || !IsSep(s[n]))
    ensures forall i :: 0 <= i < n ==> IsSep(s[i])
    ensures s != [] && IsSep(s[0]) ==> n >= 1
  {
    if s != [] && IsSep(s[0]) then 1 + SepRun(s[1..]) else 0
  }

  /** `re.split(r"[_\-\s]+", s)`: the pieces between maximal runs of separators,
      with an empty first (last) piece when `s` starts (ends) with separators. */
  function SepSplit(s: string): (parts: seq<string>)
    ensures |parts| >= 1
    ensures forall k :: 0 <= k < |parts| ==> NoSep(parts[k])
    decreases |s|
  {
    var w := WordLen(s);
    if w == |s| then [s]
    else
      var j := w + SepRun(s[w..]);
      [s[..w]] + SepSplit(s[j..])
  }

  function Flatten(parts: seq<string>): string {
    if parts == [] then "" else parts[0] + Flatten(parts[1..])
  }

  /** `str.capitalize()` on ASCII: the first character upper-cased, the rest lower-cased. */
  function Capitalize(p: string): (r: string)
    ensures |r| == |p|
    ensures NoSep(p) ==> NoSep(r)
    ensures p != [] ==> !IsLower(r[0])
    ensures p != [] ==> r[0] == Upper(p[0]) && forall i :: 1 <= i < |p| ==> r[i] == Lower(p[i])
  {
    if p == [] then "" else [Upper(p[0])] + LowerStr(p[1..])
  }

  /** `"".join(p.capitalize() for p in parts if p)`. */
  function Pascal(parts: seq<string>): (r: string)
    requires forall k :: 0 <= k < |parts| ==> NoSep(parts[k])
    ensures NoSep(r)
  {
    if parts == [] then ""
    else
      var head := if parts[0] != "" then Capitalize(parts[0]) else "";
      NoSepAppend(head, Pascal(parts[1..]));
      head + Pascal(parts[1..])
  }

  lemma NoSepAppend(a: string, b: string)
    requires NoSep(a) && NoSep(b)
    ensures NoSep(a + b)
  {
    forall i | 0 <= i < |a + b| ensures !IsSep((a + b)[i]) {
      if i < |a| { assert (a + b)[i] == a[i]; } else { assert (a + b)[i] == b[i - |a|]; }
    }
  }

  /** `to_pascal`: strip, split at separator runs, capitalise the non-empty parts
      and join them. The result holds no separator. */
  function ToPascal(name: string): (r: string)
    ensures NoSep(r)
  {
    Pascal(SepSplit(Strip(name)))
  }

  /** Stripping only removes whitespace, which the split drops anyway. */
  lemma {:induction false} RemoveStripLeft(s: string)
    ensures Remove(StripLeft(s), IsSep) == Remove(s, IsSep)
  {
    if s != [] && IsSpace(s[0]) {
      RemoveStripLeft(s[1..]);
      RemoveCons(s[0], s[1..], IsSep);
      assert [s[0]] + s[1..] == s;
      AppendEmpty(Remove(s[1..], IsSep));
    }
  }

  lemma {:induction false} RemoveStripRight(s: string)
    ensures Remove(StripRight(s), IsSep) == Remove(s, IsSep)
  {
    if s != [] && IsSpace(s[|s| - 1]) {
      var t := s[..|s| - 1];
      RemoveStripRight(t);
      assert t + [s[|s| - 1]] == s;
      RemoveAppend(t, [s[|s| - 1]], IsSep);
      RemoveCons(s[|s| - 1], [], IsSep);
      AppendEmpty(Remove(t, IsSep));
    }
  }

  /** The pieces of the split, put back together, are the input without its separators. */
  lemma {:induction false} FlattenSepSplit(s: string)
    ensures Flatten(SepSplit(s)) == Remove(s, IsSep)
    decreases |s|
  {
    var w := WordLen(s);
    if w == |s| {
      RemoveNone(s, IsSep);
      assert Flatten([s]) == s + Flatten([]);
      AppendEmpty(s);
    } else {
      var j := w + SepRun(s[w..]);
      FlattenSepSplit(s[j..]);
      SplitStep(s, w, j, SepSplit(s[j..]));
    }
  }

  lemma SplitStep(s: string, w: nat, j: nat, rest: seq<string>)
    requires w <= j <= |s| && NoSep(s[..w]) && forall i :: w <= i < j ==> IsSep(s[i])
    requires Flatten(rest) == Remove(s[j..], IsSep)
    ensures Flatten([s[..w]] + rest) == Remove(s, IsSep)
  {
    FlattenCons(s[..w], rest);
    WordThenSeps(s, w, j);
    RemoveSplit(s, j);
  }

  lemma FlattenCons(p: string, rest: seq<string>)
    ensures Flatten([p] + rest) == p + Flatten(rest)
  {
    assert ([p] + rest)[1..] == rest;
  }

  lemma RemoveSplit(s: string, j: nat)
    requires j <= |s|
    ensures Remove(s, IsSep) == Remove(s[..j], IsSep) + Remove(s[j..], IsSep)
  {
    RemoveAt(s, j, IsSep);
  }

  /** A word followed by separators only: removing them leaves the word. */
  lemma WordThenSeps(s: string, w: nat, j: nat)
    requires w <= j <= |s| && NoSep(s[..w]) && forall i :: w <= i < j ==> IsSep(s[i])
    ensures Remove(s[..j], IsSep) == s[..w]
  {
    var t := s[..j];
    assert t[..w] == s[..w];
    RemoveNone(t[..w], IsSep);
    RemoveAll(t[w..], IsSep);
    RemoveSplit(t, w);
    AppendEmpty(s[..w]);
  }

  lemma CapitalizeLower(p: string)
    ensures LowerStr(Capitalize(p)) == LowerStr(p)
  {
    if p != [] {
      assert p == [p[0]] + p[1..];
      LowerCons(Upper(p[0]), LowerStr(p[1..]));
      LowerCons(p[0], p[1..]);
      assert LowerStr(LowerStr(p[1..])) == LowerStr(p[1..]);
    }
  }

  /** Capitalising and joining only changes case. */
  lemma {:induction false} PascalLower(parts: seq<string>)
    requires forall k :: 0 <= k < |parts| ==> NoSep(parts[k])
    ensures LowerStr(Pascal(parts)) == LowerStr(Flatten(parts))
  {
    if parts != [] {
      var head := if parts[0] != "" then Capitalize(parts[0]) else "";
      PascalLower(parts[1..]);
      CapitalizeLower(parts[0]);
      LowerAppend(head, Pascal(parts[1..]));
      LowerAppend(parts[0], Flatten(parts[1..]));
    }
  }

  /** `to_pascal` only drops separators and changes case: lower-cased, its output
      is the lower-cased input without separators. */
  lemma ToPascalLetters(name: string)
    ensures LowerStr(ToPascal(name)) == LowerStr(Remove(name, IsSep))
  {
    var t := Strip(name);
    RemoveStripLeft(name);
    RemoveStripRight(StripLeft(name));
    FlattenSepSplit(t);
    PascalLower(SepSplit(t));
  }

  /** A name made only of separators gives the empty name. */
  lemma ToPascalAllSeps(name: string)
    requires forall i :: 0 <= i < |name| ==> IsSep(name[i])
    ensures ToPascal(name) == ""
  {
    ToPascalLetters(name);
    RemoveAll(name, IsSep);
  }

  lemma {:induction false} WordLenPrefix(w: string, rest: string)
    requires NoSep(w) && (rest == [] || IsSep(rest[0]))
    ensures WordLen(w + rest) == |w|
  {
    if w != [] {
      assert (w + rest)[1..] == w[1..] + rest;
      WordLenPrefix(w[1..], rest);
    } else {
      assert w + rest == rest;
    }
  }

  lemma {:induction false} SepRunPrefix(seps: string, rest: string)
    requires (forall i :: 0 <= i < |seps| ==> IsSep(seps[i])) && (rest == [] || !IsSep(rest[0]))
    ensures SepRun(seps + rest) == |seps|
  {
    if seps != [] {
      assert (seps + rest)[1..] == seps[1..] + rest;
      SepRunPrefix(seps[1..], rest);
    } else {
      assert seps + rest == rest;
    }
  }

  lemma StripNothing(x: string)
    requires x != [] && !IsSpace(x[0]) && !IsSpace(x[|x| - 1])
    ensures Strip(x) == x
  {
  }

  /** The pieces of `w1 + seps + w2` as slices. */
  lemma ThreeSlices(w1: string, seps: string, w2: string)
    ensures var x := w1 + seps + w2;
      && x == w1 + (seps + w2) && x[..|w1|] == w1
      && x[|w1|..] == seps + w2 && x[|w1| + |seps|..] == w2
  {
  }

  /** A separator-free string is a single piece. */
  lemma SplitOne(w: string)
    requires NoSep(w)
    ensures SepSplit(w) == [w]
  {
    WordLenPrefix(w, []);
    assert w + [] == w;
  }

  lemma SplitTwo(w1: string, seps: string, w2: string)
    requires w1 != [] && NoSep(w1) && NoSep(w2)
    requires seps != [] && forall i :: 0 <= i < |seps| ==> IsSep(seps[i])
    ensures SepSplit(w1 + seps + w2) == [w1, w2]
  {
    ThreeSlices(w1, seps, w2);
    WordLenPrefix(w1, seps + w2);
    SepRunPrefix(seps, w2);
    SplitOne(w2);
    assert [w1] + [w2] == [w1, w2];
  }

  lemma PascalCons(p: string, rest: seq<string>)
    requires p != [] && NoSep(p) && forall k :: 0 <= k < |rest| ==> NoSep(rest[k])
    ensures Pascal([p] + rest) == Capitalize(p) + Pascal(rest)
  {
    assert ([p] + rest)[1..] == rest;
  }

  lemma PascalTwo(w1: string, w2: string)
    requires w1 != [] && w2 != [] && NoSep(w1) && NoSep(w2)
    ensures Pascal([w1, w2]) == Capitalize(w1) + Capitalize(w2)
  {
    assert [w1, w2] == [w1] + [w2];
    assert [w2] == [w2] + [];
    PascalCons(w1, [w2]);
    PascalCons(w2, []);
    AppendEmpty(Capitalize(w2));
  }

  /** Two words with a run of separators between them: the run vanishes and each
      word is capitalised (`sum_two` gives `SumTwo`). */
  lemma TwoParts(w1: string, seps: string, w2: string)
    requires w1 != [] && w2 != [] && NoSep(w1) && NoSep(w2)
    requires seps != [] && forall i :: 0 <= i < |seps| ==> IsSep(seps[i])
    ensures ToPascal(w1 + seps + w2) == Capitalize(w1) + Capitalize(w2)
  {
    var x := w1 + seps + w2;
    assert x[0] == w1[0] && x[|x| - 1] == w2[|w2| - 1];
    StripNothing(x);
    SplitTwo(w1, seps, w2);
    PascalTwo(w1, w2);
  }

  lemma SumTwoSpelling()
    ensures "sum" + "_" + "two" == "sum_two" && "Sum" + "Two" == "SumTwo"
  {
  }

  /** The scaffold's example: `sum_two` gives `SumTwo`. */
  lemma SumTwoPascal()
    ensures ToPascal("sum_two") == "SumTwo"
  {
    TwoParts("sum", "_", "two");
    LowerNoUpper("um");
    LowerNoUpper("wo");
    assert Capitalize("sum") == "Sum";
    assert Capitalize("two") == "Two";
    SumTwoSpelling();
  }

  // ------------------------------------------------------------ config entry

  /** The nine keys the scaffold writes for a function, in the order it writes them. */
  function FixedEntries(cfgName: string, description: string, moduleName: string, className: string): (kvs: Entries)
    ensures |kvs| == 9 && DistinctKeys(kvs)
  {
    var kvs := [
      ("name", Str(cfgName)),
      ("description", Str(description)),
      ("module", Str("elementals.examples." + moduleName)),
      ("class", Str(className + "Function")),
      ("enabled", Bool(true)),
      ("role", Str(RoleValue(BusinessAction))),
      ("sync", Str(SyncValue(Sync))),
      ("resource_type", Str(ResourceValue(Cpu))),
      ("duration", Str(DurationValue(Short)))];
    FixedKeysDistinct(kvs);
    kvs
  }

  lemma FixedKeysDistinct(kvs: Entries)
    requires |kvs| == 9
    requires kvs[0].0 == "name" && kvs[1].0 == "description" && kvs[2].0 == "module"
    requires kvs[3].0 == "class" && kvs[4].0 == "enabled" && kvs[5].0 == "role"
    requires kvs[6].0 == "sync" && kvs[7].0 == "resource_type" && kvs[8].0 == "duration"
    ensures DistinctKeys(kvs)
  {
    forall i, j | 0 <= i < j < 9 ensures kvs[i].0 != kvs[j].0 {
      if |kvs[i].0| == |kvs[j].0| {
        assert kvs[i].0[0] != kvs[j].0[0];
      }
    }
  }

  /** `data[cfg_name] or {}` when the key is present, `{}` otherwise. */
  function StartEntry(data: Entries, cfgName: string): Value {
    match Lookup(data, cfgName)
    case Some(v) => if Truthy(v) then v else Dict([])
    case None => Dict([])
  }

  /** The merge inside `main`: the entry under `cfgName` (or `{}`) is updated with
      the nine fixed keys and stored back. An existing entry that is truthy but not
      a mapping has no `update`: `AttributeError`. */
  function MergeEntry(data: Entries, cfgName: string, description: string, moduleName: string, className: string): (r: Result<Entries>)
    ensures r.Failure? <==> !StartEntry(data, cfgName).Dict?
    ensures r.Failure? ==> r.error.AttributeError?
    ensures r.Success? ==> Keys(r.value) == if cfgName in Keys(data) then Keys(data) else Keys(data) + [cfgName]
  {
    var entry := StartEntry(data, cfgName);
    if !entry.Dict? then Failure(AttributeError("'" + TypeName(entry) + "' object has no attribute 'update'"))
    else Success(Put(data, cfgName, Dict(Update(entry.entries, FixedEntries(cfgName, description, moduleName, className)))))
  }

  /** The merge touches only the function's own entry. */
  lemma MergeKeepsOthers(data: Entries, cfgName: string, description: string, moduleName: string, className: string, k: string)
    requires k != cfgName && MergeEntry(data, cfgName, description, moduleName, className).Success?
    ensures Lookup(MergeEntry(data, cfgName, description, moduleName, className).value, k) == Lookup(data, k)
  {
    var entry := StartEntry(data, cfgName);
    PutLookup(data, cfgName, Dict(Update(entry.entries, FixedEntries(cfgName, description, moduleName, className))), k);
  }

  /** The new entry holds the nine fixed keys with their fixed values, and every
      other key of the existing entry with its old value. */
  lemma MergeEntryFields(data: Entries, cfgName: string, description: string, moduleName: string, className: string, k: string)
    requires MergeEntry(data, cfgName, description, moduleName, className).Success?
    ensures var fixed := FixedEntries(cfgName, description, moduleName, className);
      var e := Lookup(MergeEntry(data, cfgName, description, moduleName, className).value, cfgName);
      && e.Some? && e.value.Dict?
      && Lookup(e.value.entries, k) == if k in Keys(fixed) then Lookup(fixed, k) else Lookup(StartEntry(data, cfgName).entries, k)
  {
    var fixed := FixedEntries(cfgName, description, moduleName, className);
    var entry := StartEntry(data, cfgName);
    PutLookup(data, cfgName, Dict(Update(entry.entries, fixed)), cfgName);
    UpdateDistinct(entry.entries, fixed, k);
  }

  /** The values written are the ones the loader parses back to the declared
      defaults: an enabled business action, synchronous, CPU-bound and short. */
  lemma FixedValues(cfgName: string, description: string, moduleName: string, className: string)
    ensures var fixed := FixedEntries(cfgName, description, moduleName, className);
      && Lookup(fixed, "name") == Some(Str(cfgName))
      && Lookup(fixed, "description") == Some(Str(description))
      && Lookup(fixed, "module") == Some(Str("elementals.examples." + moduleName))
      && Lookup(fixed, "class") == Some(Str(className + "Function"))
      && Lookup(fixed, "enabled") == Some(Bool(true))
      && Lookup(fixed, "role") == Some(Str(RoleValue(BusinessAction)))
      && Lookup(fixed, "sync") == Some(Str(SyncValue(Sync)))
      && Lookup(fixed, "resource_type") == Some(Str(ResourceValue(Cpu)))
      && Lookup(fixed, "duration") == Some(Str(DurationValue(Short)))
      && ParseRole(RoleValue(BusinessAction)) == Some(BusinessAction)
      && ParseSync(SyncValue(Sync)) == Some(Sync)
      && ParseResource(ResourceValue(Cpu)) == Some(Cpu)
      && ParseDuration(DurationValue(Short)) == Some(Short)
  {
    var fixed := FixedEntries(cfgName, description, moduleName, className);
    FixedAt(fixed, 0);
    FixedAt(fixed, 1);
    FixedAt(fixed, 2);
    FixedAt(fixed, 3);
    FixedAt(fixed, 4);
    FixedAt(fixed, 5);
    FixedAt(fixed, 6);
    FixedAt(fixed, 7);
    FixedAt(fixed, 8);
    RoleRoundTrip(BusinessAction);
    SyncRoundTrip(Sync);
    ResourceRoundTrip(Cpu);
    DurationRoundTrip(Short);
  }

  lemma FixedAt(kvs: Entries, i: nat)
    requires i < |kvs| && DistinctKeys(kvs)
    ensures Lookup(kvs, kvs[i].0) == Some(kvs[i].1)
  {
    LookupAt(kvs, kvs[i].0, i);
  }

  /** The configuration mapping as `main` holds it between loading and saving. */
  class Config {
    var data: Entries

    constructor (data: Entries)
      ensures this.data == data
    {
      this.data := data;
    }

    /** `main`'s step 1: pick the entry, `entry.update(...)`, `data[cfg_name] = entry`.
        On `AttributeError` nothing has been stored. */
    method Merge(cfgName: string, description: string, moduleName: string, className: string) returns (error: Option<Error>)
      modifies this
      ensures var r := MergeEntry(old(data), cfgName, description, moduleName, className);
        && (r.Success? ==> error.None? && data == r.value)
        && (r.Failure? ==> error == Some(r.error) && data == old(data))
    {
      var entry := Dict([]);
      var existing := Lookup(data, cfgName);
      if existing.Some? && Truthy(existing.value) {
        entry := existing.value;
      }
      if !entry.Dict? {
        return Some(AttributeError("'" + TypeName(entry) + "' object has no attribute 'update'"));
      }
      entry := Dict(Update(entry.entries, FixedEntries(cfgName, description, moduleName, className)));
      data := Put(data, cfgName, entry);
      return None;
    }
  }
}
