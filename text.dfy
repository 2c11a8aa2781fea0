/** Python `str` primitives used by the resolvers and the scaffolding helpers:
    whitespace and digit classes, `strip`/`lstrip`, `find`, `split`, `int()` on
    plain decimal literals, `str()` of an integer and ASCII case mapping. */
module Text {

  /** The characters Python's `str.isspace` accepts: what `str.strip()` removes
      and what the regular-expression class `\s` matches. */
  predicate IsSpace(c: char) {
    || c == ' '
    || ('\t' <= c <= '\r')
    || ('\U{1c}' <= c <= '\U{1f}')
    || c == '\U{85}' || c == '\U{a0}' || c == '\U{1680}'
    || ('\U{2000}' <= c <= '\U{200a}')
    || c == '\U{2028}' || c == '\U{2029}' || c == '\U{202f}' || c == '\U{205f}' || c == '\U{3000}'
  }

  predicate NoSpace(s: string) {
    forall i :: 0 <= i < |s| ==> !IsSpace(s[i])
  }

  lemma NoSpaceAppend(a: string, b: string)
    requires NoSpace(a) && NoSpace(b)
    ensures NoSpace(a + b)
  {
    forall i | 0 <= i < |a + b| ensures !IsSpace((a + b)[i]) {
      if i < |a| { assert (a + b)[i] == a[i]; } else { assert (a + b)[i] == b[i - |a|]; }
    }
  }

  lemma ConcatAssoc(x: string, y: string, z: string)
    ensures x + (y + z) == (x + y) + z
  {
  }

  /** Appending a string one character, then the rest. */
  lemma AppendFirst(t: string, n: string)
    requires n != ""
    ensures t + [n[0]] + n[1..] == t + n
  {
  }

  lemma SliceJoin(s: string, j: nat)
    requires j <= |s|
    ensures s[..j] + s[j..] == s
  {
  }

  lemma AppendEmpty(t: string)
    ensures t + "" == t && "" + t == t
  {
  }

  /** A string found at `a` starts with its first character and continues with the rest at `a + 1`. */
  lemma SliceFirst(s: string, a: nat, n: string)
    requires n != "" && a + |n| <= |s| && s[a..a + |n|] == n
    ensures s[a] == n[0] && s[a + 1..a + |n|] == n[1..]
  {
    assert s[a] == s[a..a + |n|][0];
  }

  predicate IsDigit(c: char) { '0' <= c <= '9' }

  predicate AllDigits(s: string) {
    forall i :: 0 <= i < |s| ==> IsDigit(s[i])
  }

  predicate IsUpper(c: char) { 'A' <= c <= 'Z' }

  predicate IsLower(c: char) { 'a' <= c <= 'z' }

  /** `str.lstrip(c)` for a single character `c`: every leading `c` goes. */
  function LStripChar(s: string, c: char): (r: string)
    ensures |r| <= |s| && r == s[|s| - |r|..]
    ensures forall i :: 0 <= i < |s| - |r| ==> s[i] == c
    ensures r == [] || r[0] != c
  {
    if s != [] && s[0] == c then LStripChar(s[1..], c) else s
  }

  function StripLeft(s: string): string {
    if s != [] && IsSpace(s[0]) then StripLeft(s[1..]) else s
  }

  /** `StripLeft` drops exactly the leading whitespace. (Kept as a lemma rather
      than a postcondition: every tokenizer step strips a slice, and carrying
      these quantifiers into each of them makes those proofs too costly.) */
  lemma {:induction false} StripLeftSpec(s: string)
    ensures var r := StripLeft(s);
      && |r| <= |s| && r == s[|s| - |r|..]
      && (forall i :: 0 <= i < |s| - |r| ==> IsSpace(s[i]))
      && (r == [] || !IsSpace(r[0]))
  {
    if s != [] && IsSpace(s[0]) {
      var t := s[1..];
      StripLeftSpec(t);
      var r := StripLeft(t);
      assert r == s[|s| - |r|..] by {
        assert t[|t| - |r|..] == s[|s| - |r|..];
      }
      forall i | 0 <= i < |s| - |r| ensures IsSpace(s[i]) {
        if i > 0 {
          assert s[i] == t[i - 1];
        }
      }
    }
  }

  function StripRight(s: string): string {
    if s != [] && IsSpace(s[|s| - 1]) then StripRight(s[..|s| - 1]) else s
  }

  /** `StripRight` drops exactly the trailing whitespace. */
  lemma {:induction false} StripRightSpec(s: string)
    ensures var r := StripRight(s);
      && |r| <= |s| && r == s[..|r|]
      && (forall i :: |r| <= i < |s| ==> IsSpace(s[i]))
      && (r == [] || !IsSpace(r[|r| - 1]))
  {
    if s != [] && IsSpace(s[|s| - 1]) {
      StripRightSpec(s[..|s| - 1]);
    }
  }

  /** `str.strip()` with no argument. */
  function Strip(s: string): string {
    StripRight(StripLeft(s))
  }

  /** Stripping removes only whitespace: every other character of `s` survives. */
  lemma StripKeeps(s: string, k: int)
    requires 0 <= k < |s| && !IsSpace(s[k])
    ensures s[k] in Strip(s)
  {
    StripLeftSpec(s);
    var l := StripLeft(s);
    StripRightSpec(l);
    var off := |s| - |l|;
    assert l[k - off] == s[k];
    var r := StripRight(l);
    assert r[k - off] == l[k - off];
  }

  /** A string without whitespace is its own `strip()`. */
  lemma StripNoSpace(s: string)
    requires NoSpace(s)
    ensures Strip(s) == s
  {
    if s != [] {
      assert !IsSpace(s[0]) && !IsSpace(s[|s| - 1]);
    }
  }

  /** `s.find(c, from)`: the first index at or after `from` holding `c`, or -1. */
  function Find(s: string, c: char, from: nat): (j: int)
    ensures j == -1 || from <= j < |s|
    ensures j == -1 ==> forall k :: from <= k < |s| ==> s[k] != c
    ensures j != -1 ==> s[j] == c && forall k :: from <= k < j ==> s[k] != c
    decreases |s| - from
  {
    if from >= |s| then -1
    else if s[from] == c then from
    else Find(s, c, from + 1)
  }

  /** Searching a suffix is searching the whole string further along. */
  lemma FindSuffix(s: string, c: char, i: nat, from: nat)
    requires i <= |s|
    ensures Find(s[i..], c, from) == if Find(s, c, i + from) == -1 then -1 else Find(s, c, i + from) - i
  {
  }

  /** A search that succeeds inside a prefix gives the same index in the whole string. */
  lemma FindPrefix(s: string, c: char, n: nat, from: nat)
    requires n <= |s|
    requires Find(s, c, from) != -1 && Find(s, c, from) < n
    ensures Find(s[..n], c, from) == Find(s, c, from)
  {
  }

  function Join(parts: seq<string>, sep: char): string {
    if |parts| == 0 then ""
    else if |parts| == 1 then parts[0]
    else parts[0] + [sep] + Join(parts[1..], sep)
  }

  /** `s.split(sep)`: the pieces between the separators, empty pieces kept;
      joining them back with `sep` gives `s` again. */
  function Split(s: string, sep: char): (parts: seq<string>)
    ensures |parts| >= 1
    ensures forall i :: 0 <= i < |parts| ==> sep !in parts[i]
    ensures Join(parts, sep) == s
  {
    if s == [] then [""]
    else
      var rest := Split(s[1..], sep);
      if s[0] == sep then
        [""] + rest
      else
        assert [s[0]] + Join(rest, sep) == s;
        [[s[0]] + rest[0]] + rest[1..]
  }

  /** Splitting after a separator-free prefix only lengthens the first piece. */
  lemma {:induction false} SplitAfterPrefix(x: string, y: string, sep: char)
    requires sep !in x
    ensures Split(x + y, sep)[0] == x + Split(y, sep)[0]
    ensures Split(x + y, sep)[1..] == Split(y, sep)[1..]
  {
    if x != [] {
      assert (x + y)[1..] == x[1..] + y;
      SplitAfterPrefix(x[1..], y, sep);
      assert x == [x[0]] + x[1..];
    } else {
      assert x + y == y;
    }
  }

  /** The index syntax both resolvers accept: ASCII `-?[0-9]+`. */
  predicate IsIntLiteral(t: string) {
    || (|t| > 0 && AllDigits(t))
    || (|t| > 1 && t[0] == '-' && AllDigits(t[1..]))
  }

  function DigitValue(c: char): nat
    requires IsDigit(c)
  {
    c as int - '0' as int
  }

  function DigitsValue(s: string): nat
    requires AllDigits(s)
  {
    if s == [] then 0 else DigitsValue(s[..|s| - 1]) * 10 + DigitValue(s[|s| - 1])
  }

  /** `int(t)` for a literal of the accepted syntax. */
  function ParseInt(t: string): (n: int)
    requires IsIntLiteral(t)
    ensures t[0] == '-' ==> n <= 0
    ensures t[0] != '-' ==> n >= 0
  {
    if t[0] == '-' then -(DigitsValue(t[1..]) as int) else DigitsValue(t)
  }

  function DigitChar(d: nat): (c: char)
    requires d < 10
    ensures IsDigit(c) && DigitValue(c) == d
  {
    ('0' as int + d) as char
  }

  function DecimalNat(n: nat): (s: string)
    ensures |s| > 0 && AllDigits(s)
  {
    if n < 10 then [DigitChar(n)] else DecimalNat(n / 10) + [DigitChar(n % 10)]
  }

  /** `str(i)` for an integer: optional minus sign, then decimal digits. */
  function Decimal(i: int): (s: string)
    ensures IsIntLiteral(s) && NoSpace(s)
    ensures ']' !in s && '.' !in s && '[' !in s
  {
    if i < 0 then "-" + DecimalNat(-i) else DecimalNat(i)
  }

  lemma {:induction false} DecimalNatValue(n: nat)
    ensures DigitsValue(DecimalNat(n)) == n
  {
    if n >= 10 {
      var s := DecimalNat(n);
      assert s[..|s| - 1] == DecimalNat(n / 10);
      DecimalNatValue(n / 10);
    }
  }

  /** `int(str(i)) == i`: printing an integer and parsing it back is the identity. */
  lemma ParseDecimal(i: int)
    ensures ParseInt(Decimal(i)) == i
  {
    if i < 0 {
      assert Decimal(i)[1..] == DecimalNat(-i);
      DecimalNatValue(-i);
    } else {
      DecimalNatValue(i);
    }
  }

  /** ASCII case mapping (what `str.lower`/`str.upper` do on ASCII letters). */
  function Lower(c: char): (r: char)
    ensures !IsUpper(r)
    ensures IsUpper(c) <==> r != c
  {
    if IsUpper(c) then (c as int + 32) as char else c
  }

  function Upper(c: char): (r: char)
    ensures !IsLower(r)
    ensures IsLower(c) <==> r != c
  {
    if IsLower(c) then (c as int - 32) as char else c
  }

  /** `str.lower()` restricted to ASCII. */
  function LowerStr(s: string): (r: string)
    ensures |r| == |s| && forall i :: 0 <= i < |s| ==> r[i] == Lower(s[i])
  {
    seq(|s|, i requires 0 <= i < |s| => Lower(s[i]))
  }
}
