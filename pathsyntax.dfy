/** The path tokens both resolvers walk: a name (a dict key or a record field)
    or an integer index, and the canonical text of a token sequence, which
    writes the first name bare, every later name after a `.` and every index
    in brackets (`params.items[1].val`). */
module PathSyntax {
  import opened Text

  datatype Token = Name(name: string) | Index(index: int)

  /** Commit a pending name: nothing when it is empty. */
  function Flush(buf: string): (ts: seq<Token>)
    ensures buf == "" ==> ts == []
    ensures buf != "" ==> ts == [Name(buf)]
  {
    if buf == "" then [] else [Name(buf)]
  }

  /** A name that the canonical text writes unambiguously: not empty, and no
      `.`, `[`, `]` or whitespace. */
  predicate PlainName(n: string) {
    && n != ""
    && forall i :: 0 <= i < |n| ==> n[i] != '.' && n[i] != '[' && n[i] != ']' && !IsSpace(n[i])
  }

  predicate Plain(ts: seq<Token>) {
    forall i :: 0 <= i < |ts| ==> ts[i].Name? ==> PlainName(ts[i].name)
  }

  /** Plain tokens whose text does not start with `$` (which the strict
      resolver would strip along with the path's own `$`). */
  predicate WellFormed(ts: seq<Token>) {
    Plain(ts) && (ts != [] && ts[0].Name? ==> ts[0].name[0] != '$')
  }

  function Piece(t: Token): string {
    match t
    case Name(n) => "." + n
    case Index(i) => "[" + Decimal(i) + "]"
  }

  function RenderTail(ts: seq<Token>): string {
    if ts == [] then "" else Piece(ts[0]) + RenderTail(ts[1..])
  }

  function Render(ts: seq<Token>): string {
    if ts != [] && ts[0].Name? then ts[0].name + RenderTail(ts[1..]) else RenderTail(ts)
  }

  lemma ConsTail(ts: seq<Token>)
    requires ts != []
    ensures [ts[0]] + ts[1..] == ts
  {
  }

  /** Cutting a token sequence in two at `k`. */
  lemma SliceAt(ts: seq<Token>, i: nat, k: nat)
    requires i <= k <= |ts|
    ensures ts[i..] == ts[i..k] + ts[k..]
  {
  }

  /** A prefix of a prefix. */
  lemma TakeSlice(ts: seq<Token>, k: nat)
    requires 1 <= k <= |ts|
    ensures ts[..k][1..] == ts[1..k] && ts[..k][0] == ts[0]
  {
  }

  /** The text of tokens led by the name `h`. */
  lemma RenderName(ts: seq<Token>, h: string, tail: seq<Token>)
    requires ts != [] && ts[0] == Name(h) && ts[1..] == tail
    ensures Render(ts) == h + RenderTail(tail)
  {
  }

  lemma {:induction false} RenderTailAppend(a: seq<Token>, b: seq<Token>)
    ensures RenderTail(a + b) == RenderTail(a) + RenderTail(b)
  {
    if a != [] {
      assert (a + b)[0] == a[0];
      assert (a + b)[1..] == a[1..] + b;
      RenderTailAppend(a[1..], b);
      ConcatAssoc(Piece(a[0]), RenderTail(a[1..]), RenderTail(b));
    } else {
      assert a + b == b;
    }
  }

  /** The piece of a plain token holds no whitespace. */
  lemma PieceNoSpace(t: Token)
    requires t.Name? ==> PlainName(t.name)
    ensures NoSpace(Piece(t))
  {
    match t
    case Name(n) =>
      assert NoSpace(n);
      NoSpaceAppend(".", n);
    case Index(i) =>
      NoSpaceAppend("[", Decimal(i));
      NoSpaceAppend("[" + Decimal(i), "]");
  }

  /** The canonical text of plain tokens holds no whitespace. */
  lemma {:induction false} RenderTailNoSpace(ts: seq<Token>)
    requires Plain(ts)
    ensures NoSpace(RenderTail(ts))
  {
    if ts != [] {
      var t := ts[0];
      assert Plain(ts[1..]) by {
        forall i | 0 <= i < |ts[1..]| ensures ts[1..][i].Name? ==> PlainName(ts[1..][i].name) {
          assert ts[1..][i] == ts[i + 1];
        }
      }
      RenderTailNoSpace(ts[1..]);
      PieceNoSpace(t);
      NoSpaceAppend(Piece(t), RenderTail(ts[1..]));
    }
  }

  lemma RenderNoSpace(ts: seq<Token>)
    requires Plain(ts)
    ensures NoSpace(Render(ts))
  {
    RenderTailNoSpace(ts);
    if ts != [] && ts[0].Name? {
      RenderTailNoSpace(ts[1..]);
      NoSpaceAppend(ts[0].name, RenderTail(ts[1..]));
    }
  }

  predicate AllIndex(ts: seq<Token>) {
    forall i :: 0 <= i < |ts| ==> ts[i].Index?
  }

  lemma AllIndexTail(ts: seq<Token>)
    requires ts != [] && AllIndex(ts)
    ensures AllIndex(ts[1..])
  {
    forall i | 0 <= i < |ts[1..]| ensures ts[1..][i].Index? {
      assert ts[1..][i] == ts[i + 1];
    }
  }

  /** Index pieces hold no `.`. */
  lemma {:induction false} IndexTailNoDot(ts: seq<Token>)
    requires AllIndex(ts)
    ensures '.' !in RenderTail(ts)
  {
    if ts != [] {
      IndexTailNoDot(ts[1..]);
      assert Piece(ts[0]) == "[" + Decimal(ts[0].index) + "]";
    }
  }

  /** A later name is written after a `.`: the tail from it is `.` and the text of those tokens. */
  lemma TailAtName(ts: seq<Token>)
    requires ts != [] && ts[0].Name?
    ensures RenderTail(ts) == "." + Render(ts)
  {
  }
}
