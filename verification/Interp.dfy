/**
 compose/interp.go: ${VAR} substitution with every variable unset.

 The scanning methods are tied to functions of the text and an index into it.
 */
module Interp {

  predicate IsNameStart(c: char) {
    c == '_' || 'a' <= c <= 'z' || 'A' <= c <= 'Z'
  }

  predicate IsNameChar(c: char) {
    IsNameStart(c) || '0' <= c <= '9'
  }

  // ----- matchBrace -----

  predicate OpensAt(s: string, i: nat) {
    i + 1 < |s| && s[i] == '$' && s[i + 1] == '{'
  }

  /** Where, scanning from i, the brace that is `depth` levels open closes; -1 if nowhere. */
  function CloseFrom(s: string, i: nat, depth: nat): (r: int)
    requires i <= |s| && depth > 0
    ensures r == -1 || (i <= r < |s| && s[r] == '}')
    decreases |s| - i
  {
    if i == |s| then -1
    else if OpensAt(s, i) then CloseFrom(s, i + 2, depth + 1)
    else if s[i] == '}' then if depth == 1 then i else CloseFrom(s, i + 1, depth - 1)
    else CloseFrom(s, i + 1, depth)
  }

  method MatchBrace(s: string, from: nat) returns (end: int)
    requires from <= |s|
    ensures end == CloseFrom(s, from, 1)
  {
    var depth, i := 1, from;
    while i < |s|
      invariant from <= i <= |s| && depth > 0
      invariant CloseFrom(s, from, 1) == CloseFrom(s, i, depth)
    {
      if s[i] == '$' && i + 1 < |s| && s[i + 1] == '{' {
        depth := depth + 1;
        i := i + 1;
      } else if s[i] == '}' {
        depth := depth - 1;
        if depth == 0 {
          return i;
        }
      }
      i := i + 1;
    }
    return -1;
  }

  /** How many levels are open just before index i, when one is open at `from`. */
  function Depth(s: string, from: nat, i: nat): int
    requires from <= i <= |s|
  {
    if i == from then 1
    else
      Depth(s, from, i - 1)
      + (if i >= from + 2 && OpensAt(s, i - 2) then 1 else 0)
      - (if s[i - 1] == '}' then 1 else 0)
  }

  ghost predicate Open(s: string, from: nat, i: nat)
    requires from <= i <= |s|
  {
    Depth(s, from, i) > 0
  }

  lemma DepthStep(s: string, from: nat, i: nat)
    requires from <= i < |s| && (i > from ==> !OpensAt(s, i - 1))
    ensures Depth(s, from, i + 1) == Depth(s, from, i) - if s[i] == '}' then 1 else 0
    ensures OpensAt(s, i) ==> Depth(s, from, i + 2) == Depth(s, from, i) + 1
  {
  }

  lemma {:induction false} CloseFromDepth(s: string, from: nat, i: nat)
    requires from <= i <= |s| && Open(s, from, i)
    requires i > from ==> !OpensAt(s, i - 1)
    ensures var r := CloseFrom(s, i, Depth(s, from, i));
            && (r >= 0 ==> Depth(s, from, r + 1) == 0)
            && (forall j | i <= j <= (if r < 0 then |s| else r) :: Open(s, from, j))
    decreases |s| - i
  {
    if i < |s| {
      DepthStep(s, from, i);
      if OpensAt(s, i) {
        CloseFromDepth(s, from, i + 2);
        assert Open(s, from, i + 1);
      } else if s[i] != '}' || Depth(s, from, i) > 1 {
        CloseFromDepth(s, from, i + 1);
      }
    }
  }

  /** The brace found is the least one after which no level is open; -1 means there is none. */
  lemma MatchBraceLeast(s: string, from: nat)
    requires from <= |s|
    ensures var r := CloseFrom(s, from, 1);
            && (r >= 0 ==> Depth(s, from, r + 1) == 0)
            && (forall j | from <= j <= (if r < 0 then |s| else r) :: Open(s, from, j))
  {
    CloseFromDepth(s, from, from);
  }

  // ----- splitExpr -----

  /** The operators of a braced expression; `colon` tells ":-" from "-" and so on. */
  datatype Op = Plain | Default(colon: bool) | Alternate(colon: bool) | Required(colon: bool)

  function OpText(op: Op): string {
    match op
    case Plain => ""
    case Default(colon) => if colon then ":-" else "-"
    case Alternate(colon) => if colon then ":+" else "+"
    case Required(colon) => if colon then ":?" else "?"
  }

  datatype Expr = Expr(name: string, op: Op, arg: string)

  /** In the order they are tried. */
  const OPS: seq<Op> :=
    [Default(true), Alternate(true), Required(true), Default(false), Alternate(false), Required(false)]

  /** The end of the longest run of name characters from i on. */
  function NameEnd(s: string, i: nat): (j: nat)
    requires i <= |s|
    ensures i <= j <= |s| && (forall k | i <= k < j :: IsNameChar(s[k])) && (j < |s| ==> !IsNameChar(s[j]))
    decreases |s| - i
  {
    if i < |s| && IsNameChar(s[i]) then NameEnd(s, i + 1) else i
  }

  lemma NameEndUnique(s: string, i: nat, j: nat)
    requires i <= j <= |s| && (forall k | i <= k < j :: IsNameChar(s[k])) && (j < |s| ==> !IsNameChar(s[j]))
    ensures NameEnd(s, i) == j
  {
    var e := NameEnd(s, i);
  }

  function OpOf(c: char, colon: bool): Op {
    if c == '-' then Default(colon)
    else if c == '+' then Alternate(colon)
    else if c == '?' then Required(colon)
    else Plain
  }

  function FirstOp(rest: string): (op: Op)
    ensures |OpText(op)| <= |rest|
    ensures OpText(op) == rest[..|OpText(op)|]
  {
    if |rest| >= 2 && rest[0] == ':' && OpOf(rest[1], true) != Plain then OpOf(rest[1], true)
    else if rest != "" then OpOf(rest[0], false)
    else Plain
  }

  /** The operator is the first of the list that the text begins with. */
  lemma FirstOpListed(rest: string, k: nat)
    requires k <= |OPS| && forall m | 0 <= m < k :: !(OpText(OPS[m]) <= rest)
    requires k < |OPS| ==> OpText(OPS[k]) <= rest
    ensures FirstOp(rest) == if k < |OPS| then OPS[k] else Plain
  {
    var op := FirstOp(rest);
    assert op != Plain ==> exists m :: 0 <= m < |OPS| && OPS[m] == op by {
      assert OPS[0] == Default(true) && OPS[1] == Alternate(true) && OPS[2] == Required(true);
      assert OPS[3] == Default(false) && OPS[4] == Alternate(false) && OPS[5] == Required(false);
    }
  }

  function Split(body: string): Expr {
    var n := NameEnd(body, 0);
    var rest := body[n..];
    var op := FirstOp(rest);
    Expr(body[..n], op, rest[|OpText(op)|..])
  }

  lemma Cut(s: string, n: nat)
    requires n <= |s|
    ensures s == s[..n] + s[n..]
  {
  }

  /** Nothing of the body is lost, and the name is as long as it can be. */
  lemma SplitReassembles(body: string)
    ensures Split(body).name + (OpText(Split(body).op) + Split(body).arg) == body
    ensures NameEnd(body, 0) == |Split(body).name|
  {
    var n := NameEnd(body, 0);
    Cut(body[n..], |OpText(FirstOp(body[n..]))|);
    Cut(body, n);
  }

  method SplitExpr(body: string) returns (e: Expr)
    ensures e == Split(body)
  {
    var j := 0;
    while j < |body| && IsNameChar(body[j])
      invariant j <= |body| && forall i | 0 <= i < j :: IsNameChar(body[i])
    {
      j := j + 1;
    }
    NameEndUnique(body, 0, j);
    var name, rest := body[..j], body[j..];
    for k := 0 to |OPS|
      invariant forall m | 0 <= m < k :: !(OpText(OPS[m]) <= rest)
    {
      if OpText(OPS[k]) <= rest {
        FirstOpListed(rest, k);
        return Expr(name, OPS[k], rest[|OpText(OPS[k])|..]);
      }
    }
    FirstOpListed(rest, |OPS|);
    return Expr(name, Plain, rest);
  }

  // ----- interpolate -----

  datatype Result = Result(out: string, unresolved: seq<string>) {
    function Then(next: Result): Result {
      Result(out + next.out, unresolved + next.unresolved)
    }
  }

  /** What a closed brace stands for: `text` is all of it, `body` what is inside. */
  function Braced(text: string, body: string): Result
    decreases |body|, 0, 0
  {
    var e := Split(body);
    match e.op
    case Default(_) => Interpolated(e.arg)
    case Alternate(_) => Result("", [])
    case _ => Result(text, [e.name])
  }

  /** What the text holds at i, and where that ends. */
  function Piece(s: string, i: nat): (p: (Result, nat))
    requires i < |s|
    ensures i < p.1 <= |s|
    decreases |s|, |s| - i, 1
  {
    if s[i] != '$' || i + 1 >= |s| then (Result([s[i]], []), i + 1)
    else if s[i + 1] == '$' then (Result("$", []), i + 2)
    else if s[i + 1] == '{' then
      var end := CloseFrom(s, i + 2, 1);
      if end < 0 then (Result(s[i..], [s[i..]]), |s|)  // unterminated: the rest is kept and reported
      else (Braced(s[i..end + 1], s[i + 2..end]), end + 1)
    else if IsNameStart(s[i + 1]) then
      var j := NameEnd(s, i + 1);
      (Result(s[i..j], [s[i + 1..j]]), j)
    else (Result("$", []), i + 1)
  }

  function From(s: string, i: nat): Result
    requires i <= |s|
    decreases |s|, |s| - i, 2
  {
    if i == |s| then Result("", [])
    else
      var (piece, next) := Piece(s, i);
      piece.Then(From(s, next))
  }

  /** The text after substitution and the names left unresolved, in order. */
  function Interpolated(s: string): Result
    decreases |s|, |s|, 3
  {
    From(s, 0)
  }

  lemma {:induction false} NoDollar(s: string, i: nat)
    requires i <= |s| && forall k | i <= k < |s| :: s[k] != '$'
    ensures From(s, i) == Result(s[i..], [])
    decreases |s| - i
  {
    if i < |s| {
      NoDollar(s, i + 1);
      assert s[i..] == [s[i]] + s[i + 1..];
    }
  }

  lemma ThenAssoc(a: Result, b: Result, c: Result)
    ensures a.Then(b).Then(c) == a.Then(b.Then(c))
  {
    assert (a.out + b.out) + c.out == a.out + (b.out + c.out);
    assert (a.unresolved + b.unresolved) + c.unresolved == a.unresolved + (b.unresolved + c.unresolved);
  }

  method ScanName(s: string, from: nat) returns (j: nat)
    requires from <= |s|
    ensures j == NameEnd(s, from)
  {
    j := from;
    while j < |s| && IsNameChar(s[j])
      invariant from <= j <= |s| && forall k | from <= k < j :: IsNameChar(s[k])
    {
      j := j + 1;
    }
    NameEndUnique(s, from, j);
  }

  /** One turn of the scanning loop: what it writes and reports, and where it continues. */
  method Turn(s: string, i: nat) returns (piece: Result, next: nat)
    requires i < |s|
    ensures (piece, next) == Piece(s, i)
    decreases |s|, 1
  {
    if s[i] != '$' || i + 1 >= |s| {
      return Result([s[i]], []), i + 1;
    }
    if s[i + 1] == '$' {
      return Result("$", []), i + 2;
    }
    if s[i + 1] == '{' {
      var end := MatchBrace(s, i + 2);
      if end < 0 {
        return Result(s[i..], [s[i..]]), |s|;
      }
      piece := ResolveBrace(s[i..end + 1], s[i + 2..end]);
      return piece, end + 1;
    }
    if IsNameStart(s[i + 1]) {
      var j := ScanName(s, i + 1);
      return Result(s[i..j], [s[i + 1..j]]), j;
    }
    return Result("$", []), i + 1;
  }

  method ResolveBrace(text: string, body: string) returns (piece: Result)
    ensures piece == Braced(text, body)
    decreases |body|, 3
  {
    var e := SplitExpr(body);
    match e.op {
      case Default(_) => piece := Interpolate(e.arg);
      case Alternate(_) => piece := Result("", []);
      case _ => piece := Result(text, [e.name]);
    }
  }

  /** Every nested call is on a strictly shorter text than its caller's. */
  method Interpolate(s: string) returns (r: Result)
    ensures r == Interpolated(s)
    decreases |s|, 2
  {
    if '$' !in s {
      NoDollar(s, 0);
      return Result(s, []);
    }
    var out, unresolved, i := "", [], 0;
    while i < |s|
      invariant i <= |s|
      invariant Result(out, unresolved).Then(From(s, i)) == From(s, 0)
    {
      var piece, next := Turn(s, i);
      ThenAssoc(Result(out, unresolved), piece, From(s, next));
      out := out + piece.out;
      unresolved := unresolved + piece.unresolved;
      i := next;
    }
    return Result(out, unresolved);
  }
}
