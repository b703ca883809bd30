/**
 The templates compose/interp.go is meant to read, after the Compose Specification's
 chapter "Interpolation", and their meaning when every variable is unset.
 */
module InterpGrammar {
  import opened Wrappers
  import opened Interp

  datatype Template =
    | End
    | Lit(c: char, rest: Template)                                  // a character that stands for itself
    | Dollar(rest: Template)                                        // $$
    | Stray(rest: Template)                                         // a $ that introduces nothing
    | Bare(name: string, rest: Template)                            // $NAME
    | Brace(name: string, op: Op, arg: Template, rest: Template)    // ${NAME}, ${NAME:-arg}, ...

  function BraceText(name: string, op: Op, arg: string): string {
    "${" + (name + (OpText(op) + (arg + "}")))
  }

  /** What the template begins with, as it is written. */
  function FirstText(t: Template): string
    requires !t.End?
    decreases t, 0
  {
    match t
    case Lit(c, _) => [c]
    case Dollar(_) => "$$"
    case Stray(_) => "$"
    case Bare(name, _) => "$" + name
    case Brace(name, op, arg, _) => BraceText(name, op, Text(arg))
  }

  function Text(t: Template): string
    decreases t, 1
  {
    if t.End? then "" else FirstText(t) + Text(t.rest)
  }

  /** Defaults are taken, alternates vanish, and every other reference stays as written and is reported. */
  function BraceMeaning(name: string, op: Op, text: string, arg: Result): Result {
    match op
    case Default(_) => arg
    case Alternate(_) => Result("", [])
    case _ => Result(text, [name])
  }

  function EvalFirst(t: Template): Result
    requires !t.End?
    decreases t, 0
  {
    match t
    case Lit(c, _) => Result([c], [])
    case Bare(name, _) => Result(FirstText(t), [name])
    case Brace(name, op, arg, _) => BraceMeaning(name, op, FirstText(t), Eval(arg))
    case _ => Result("$", [])
  }

  function Eval(t: Template): Result
    decreases t, 1
  {
    if t.End? then Result("", []) else EvalFirst(t).Then(Eval(t.rest))
  }

  /** The first character of a template's text. */
  function Head(t: Template): Option<char> {
    match t
    case End => None
    case Lit(c, _) => Some(c)
    case _ => Some('$')
  }

  predicate IsName(name: string) {
    forall i | 0 <= i < |name| :: IsNameChar(name[i])
  }

  /** Each piece of the text reads back as the piece it was written for. */
  predicate Shaped(t: Template) {
    match t
    case End => true
    case Lit(c, rest) => c != '$' && Shaped(rest)
    case Dollar(rest) => Shaped(rest)
    case Stray(rest) =>
      && (Head(rest).Some? ==> Head(rest).value !in {'$', '{'} && !IsNameStart(Head(rest).value))
      && Shaped(rest)
    case Bare(name, rest) =>
      && name != "" && IsNameStart(name[0]) && IsName(name)
      && (Head(rest).Some? ==> !IsNameChar(Head(rest).value))
      && Shaped(rest)
    case Brace(name, op, arg, rest) => IsName(name) && (op.Plain? ==> arg.End?) && Shaped(arg) && Shaped(rest)
  }

  /** A '}' put behind the text is the one that closes a brace opened in front of it. */
  predicate Balances(text: string) {
    CloseFrom(text + "}", 0, 1) == |text|
  }

  /** Every brace closes where its argument ends. */
  predicate Nests(t: Template) {
    match t
    case End => true
    case Brace(_, _, arg, rest) => Balances(Text(arg)) && Nests(arg) && Nests(rest)
    case _ => Nests(t.rest)
  }

  predicate WellFormed(t: Template) {
    Shaped(t) && Nests(t)
  }

  // ----- reading a text in place -----

  /** The text p stands in s at index i. */
  predicate At(s: string, i: nat, p: string) {
    i + |p| <= |s| && forall k | 0 <= k < |p| :: s[i + k] == p[k]
  }

  lemma AtChar(s: string, i: nat, p: string, k: nat)
    requires At(s, i, p) && k < |p|
    ensures s[i + k] == p[k]
  {
  }

  lemma AtSplit(s: string, i: nat, p: string, q: string)
    requires At(s, i, p + q)
    ensures At(s, i, p) && At(s, i + |p|, q)
  {
    forall k | 0 <= k < |p| ensures s[i + k] == p[k] {
      AtChar(s, i, p + q, k);
    }
    forall k | 0 <= k < |q| ensures s[i + |p| + k] == q[k] {
      AtChar(s, i, p + q, |p| + k);
    }
  }

  lemma AtSlice(s: string, i: nat, p: string)
    requires At(s, i, p)
    ensures s[i..i + |p|] == p
  {
  }

  lemma AtWhole(s: string)
    ensures At(s, 0, s)
  {
  }

  /** The parts of a brace, and the indices its argument and its end stand at. */
  predicate BraceAt(s: string, i: nat, name: string, op: Op, arg: string, a: nat, e: nat) {
    && OpensAt(s, i) && At(s, i + 2, name) && At(s, i + 2 + |name|, OpText(op)) && At(s, a, arg)
    && a == i + 2 + |name| + |OpText(op)| && e == a + |arg| && e < |s| && s[e] == '}'
  }

  lemma BraceReads(s: string, i: nat, name: string, op: Op, arg: string) returns (a: nat, e: nat)
    requires At(s, i, BraceText(name, op, arg))
    ensures BraceAt(s, i, name, op, arg, a, e) && e + 1 == i + |BraceText(name, op, arg)|
  {
    a := i + 2 + |name| + |OpText(op)|;
    e := a + |arg|;
    AtSplit(s, i, "${", name + (OpText(op) + (arg + "}")));
    AtSplit(s, i + 2, name, OpText(op) + (arg + "}"));
    AtSplit(s, i + 2 + |name|, OpText(op), arg + "}");
    AtSplit(s, a, arg, "}");
    AtChar(s, i, "${", 0);
    AtChar(s, i, "${", 1);
    AtChar(s, e, "}", 0);
  }

  lemma TextReads(t: Template, s: string, i: nat)
    requires !t.End? && At(s, i, Text(t))
    ensures At(s, i, FirstText(t)) && At(s, i + |FirstText(t)|, Text(t.rest))
    ensures |Text(t)| == |FirstText(t)| + |Text(t.rest)| && (t.rest.End? ==> Text(t.rest) == "")
  {
    AtSplit(s, i, FirstText(t), Text(t.rest));
  }

  /** The character the text begins with. */
  lemma HeadReads(t: Template, s: string, i: nat)
    requires At(s, i, Text(t)) && i < |s|
    ensures Head(t).Some? ==> s[i] == Head(t).value
    ensures Head(t).None? ==> Text(t) == ""
  {
    if !t.End? {
      TextReads(t, s, i);
      AtChar(s, i, FirstText(t), 0);
    }
  }

  // ----- brace matching and what it depends on -----

  /** From index i on, matching sees the same in p as in s, where p stands at index a. */
  predicate SeenAlike(p: string, i: nat, s: string, a: nat)
    decreases |p| - i
  {
    i < |p| ==>
      && a + i < |s| && s[a + i] == p[i] && (OpensAt(s, a + i) <==> OpensAt(p, i))
      && SeenAlike(p, i + 1, s, a)
  }

  lemma {:induction false} AtSeenAlike(p: string, i: nat, s: string, a: nat)
    requires At(s, a, p) && (p != "" ==> p[|p| - 1] == '}')
    ensures SeenAlike(p, i, s, a)
    decreases |p| - i
  {
    if i < |p| {
      AtChar(s, a, p, i);
      if i + 1 < |p| {
        AtChar(s, a, p, i + 1);
      }
      AtSeenAlike(p, i + 1, s, a);
    }
  }

  /** Matching inside a text that closes goes the same way wherever the text stands. */
  lemma {:induction false} CloseLocal(p: string, i: nat, d: nat, s: string, a: nat)
    requires i <= |p| && a + |p| <= |s| && d > 0 && SeenAlike(p, i, s, a) && CloseFrom(p, i, d) >= 0
    ensures CloseFrom(s, a + i, d) == a + CloseFrom(p, i, d)
    decreases |p| - i
  {
    if OpensAt(p, i) {
      CloseLocal(p, i + 2, d + 1, s, a);
    } else if p[i] != '}' {
      CloseLocal(p, i + 1, d, s, a);
    } else if d > 1 {
      CloseLocal(p, i + 1, d - 1, s, a);
    }
  }

  /** A text that does not close leaves matching to what stands behind it. */
  lemma {:induction false} OpenLocal(p: string, i: nat, d: nat, s: string, a: nat)
    requires i <= |p| && a + |p| <= |s| && d > 0 && SeenAlike(p, i, s, a) && CloseFrom(p, i, d) == -1
    ensures CloseFrom(s, a + i, d) == -1 || CloseFrom(s, a + i, d) >= a + |p|
    decreases |p| - i
  {
    if i < |p| {
      if OpensAt(p, i) {
        OpenLocal(p, i + 2, d + 1, s, a);
      } else if p[i] != '}' {
        OpenLocal(p, i + 1, d, s, a);
      } else {
        OpenLocal(p, i + 1, d - 1, s, a);
      }
    }
  }

  /** The '}' behind an argument is found exactly if the argument balances. */
  lemma ArgumentCloses(s: string, a: nat, arg: string)
    requires At(s, a, arg + "}")
    ensures CloseFrom(s, a, 1) == a + |arg| <==> Balances(arg)
  {
    var p := arg + "}";
    AtSeenAlike(p, 0, s, a);
    if CloseFrom(p, 0, 1) == -1 {
      OpenLocal(p, 0, 1, s, a);
    } else {
      CloseLocal(p, 0, 1, s, a);
    }
  }

  // ----- brace matching passes over an argument without braces of its own -----

  /**
   A condition on the letters alone: no bare '}', and no "$$" in front of a '{', which matching would take for
   an opening because it does not know that "$$" is an escape.
   */
  predicate Unbraced(t: Template) {
    match t
    case End => true
    case Lit(c, rest) => c != '}' && Unbraced(rest)
    case Dollar(rest) => Head(rest) != Some('{') && Unbraced(rest)
    case Brace(_, _, arg, rest) => Unbraced(arg) && Unbraced(rest)
    case _ => Unbraced(t.rest)
  }

  predicate UnbracedArguments(t: Template) {
    match t
    case End => true
    case Brace(_, _, arg, rest) => Unbraced(arg) && UnbracedArguments(rest)
    case _ => UnbracedArguments(t.rest)
  }

  lemma {:induction false} PassPlain(s: string, i: nat, j: nat, d: nat)
    requires d > 0 && i <= j <= |s| && forall k | i <= k < j :: s[k] != '$' && s[k] != '}'
    ensures CloseFrom(s, i, d) == CloseFrom(s, j, d)
    decreases j - i
  {
    if i < j {
      PassPlain(s, i + 1, j, d);
    }
  }

  lemma PassDollar(s: string, i: nat, d: nat)
    requires d > 0 && i + 1 < |s| && s[i] == '$' && s[i + 1] != '{'
    ensures CloseFrom(s, i, d) == CloseFrom(s, i + 1, d)
  {
  }

  lemma PassLit(s: string, i: nat, c: char, d: nat)
    requires d > 0 && At(s, i, [c]) && c != '$' && c != '}'
    ensures CloseFrom(s, i, d) == CloseFrom(s, i + 1, d)
  {
    AtChar(s, i, [c], 0);
  }

  lemma PassEscape(s: string, i: nat, d: nat)
    requires d > 0 && At(s, i, "$$") && i + 2 < |s| && s[i + 2] != '{'
    ensures CloseFrom(s, i, d) == CloseFrom(s, i + 2, d)
  {
    AtChar(s, i, "$$", 0);
    AtChar(s, i, "$$", 1);
    PassDollar(s, i, d);
    PassDollar(s, i + 1, d);
  }

  lemma PassStray(s: string, i: nat, d: nat)
    requires d > 0 && At(s, i, "$") && i + 1 < |s| && s[i + 1] != '{'
    ensures CloseFrom(s, i, d) == CloseFrom(s, i + 1, d)
  {
    AtChar(s, i, "$", 0);
    PassDollar(s, i, d);
  }

  lemma PassName(s: string, i: nat, name: string, d: nat)
    requires d > 0 && At(s, i, name) && IsName(name)
    ensures CloseFrom(s, i, d) == CloseFrom(s, i + |name|, d)
  {
    forall k | i <= k < i + |name| ensures s[k] != '$' && s[k] != '}' {
      AtChar(s, i, name, k - i);
    }
    PassPlain(s, i, i + |name|, d);
  }

  lemma PassOp(s: string, i: nat, op: Op, d: nat)
    requires d > 0 && At(s, i, OpText(op))
    ensures CloseFrom(s, i, d) == CloseFrom(s, i + |OpText(op)|, d)
  {
    forall k | i <= k < i + |OpText(op)| ensures s[k] != '$' && s[k] != '}' {
      AtChar(s, i, OpText(op), k - i);
    }
    PassPlain(s, i, i + |OpText(op)|, d);
  }

  lemma PassOpening(s: string, i: nat, name: string, op: Op, d: nat)
    requires d > 0 && IsName(name) && At(s, i + 2, name) && At(s, i + 2 + |name|, OpText(op))
    ensures CloseFrom(s, i + 2, d) == CloseFrom(s, i + 2 + |name| + |OpText(op)|, d)
  {
    PassName(s, i + 2, name, d);
    PassOp(s, i + 2 + |name|, op, d);
  }

  lemma PassBare(s: string, i: nat, name: string, d: nat)
    requires d > 0 && At(s, i, "$" + name) && name != "" && IsName(name)
    ensures CloseFrom(s, i, d) == CloseFrom(s, i + 1 + |name|, d)
  {
    AtSplit(s, i, "$", name);
    AtChar(s, i, "$", 0);
    AtChar(s, i + 1, name, 0);
    PassDollar(s, i, d);
    PassName(s, i + 1, name, d);
  }

  lemma PassAround(s: string, i: nat, a: nat, e: nat, d: nat)
    requires d > 0 && OpensAt(s, i) && i + 2 <= a <= e < |s| && s[e] == '}'
    requires CloseFrom(s, i + 2, d + 1) == CloseFrom(s, a, d + 1) == CloseFrom(s, e, d + 1)
    ensures CloseFrom(s, i, d) == CloseFrom(s, e + 1, d)
  {
  }

  /** One whole brace: matching comes out behind it at the same level. */
  lemma {:induction false} PassBrace(name: string, op: Op, arg: Template, s: string, i: nat, d: nat)
    requires d > 0 && IsName(name) && Shaped(arg) && Unbraced(arg) && At(s, i, BraceText(name, op, Text(arg)))
    ensures CloseFrom(s, i, d) == CloseFrom(s, i + |BraceText(name, op, Text(arg))|, d)
    decreases arg, 2
  {
    var a, e := BraceReads(s, i, name, op, Text(arg));
    PassOpening(s, i, name, op, d + 1);
    PassText(arg, s, a, e, d + 1);
    PassAround(s, i, a, e, d);
  }

  /** Matching passes over what the template begins with. */
  lemma {:induction false} PassFirst(t: Template, s: string, i: nat, d: nat)
    requires d > 0 && !t.End? && Shaped(t) && Unbraced(t) && At(s, i, FirstText(t))
    requires var j := i + |FirstText(t)|; j < |s| && At(s, j, Text(t.rest)) && (t.rest.End? ==> s[j] == '}')
    ensures CloseFrom(s, i, d) == CloseFrom(s, i + |FirstText(t)|, d)
    decreases t, 0
  {
    HeadReads(t.rest, s, i + |FirstText(t)|);
    match t
    case Lit(c, _) => PassLit(s, i, c, d);
    case Dollar(_) => PassEscape(s, i, d);
    case Stray(_) => PassStray(s, i, d);
    case Bare(name, _) => PassBare(s, i, name, d);
    case Brace(name, op, arg, _) => PassBrace(name, op, arg, s, i, d);
  }

  /** Brace matching that reaches the argument goes on at its end e at the same level. */
  lemma {:induction false} PassText(t: Template, s: string, i: nat, e: nat, d: nat)
    requires d > 0 && Shaped(t) && Unbraced(t) && At(s, i, Text(t))
    requires e == i + |Text(t)| && e < |s| && s[e] == '}'
    ensures CloseFrom(s, i, d) == CloseFrom(s, e, d)
    decreases t, 1
  {
    if !t.End? {
      TextReads(t, s, i);
      PassFirst(t, s, i, d);
      PassText(t.rest, s, i + |FirstText(t)|, e, d);
    }
  }

  lemma ClosedText(text: string, p: string)
    requires p == text + "}"
    ensures |p| == |text| + 1 && At(p, 0, text) && p[|text|] == '}' && CloseFrom(p, |text|, 1) == |text|
  {
    AtWhole(p);
    AtSplit(p, 0, text, "}");
  }

  lemma UnbracedBalances(t: Template)
    requires Shaped(t) && Unbraced(t)
    ensures Balances(Text(t))
  {
    var p := Text(t) + "}";
    ClosedText(Text(t), p);
    PassText(t, p, 0, |Text(t)|, 1);
  }

  lemma {:induction false} UnbracedNests(t: Template)
    requires Shaped(t) && Unbraced(t)
    ensures Nests(t)
  {
    match t
    case End =>
    case Brace(_, _, arg, rest) =>
      UnbracedBalances(arg);
      UnbracedNests(arg);
      UnbracedNests(rest);
    case _ => UnbracedNests(t.rest);
  }

  /** Templates whose arguments meet the condition on the letters are well-formed. */
  lemma {:induction false} UnbracedWellFormed(t: Template)
    requires Shaped(t) && UnbracedArguments(t)
    ensures WellFormed(t)
  {
    match t
    case End =>
    case Brace(_, _, arg, rest) =>
      UnbracedBalances(arg);
      UnbracedNests(arg);
      UnbracedWellFormed(rest);
    case _ => UnbracedWellFormed(t.rest);
  }

  // ----- splitting a well-formed body -----

  lemma OpFirst(op: Op, rest: string)
    requires At(rest, 0, OpText(op)) && (op.Plain? ==> rest == "")
    ensures FirstOp(rest) == op
  {
    if OpText(op) != "" {
      AtChar(rest, 0, OpText(op), 0);
    }
    if |OpText(op)| == 2 {
      AtChar(rest, 0, OpText(op), 1);
    }
  }

  lemma OpNotName(op: Op)
    ensures OpText(op) != "" ==> !IsNameChar(OpText(op)[0])
  {
  }

  lemma NameOfBody(name: string, rest: string)
    requires IsName(name) && (rest != "" ==> !IsNameChar(rest[0]))
    ensures NameEnd(name + rest, 0) == |name|
  {
    NameEndUnique(name + rest, 0, |name|);
  }

  /** A body with the name and operator in front splits there. */
  lemma SplitBody(name: string, op: Op, arg: string)
    requires IsName(name) && (op.Plain? ==> arg == "")
    ensures Split(name + (OpText(op) + arg)) == Expr(name, op, arg)
  {
    var rest := OpText(op) + arg;
    OpNotName(op);
    NameOfBody(name, rest);
    AtWhole(rest);
    AtSplit(rest, 0, OpText(op), arg);
    OpFirst(op, rest);
    Halves(name, rest);
    Halves(OpText(op), arg);
  }

  lemma Halves(p: string, q: string)
    ensures (p + q)[..|p|] == p && (p + q)[|p|..] == q
  {
  }

  lemma AtJoin(s: string, i: nat, p: string, q: string)
    requires At(s, i, p) && At(s, i + |p|, q)
    ensures At(s, i, p + q)
  {
    forall k | 0 <= k < |p + q| ensures s[i + k] == (p + q)[k] {
      if k < |p| {
        AtChar(s, i, p, k);
      } else {
        AtChar(s, i + |p|, q, k - |p|);
      }
    }
  }

  // ----- the pieces of a well-formed text -----

  lemma LitPiece(s: string, i: nat, c: char)
    requires At(s, i, [c]) && c != '$'
    ensures Piece(s, i).0 == Result([c], []) && Piece(s, i).1 == i + 1
  {
    AtChar(s, i, [c], 0);
  }

  lemma EscapePiece(s: string, i: nat)
    requires At(s, i, "$$")
    ensures Piece(s, i).0 == Result("$", []) && Piece(s, i).1 == i + 2
  {
    AtChar(s, i, "$$", 0);
    AtChar(s, i, "$$", 1);
  }

  lemma StrayPiece(s: string, i: nat)
    requires At(s, i, "$") && (i + 1 < |s| ==> s[i + 1] !in {'$', '{'} && !IsNameStart(s[i + 1]))
    ensures Piece(s, i).0 == Result("$", []) && Piece(s, i).1 == i + 1
  {
    AtChar(s, i, "$", 0);
  }

  lemma BareReads(s: string, i: nat, name: string)
    requires At(s, i, "$" + name) && name != "" && IsNameStart(name[0]) && IsName(name)
    requires var j := i + 1 + |name|; j < |s| ==> !IsNameChar(s[j])
    ensures s[i] == '$' && IsNameStart(s[i + 1]) && s[i + 1..i + 1 + |name|] == name
    ensures NameEnd(s, i + 1) == i + 1 + |name|
  {
    AtSplit(s, i, "$", name);
    AtChar(s, i, "$", 0);
    AtChar(s, i + 1, name, 0);
    AtSlice(s, i + 1, name);
    var j := i + 1 + |name|;
    forall k | i + 1 <= k < j ensures IsNameChar(s[k]) {
      AtChar(s, i + 1, name, k - i - 1);
    }
    NameEndUnique(s, i + 1, j);
  }

  lemma BarePiece(s: string, i: nat, name: string)
    requires At(s, i, "$" + name) && name != "" && IsNameStart(name[0]) && IsName(name)
    requires var j := i + 1 + |name|; j < |s| ==> !IsNameChar(s[j])
    ensures Piece(s, i).0 == Result("$" + name, [name]) && Piece(s, i).1 == i + 1 + |name|
  {
    BareReads(s, i, name);
    AtSlice(s, i, "$" + name);
  }

  lemma BracedMeaning(name: string, op: Op, arg: string, text: string)
    requires IsName(name) && (op.Plain? ==> arg == "")
    ensures Braced(text, name + (OpText(op) + arg)) == BraceMeaning(name, op, text, Interpolated(arg))
  {
    SplitBody(name, op, arg);
  }

  lemma BodySlice(s: string, i: nat, name: string, op: Op, arg: string, a: nat, e: nat)
    requires BraceAt(s, i, name, op, arg, a, e)
    ensures s[i + 2..e] == name + (OpText(op) + arg)
  {
    AtJoin(s, i + 2 + |name|, OpText(op), arg);
    AtJoin(s, i + 2, name, OpText(op) + arg);
    AtSlice(s, i + 2, name + (OpText(op) + arg));
  }

  lemma ClosedPiece(s: string, i: nat, e: nat, text: string, body: string)
    requires OpensAt(s, i) && CloseFrom(s, i + 2, 1) == e && e >= 0
    requires s[i..e + 1] == text && s[i + 2..e] == body
    ensures Piece(s, i).0 == Braced(text, body) && Piece(s, i).1 == e + 1
  {
  }

  /** A printed brace closes at its own '}' exactly if its argument balances. */
  lemma BraceCloses(name: string, op: Op, arg: string, s: string, i: nat, a: nat, e: nat)
    requires IsName(name) && BraceAt(s, i, name, op, arg, a, e)
    ensures CloseFrom(s, i + 2, 1) == e <==> Balances(arg)
  {
    PassOpening(s, i, name, op, 1);
    assert At(s, e, "}");
    AtJoin(s, a, arg, "}");
    ArgumentCloses(s, a, arg);
  }

  lemma BracePiece(name: string, op: Op, arg: string, s: string, i: nat)
    requires IsName(name) && (op.Plain? ==> arg == "") && Balances(arg) && At(s, i, BraceText(name, op, arg))
    ensures var text := BraceText(name, op, arg);
            Piece(s, i).0 == BraceMeaning(name, op, text, Interpolated(arg)) && Piece(s, i).1 == i + |text|
  {
    var text := BraceText(name, op, arg);
    var a, e := BraceReads(s, i, name, op, arg);
    BraceCloses(name, op, arg, s, i, a, e);
    AtSlice(s, i, text);
    BodySlice(s, i, name, op, arg, a, e);
    ClosedPiece(s, i, e, text, name + (OpText(op) + arg));
    BracedMeaning(name, op, arg, text);
  }

  // ----- the theorem -----

  lemma {:induction false} FirstIsEval(t: Template, s: string, i: nat)
    requires !t.End? && WellFormed(t) && At(s, i, FirstText(t))
    requires var j := i + |FirstText(t)|; At(s, j, Text(t.rest)) && (t.rest.End? ==> j == |s|)
    ensures i < |s| && Piece(s, i).0 == EvalFirst(t) && Piece(s, i).1 == i + |FirstText(t)|
    decreases t, 0
  {
    var j := i + |FirstText(t)|;
    if j < |s| {
      HeadReads(t.rest, s, j);
    }
    match t
    case Lit(c, _) => LitPiece(s, i, c);
    case Dollar(_) => EscapePiece(s, i);
    case Stray(_) => StrayPiece(s, i);
    case Bare(name, _) => BarePiece(s, i, name);
    case Brace(name, op, arg, _) =>
      BracePiece(name, op, Text(arg), s, i);
      InterpolateIsEval(arg);
  }

  lemma FromStep(s: string, i: nat, piece: Result, next: nat, tail: Result)
    requires i < |s| && Piece(s, i).0 == piece && Piece(s, i).1 == next && From(s, next) == tail
    ensures From(s, i) == piece.Then(tail)
  {
  }

  lemma {:induction false} FromIsEval(t: Template, s: string, i: nat)
    requires WellFormed(t) && At(s, i, Text(t)) && i + |Text(t)| == |s|
    ensures From(s, i) == Eval(t)
    decreases t, 1
  {
    if !t.End? {
      var j := i + |FirstText(t)|;
      TextReads(t, s, i);
      FirstIsEval(t, s, i);
      FromIsEval(t.rest, s, j);
      FromStep(s, i, EvalFirst(t), j, Eval(t.rest));
    }
  }

  /** interpolate computes the meaning of the text of every well-formed template, output and unresolved names alike. */
  lemma {:induction false} InterpolateIsEval(t: Template)
    requires WellFormed(t)
    ensures Interpolated(Text(t)) == Eval(t)
    decreases t, 2
  {
    AtWhole(Text(t));
    FromIsEval(t, Text(t), 0);
  }

  // ----- escaping -----

  /** Every '$' doubled. */
  function Escape(s: string): string {
    if s == "" then "" else (if s[0] == '$' then "$$" else [s[0]]) + Escape(s[1..])
  }

  /** The template of an escaped text. */
  function Escaped(s: string): Template {
    if s == "" then End else if s[0] == '$' then Dollar(Escaped(s[1..])) else Lit(s[0], Escaped(s[1..]))
  }

  lemma {:induction false} EscapedReads(s: string)
    ensures WellFormed(Escaped(s)) && Text(Escaped(s)) == Escape(s) && Eval(Escaped(s)) == Result(s, [])
  {
    if s != "" {
      EscapedReads(s[1..]);
    }
  }

  /** Doubling every '$' is undone, and nothing is reported. */
  lemma EscapeUndone(s: string)
    ensures Interpolated(Escape(s)) == Result(s, [])
  {
    EscapedReads(s);
    InterpolateIsEval(Escaped(s));
  }

  lemma NeverCloses(s: string)
    requires |s| == 9 && s[0] == '$' && s[1] == '{' && s[2] == 'N' && s[3] == ':' && s[4] == '-'
    requires s[5] == '$' && s[6] == '$' && s[7] == '{' && s[8] == '}'
    ensures CloseFrom(s, 2, 1) == -1
  {
    PassPlain(s, 2, 5, 1);
    PassDollar(s, 5, 1);
    assert CloseFrom(s, 8, 2) == CloseFrom(s, 9, 1);
  }

  lemma UnterminatedKept(s: string)
    requires OpensAt(s, 0) && CloseFrom(s, 2, 1) == -1
    ensures Interpolated(s) == Result(s, [s])
  {
    assert s[0..] == s;
    assert Piece(s, 0).0 == Result(s, [s]) && Piece(s, 0).1 == |s|;
    assert From(s, |s|) == Result("", []);
    assert s + "" == s && [s] + [] == [s];
  }

  lemma OneBrace(name: string, op: Op, arg: Template, t: Template)
    requires t == Brace(name, op, arg, End)
    ensures Text(t) == BraceText(name, op, Text(arg))
    ensures Eval(t) == BraceMeaning(name, op, Text(t), Eval(arg))
  {
    assert Text(t) == FirstText(t) + "" == FirstText(t);
    var m := BraceMeaning(name, op, Text(t), Eval(arg));
    assert m.out + "" == m.out && m.unresolved + [] == m.unresolved;
  }

  lemma DefaultText(arg: string)
    ensures BraceText("N", Default(true), arg) == "${N:-" + arg + "}"
  {
  }

  lemma DefaultReads()
    ensures var arg := Dollar(Lit('{', End)); Text(arg) == "$${" && Eval(arg) == Result("${", [])
  {
    var tail := Lit('{', End);
    assert Text(tail) == "{" && Eval(tail) == Result("{", []);
  }

  lemma MisreadText(t: Template)
    requires t == Brace("N", Default(true), Dollar(Lit('{', End)), End)
    ensures Text(t) == "${N:-$${}" && Eval(t) == Result("${", [])
  {
    DefaultReads();
    OneBrace("N", Default(true), t.arg, t);
    DefaultText("$${");
    assert "${N:-" + "$${" + "}" == "${N:-$${}";
  }

  lemma MisreadKept(s: string)
    requires s == "${N:-$${}"
    ensures Interpolated(s) == Result(s, [s])
  {
    NeverCloses(s);
    UnterminatedKept(s);
  }

  /**
   An argument that does not balance: `${N:-$${}` should be its default "${", but matching counts the escaped
   brace as an opening one, so the whole text is kept as unterminated.
   */
  lemma EscapedBraceMisread()
    ensures var t := Brace("N", Default(true), Dollar(Lit('{', End)), End);
            && Shaped(t) && Text(t) == "${N:-$${}" && Eval(t) == Result("${", [])
            && Interpolated(Text(t)) == Result(Text(t), [Text(t)])
  {
    var t := Brace("N", Default(true), Dollar(Lit('{', End)), End);
    MisreadText(t);
    MisreadKept(Text(t));
  }

  lemma PairReads()
    ensures var arg := Dollar(Lit('{', Lit('}', End))); Text(arg) == "$${}" && Eval(arg) == Result("${}", [])
  {
    var last := Lit('}', End);
    assert Text(last) == "}" && Eval(last) == Result("}", []);
    assert Text(Lit('{', last)) == "{}" && Eval(Lit('{', last)) == Result("{}", []);
  }

  lemma PairBalances()
    ensures Balances("$${}")
  {
    var p := "$${}" + "}";
    PassDollar(p, 0, 1);
    assert OpensAt(p, 1) && CloseFrom(p, 1, 1) == CloseFrom(p, 3, 2) == CloseFrom(p, 4, 1) == 4;
  }

  /** One that balances although it holds an escaped brace: `${N:-$${}}` is its default "${}". */
  lemma EscapedPairRead()
    ensures Interpolated("${N:-$${}}") == Result("${}", [])
  {
    var arg := Dollar(Lit('{', Lit('}', End)));
    var t := Brace("N", Default(true), arg, End);
    PairReads();
    PairBalances();
    OneBrace("N", Default(true), arg, t);
    DefaultText("$${}");
    assert "${N:-" + "$${}" + "}" == "${N:-$${}}";
    InterpolateIsEval(t);
  }
}
