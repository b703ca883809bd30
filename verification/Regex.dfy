/**
 Regular-expression text as hack/crd-guard.py sees it: escapes, character classes,
 groups and top-level alternatives.
 */
module Regex {
  import opened Strings

  /** A left-to-right reader's position: group depth, inside which part of a class, after a backslash. */
  datatype Class = Outside | Opened | Negated | Inside
  datatype State = State(depth: nat, cls: Class, escaped: bool)

  const START := State(0, Outside, false)

  function Step(st: State, c: char): State {
    if st.escaped then
      st.(escaped := false, cls := if st.cls.Outside? then Outside else Inside)
    else if c == '\\' then
      st.(escaped := true)
    else
      match st.cls
      case Outside =>
        if c == '[' then st.(cls := Opened)
        else if c == '(' then st.(depth := st.depth + 1)
        else if c == ')' && st.depth > 0 then st.(depth := st.depth - 1)
        else st
      case Opened => st.(cls := if c == '^' then Negated else Inside)
      case Negated => st.(cls := Inside)  // a ']' that comes first is an ordinary character
      case Inside => if c == ']' then st.(cls := Outside) else st
  }

  function Run(st: State, p: string): State
    decreases |p|
  {
    if p == "" then st else Run(Step(st, p[0]), p[1..])
  }

  /** Every group and every class of the text is closed. */
  predicate Balanced(p: string) {
    Run(START, p).depth == 0 && Run(START, p).cls.Outside?
  }

  predicate Splits(st: State, c: char) {
    st == START && c == '|'
  }

  /** The text cut at each top-level '|'; `acc` is the alternative being read. */
  function Alternatives(st: State, acc: string, p: string): seq<string>
    decreases |p|
  {
    if p == "" then [acc]
    else if Splits(st, p[0]) then [acc] + Alternatives(START, "", p[1..])
    else Alternatives(Step(st, p[0]), acc + [p[0]], p[1..])
  }

  /** A text matches when one of its top-level alternatives does. */
  ghost predicate Matches(alternative: (string, string) -> bool, p: string, s: string) {
    exists a :: a in Alternatives(START, "", p) && alternative(a, s)
  }

  // ----- the guard's widening test -----

  predicate IsBackslash(c: char) {
    c == '\\'
  }

  function Trailing(p: string): nat {
    |p| - |TrimRight(p, IsBackslash)|
  }

  predicate Widened(old_: string, new_: string) {
    Trailing(old_) % 2 == 0 && old_ + "|" <= new_
  }

  lemma {:induction false} RunSnoc(st: State, p: string, c: char)
    ensures Run(st, p + [c]) == Step(Run(st, p), c)
    decreases |p|
  {
    if p != "" {
      assert (p + [c])[1..] == p[1..] + [c];
      RunSnoc(Step(st, p[0]), p[1..], c);
    }
  }

  /** A reader ends up holding a live backslash exactly when the text's trailing run of backslashes is odd. */
  lemma {:induction false} EscapeParity(p: string)
    ensures Run(START, p).escaped <==> Trailing(p) % 2 == 1
    decreases |p|
  {
    if p != "" {
      var q, c := p[..|p| - 1], p[|p| - 1];
      assert p == q + [c];
      RunSnoc(START, q, c);
      EscapeParity(q);
      if c == '\\' {
        assert Trailing(p) == Trailing(q) + 1;
      }
    }
  }

  /** With groups and classes closed, the guard's parity test decides whether a '|' put next is a top-level one. */
  lemma WidenedExact(p: string)
    requires Balanced(p)
    ensures Splits(Run(START, p), '|') <==> Trailing(p) % 2 == 0
  {
    EscapeParity(p);
  }

  lemma {:induction false} AlternativesAppend(st: State, acc: string, p: string, r: string)
    requires Run(st, p) == START
    ensures Alternatives(st, acc, p + "|" + r) == Alternatives(st, acc, p) + Alternatives(START, "", r)
    decreases |p|
  {
    if p == "" {
      assert p + "|" + r == "|" + r;
      assert ("|" + r)[1..] == r;
    } else {
      assert (p + "|" + r)[1..] == p[1..] + "|" + r;
      if Splits(st, p[0]) {
        AlternativesAppend(START, "", p[1..], r);
      } else {
        AlternativesAppend(Step(st, p[0]), acc + [p[0]], p[1..], r);
      }
    }
  }

  /** A widened pattern keeps every alternative of the old one, in order, and only adds to them. */
  lemma WidenedKeepsAlternatives(old_: string, new_: string)
    requires Balanced(old_) && Widened(old_, new_)
    ensures Alternatives(START, "", new_)
         == Alternatives(START, "", old_) + Alternatives(START, "", new_[|old_| + 1..])
  {
    WidenedExact(old_);
    assert new_ == old_ + "|" + new_[|old_| + 1..];
    AlternativesAppend(START, "", old_, new_[|old_| + 1..]);
  }

  lemma WidenedAcceptsMore(alternative: (string, string) -> bool, old_: string, new_: string, s: string)
    requires Balanced(old_) && Widened(old_, new_)
    requires Matches(alternative, old_, s)
    ensures Matches(alternative, new_, s)
  {
    WidenedKeepsAlternatives(old_, new_);
  }

  /** Every alternative but the last leaves a reader where it started, and the last leaves it where the text does. */
  lemma {:induction false} AlternativesRun(st: State, acc: string, p: string)
    requires Run(START, acc) == st
    ensures var all := Alternatives(st, acc, p);
            && all != [] && Run(START, all[|all| - 1]) == Run(st, p)
            && forall i | 0 <= i < |all| - 1 :: Run(START, all[i]) == START
    decreases |p|
  {
    if p != "" {
      if Splits(st, p[0]) {
        AlternativesRun(START, "", p[1..]);
      } else {
        RunSnoc(START, acc, p[0]);
        AlternativesRun(Step(st, p[0]), acc + [p[0]], p[1..]);
      }
    }
  }

  /** A '|' that is no top-level one only makes the last alternative longer. */
  lemma {:induction false} BarSwallowed(st: State, acc: string, p: string)
    requires Run(st, p) != START
    ensures var all := Alternatives(st, acc, p);
            all != [] && Alternatives(st, acc, p + "|") == all[..|all| - 1] + [all[|all| - 1] + "|"]
    decreases |p|
  {
    if p == "" {
      assert (p + "|")[1..] == "" && [acc][..0] == [];
    } else {
      assert (p + "|")[1..] == p[1..] + "|";
      if Splits(st, p[0]) {
        BarSwallowed(START, "", p[1..]);
        var rest := Alternatives(START, "", p[1..]);
        assert ([acc] + rest)[..|rest|] == [acc] + rest[..|rest| - 1];
      } else {
        BarSwallowed(Step(st, p[0]), acc + [p[0]], p[1..]);
      }
    }
  }

  /** Whatever the old pattern accepts, every widening of it accepts, under every reading of single alternatives. */
  ghost predicate WideningHolds(old_: string) {
    forall new_, alternative, s | Widened(old_, new_) && Matches(alternative, old_, s) :: Matches(alternative, new_, s)
  }

  lemma WideningFails(old_: string, last: string)
    requires Trailing(old_) % 2 == 0 && !Balanced(old_)
    requires last in Alternatives(START, "", old_) && last !in Alternatives(START, "", old_ + "|")
    ensures !WideningHolds(old_)
  {
    var only: (string, string) -> bool := (a, s) => a == last;
    assert Widened(old_, old_ + "|");
    assert Matches(only, old_, "") && !Matches(only, old_ + "|", "");
  }

  /**
   Whatever passes the guard's test is a widening exactly if every group and every class of the old pattern is
   closed, or its trailing backslashes let nothing pass.
   */
  lemma PatternWideningExact(old_: string)
    ensures WideningHolds(old_) <==> Balanced(old_) || Trailing(old_) % 2 == 1
  {
    if Balanced(old_) {
      forall new_, alternative, s | Widened(old_, new_) && Matches(alternative, old_, s)
        ensures Matches(alternative, new_, s)
      {
        WidenedAcceptsMore(alternative, old_, new_, s);
      }
    } else if Trailing(old_) % 2 == 0 {
      var all := Alternatives(START, "", old_);
      AlternativesRun(START, "", old_);
      BarSwallowed(START, "", old_);
      var last, more := all[|all| - 1], Alternatives(START, "", old_ + "|");
      forall i | 0 <= i < |more| ensures more[i] != last {
        if i < |all| - 1 {
          assert Run(START, more[i]) == START;
        } else {
          assert more[i] == last + "|";
        }
      }
      WideningFails(old_, last);
    }
  }
}
