/** Slugs: compose/mapping.go (slugify) and its twin, coolify/mapping.go (SlugifyName). */
module Slug {
  import opened Strings

  const UNNAMED: string := "x-unnamed"

  predicate IsAlnum(c: char) {
    'a' <= c <= 'z' || '0' <= c <= '9'
  }

  predicate IsDash(c: char) {
    c == '-'
  }

  function Normalize(s: string): string {
    ToLower(TrimSpace(s))
  }

  // ----- slugify and SlugifyName -----

  /** The builder loop: letters and digits are copied, a run of anything else becomes one dash. */
  function Collapse(s: string, prevDash: bool): string {
    if s == "" then ""
    else if IsAlnum(s[0]) then [s[0]] + Collapse(s[1..], false)
    else (if prevDash then "" else "-") + Collapse(s[1..], true)
  }

  function Clamp(res: string): string {
    if |res| > 50 then Trim(res[..50], IsDash) else res
  }

  function SlugOf(s: string): string {
    var n := Normalize(s);
    if n == "" then UNNAMED
    else
      var res := Trim(Collapse(n, true), IsDash);
      if res == "" then UNNAMED else Clamp(res)
  }

  function SlugOfName(s: string): string {
    var n := Normalize(s);
    if n == "" then UNNAMED
    else
      var res := Clamp(Trim(Collapse(n, true), IsDash));
      if res == "" then UNNAMED else res
  }

  lemma CollapseStep(s: string, i: nat, prevDash: bool, out: string)
    requires i < |s|
    ensures var piece := if IsAlnum(s[i]) then [s[i]] else if prevDash then "" else "-";
            out + Collapse(s[i..], prevDash) == (out + piece) + Collapse(s[i + 1..], !IsAlnum(s[i]))
  {
    assert s[i..][1..] == s[i + 1..];
    var piece := if IsAlnum(s[i]) then [s[i]] else if prevDash then "" else "-";
    var tail := Collapse(s[i + 1..], !IsAlnum(s[i]));
    assert Collapse(s[i..], prevDash) == piece + tail;
    assert out + (piece + tail) == (out + piece) + tail;
  }

  method CollapseLoop(s: string) returns (out: string)
    ensures out == Collapse(s, true)
  {
    out := "";
    var prevDash := true;
    assert s[0..] == s;
    for i := 0 to |s|
      invariant out + Collapse(s[i..], prevDash) == Collapse(s, true)
    {
      CollapseStep(s, i, prevDash, out);
      assert out + "" == out;
      if IsAlnum(s[i]) {
        out := out + [s[i]];
        prevDash := false;
      } else if !prevDash {
        out := out + "-";
        prevDash := true;
      }
    }
  }

  method Slugify(s: string) returns (res: string)
    ensures res == SlugOf(s)
  {
    var n := Normalize(s);
    if n == "" {
      return UNNAMED;
    }
    var out := CollapseLoop(n);
    var trimmed := Trim(out, IsDash);
    if trimmed == "" {
      return UNNAMED;
    }
    res := if |trimmed| > 50 then Trim(trimmed[..50], IsDash) else trimmed;
    assert res == Clamp(trimmed);
  }

  method SlugifyName(s: string) returns (res: string)
    ensures res == SlugOfName(s)
  {
    var n := Normalize(s);
    if n == "" {
      return UNNAMED;
    }
    var out := CollapseLoop(n);
    var trimmed := Trim(out, IsDash);
    res := if |trimmed| > 50 then Trim(trimmed[..50], IsDash) else trimmed;
    assert res == Clamp(trimmed);
    if res == "" {
      res := UNNAMED;
    }
  }

  /** The maximal runs of letters and digits, in order. */
  function Words(s: string): seq<string>
    decreases |s|
  {
    if s == "" then []
    else if IsAlnum(s[0]) then
      var n := Run(s);
      [s[..n]] + Words(s[n..])
    else Words(s[1..])
  }

  function Run(s: string): (n: nat)
    ensures n <= |s| && (s != "" && IsAlnum(s[0]) ==> n > 0)
    ensures forall i | 0 <= i < n :: IsAlnum(s[i])
    ensures n < |s| ==> !IsAlnum(s[n])
  {
    if s != "" && IsAlnum(s[0]) then 1 + Run(s[1..]) else 0
  }

  function Join(words: seq<string>): string {
    if words == [] then "" else if |words| == 1 then words[0] else words[0] + "-" + Join(words[1..])
  }

  lemma {:induction false} WordCopied(w: string, rest: string, prevDash: bool)
    requires w != "" && forall i | 0 <= i < |w| :: IsAlnum(w[i])
    ensures Collapse(w + rest, prevDash) == w + Collapse(rest, false)
  {
    var tail := Collapse(rest, false);
    assert (w + rest)[1..] == w[1..] + rest;
    if |w| == 1 {
      assert w[1..] + rest == rest;
    } else {
      WordCopied(w[1..], rest, false);
      assert [w[0]] + (w[1..] + tail) == w + tail;
    }
  }

  lemma CollapseRun(s: string, prevDash: bool)
    requires Run(s) > 0
    ensures Collapse(s, prevDash) == s[..Run(s)] + Collapse(s[Run(s)..], false)
  {
    assert s == s[..Run(s)] + s[Run(s)..];
    WordCopied(s[..Run(s)], s[Run(s)..], prevDash);
  }

  /** Two case foldings that agree on which characters become letters or digits, and which, give one collapsed text. */
  lemma {:induction false} FoldingDecides(s: string, lower: char -> char, prevDash: bool)
    requires forall c | IsAlnum(lower(c)) || IsAlnum(LowerChar(c)) :: lower(c) == LowerChar(c)
    ensures Collapse(seq(|s|, i requires 0 <= i < |s| => lower(s[i])), prevDash) == Collapse(ToLower(s), prevDash)
    decreases |s|
  {
    if s != "" {
      var t, u := seq(|s|, i requires 0 <= i < |s| => lower(s[i])), ToLower(s);
      var rest := s[1..];
      assert t[1..] == seq(|rest|, i requires 0 <= i < |rest| => lower(rest[i]));
      assert u[1..] == ToLower(rest);
      FoldingDecides(rest, lower, !IsAlnum(t[0]));
    }
  }

  predicate EndsInDash(s: string) {
    s != "" && !IsAlnum(s[|s| - 1])
  }

  /** One word off the front, and the separator after it. */
  lemma WordStep(s: string)
    requires s != "" && IsAlnum(s[0])
    ensures Run(s) == |s| ==> Words(s) == [s] && Collapse(s, true) == s
    ensures Run(s) < |s| ==>
              var w, rest := s[..Run(s)], s[Run(s) + 1..];
              && Words(s) == [w] + Words(rest)
              && Collapse(s, true) == w + "-" + Collapse(rest, true)
              && (EndsInDash(s) <==> rest == "" || EndsInDash(rest))
  {
    var n := Run(s);
    CollapseRun(s, true);
    var t := s[n..];
    if n == |s| {
      assert s[..n] == s && t == "" && Words(t) == [];
      assert s + "" == s;
    } else {
      assert t[1..] == s[n + 1..];
      assert Collapse(t, false) == "-" + Collapse(t[1..], true);
      assert Words(t) == Words(t[1..]);
      assert s[..n] + ("-" + Collapse(t[1..], true)) == s[..n] + "-" + Collapse(t[1..], true);
    }
  }

  /** The collapsed text is the words joined by dashes, with one more dash if the text ends outside a word. */
  predicate CollapsesToJoin(s: string) {
    Collapse(s, true) == Join(Words(s)) + (if Words(s) != [] && EndsInDash(s) then "-" else "")
  }

  lemma WordThenRest(s: string)
    requires s != "" && IsAlnum(s[0]) && (Run(s) < |s| ==> CollapsesToJoin(s[Run(s) + 1..]))
    ensures CollapsesToJoin(s)
  {
    WordStep(s);
    var n := Run(s);
    if n < |s| {
      var rest := s[n + 1..];
      JoinStep(s[..n], Words(rest), if EndsInDash(rest) then "-" else "");
      if Words(rest) == [] {
        NoWords(rest);
      }
    } else {
      assert Join([s]) + "" == s;
    }
  }

  lemma SeparatorThenRest(s: string)
    requires s != "" && !IsAlnum(s[0]) && CollapsesToJoin(s[1..])
    ensures CollapsesToJoin(s)
  {
    assert Words(s) != [] ==> s[1..] != "";
  }

  /** So the loop does, for every text. */
  lemma {:induction false} CollapseIsJoin(s: string)
    ensures CollapsesToJoin(s)
    decreases |s|
  {
    if s == "" {
    } else if IsAlnum(s[0]) {
      if Run(s) < |s| {
        CollapseIsJoin(s[Run(s) + 1..]);
      }
      WordThenRest(s);
    } else {
      CollapseIsJoin(s[1..]);
      SeparatorThenRest(s);
    }
  }

  lemma JoinStep(w: string, words: seq<string>, tail: string)
    ensures words == [] ==> Join([w] + words) == w
    ensures words != [] ==> Join([w] + words) + tail == w + "-" + (Join(words) + tail)
  {
    assert ([w] + words)[1..] == words;
    if words != [] {
      assert Join([w] + words) == w + "-" + Join(words);
      assert (w + "-" + Join(words)) + tail == w + "-" + (Join(words) + tail);
    }
  }

  lemma {:induction false} NoWords(s: string)
    requires Words(s) == []
    ensures forall i | 0 <= i < |s| :: !IsAlnum(s[i])
    decreases |s|
  {
    if s != "" {
      NoWords(s[1..]);
    }
  }

  predicate IsWord(w: string) {
    w != "" && forall i | 0 <= i < |w| :: IsAlnum(w[i])
  }

  lemma {:induction false} WordsAreWords(s: string)
    ensures forall w | w in Words(s) :: IsWord(w)
    decreases |s|
  {
    if s != "" {
      if IsAlnum(s[0]) {
        WordsAreWords(s[Run(s)..]);
      } else {
        WordsAreWords(s[1..]);
      }
    }
  }

  /** Only letters, digits and single inner dashes. */
  predicate Dashed(r: string) {
    && (forall i | 0 <= i < |r| :: IsAlnum(r[i]) || r[i] == '-')
    && (forall i | 0 <= i < |r| - 1 :: r[i] == '-' ==> r[i + 1] != '-')
    && (r != "" ==> r[0] != '-' && r[|r| - 1] != '-')
  }

  lemma DashedStep(w: string, rest: string)
    requires IsWord(w) && Dashed(rest) && rest != ""
    ensures Dashed(w + "-" + rest)
  {
    var x, n := w + "-" + rest, |w| + 1;
    assert forall i | 0 <= i < |w| :: x[i] == w[i] && IsAlnum(x[i]);
    assert x[|w|] == '-';
    assert forall i | n <= i < |x| :: x[i] == rest[i - n];
    assert x[n] == rest[0];
    forall i | 0 <= i < |x| - 1 && x[i] == '-' ensures x[i + 1] != '-' {
      if i >= n {
        assert rest[i - n] == '-' && x[i + 1] == rest[i - n + 1];
      }
    }
    assert x[|x| - 1] == rest[|rest| - 1];
  }

  lemma WordDashed(w: string)
    requires IsWord(w)
    ensures Dashed(w)
  {
    assert forall i | 0 <= i < |w| :: w[i] != '-';
  }

  lemma {:induction false} JoinDashed(words: seq<string>)
    requires forall w | w in words :: IsWord(w)
    ensures Dashed(Join(words))
    ensures words != [] ==> Join(words) != ""
  {
    if |words| == 1 {
      WordDashed(words[0]);
    } else if |words| > 1 {
      JoinDashed(words[1..]);
      DashedStep(words[0], Join(words[1..]));
    }
  }

  lemma TrimDashed(r: string, tail: string)
    requires Dashed(r) && (forall i | 0 <= i < |tail| :: tail[i] == '-') && (r == "" ==> tail == "")
    ensures Trim(r + tail, IsDash) == r
  {
    if r != "" {
      assert (r + tail)[0] == r[0];
      assert TrimLeft(r + tail, IsDash) == r + tail;
      var t := TrimRight(r + tail, IsDash);
      assert (r + tail)[|r| - 1] == r[|r| - 1];
      assert forall i | |r| <= i < |r + tail| :: (r + tail)[i] == '-';
      assert t == (r + tail)[..|t|];
    }
  }

  lemma ClampDashed(r: string)
    requires Dashed(r) && r != ""
    ensures Dashed(Clamp(r)) && Clamp(r) != "" && |Clamp(r)| <= 50
    ensures Clamp(r) <= r && |Clamp(r)| >= (if |r| > 50 then 49 else |r|)
  {
    if |r| > 50 {
      var p := r[..50];
      assert TrimLeft(p, IsDash) == p;
      assert p[48] == r[48] && p[49] == r[49];
      assert !IsDash(p[48]) || !IsDash(p[49]);
    }
  }

  /** What both functions compute: the words joined by single dashes, cut to at most 50 characters. */
  lemma SlugIsJoin(s: string)
    ensures var ws := Words(Normalize(s));
            SlugOf(s) == SlugOfName(s) == if ws == [] then UNNAMED else Clamp(Join(ws))
  {
    var n := Normalize(s);
    var ws := Words(n);
    CollapseIsJoin(n);
    WordsAreWords(n);
    JoinDashed(ws);
    var tail := if ws != [] && EndsInDash(n) then "-" else "";
    TrimDashed(Join(ws), tail);
    if ws != [] {
      ClampDashed(Join(ws));
    }
  }

  /** A name kuso can use as it is: 1 to 50 characters, no dash at either end and none doubled. */
  predicate Normal(r: string) {
    1 <= |r| <= 50 && Dashed(r)
  }

  lemma ClampNormal(ws: seq<string>)
    requires ws != [] && forall w | w in ws :: IsWord(w)
    ensures Normal(Clamp(Join(ws)))
  {
    JoinDashed(ws);
    ClampDashed(Join(ws));
  }

  lemma UnnamedNormal()
    ensures Normal(UNNAMED)
  {
  }

  lemma SlugNormal(s: string)
    ensures Normal(SlugOf(s))
  {
    var ws := Words(Normalize(s));
    SlugIsJoin(s);
    WordsAreWords(Normalize(s));
    if ws == [] {
      UnnamedNormal();
    } else {
      ClampNormal(ws);
    }
  }

  lemma {:induction false} CollapseDashed(r: string, prevDash: bool)
    requires forall i | 0 <= i < |r| :: IsAlnum(r[i]) || r[i] == '-'
    requires forall i | 0 <= i < |r| - 1 :: r[i] == '-' ==> r[i + 1] != '-'
    requires r != "" && r[0] == '-' ==> !prevDash
    ensures Collapse(r, prevDash) == r
  {
    if r != "" {
      assert r == [r[0]] + r[1..];
      CollapseDashed(r[1..], r[0] == '-');
    }
  }

  lemma TrimSpaceFixed(r: string)
    requires r != "" && !IsSpace(r[0]) && !IsSpace(r[|r| - 1])
    ensures TrimSpace(r) == r
  {
  }

  lemma LowerFixed(r: string)
    requires forall i | 0 <= i < |r| :: IsAlnum(r[i]) || r[i] == '-'
    ensures ToLower(r) == r
  {
    assert forall i | 0 <= i < |r| :: LowerChar(r[i]) == r[i];
  }

  lemma NormalNormalized(r: string)
    requires Normal(r)
    ensures Normalize(r) == r
  {
    TrimSpaceFixed(r);
    LowerFixed(r);
  }

  lemma NormalCollapsed(r: string)
    requires Normal(r)
    ensures Trim(Collapse(r, true), IsDash) == r
  {
    CollapseDashed(r, true);
    TrimDashed(r, "");
    assert r + "" == r;
  }

  /** The slugs are exactly the normal names, and each is its own slug. */
  lemma SlugFixed(r: string)
    ensures Normal(r) <==> SlugOf(r) == r
  {
    if Normal(r) {
      NormalNormalized(r);
      NormalCollapsed(r);
    } else {
      SlugNormal(r);
    }
  }
}
