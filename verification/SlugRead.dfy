/** Slugs by their characters: what compose/mapping.go and coolify/mapping.go make of letters, digits and the rest. */
module SlugRead {
  import opened Strings
  import opened Slug

  /** An ASCII letter or digit, by its code. */
  predicate IsPlainChar(c: char) {
    48 <= c as int <= 57 || 65 <= c as int <= 90 || 97 <= c as int <= 122
  }

  predicate AllPlain(s: string) {
    forall i | 0 <= i < |s| :: IsPlainChar(s[i])
  }

  /** No ASCII letter or digit, and neither of the two characters whose lower case is one. */
  predicate IsSeparator(c: char) {
    !IsPlainChar(c) && c != '\U{0130}' && c != '\U{212A}'
  }

  predicate AllSeparators(s: string) {
    forall i | 0 <= i < |s| :: IsSeparator(s[i])
  }

  /** Each letter and its lower case lie 32 codes apart; digits are their own. */
  lemma LowerCodes(c: char)
    requires IsPlainChar(c)
    ensures LowerChar(c) as int == if 65 <= c as int <= 90 then c as int + 32 else c as int
    ensures IsAlnum(LowerChar(c)) && !IsSpace(c)
  {
  }

  lemma SeparatorCodes(c: char)
    requires IsSeparator(c)
    ensures !IsAlnum(LowerChar(c))
  {
  }

  /** A slug's characters, by their codes: digits, lower-case letters and the dash. */
  lemma SlugAlphabet(s: string, i: nat)
    requires i < |SlugOf(s)|
    ensures var c := SlugOf(s)[i] as int; 48 <= c <= 57 || 97 <= c <= 122 || c == 45
  {
    SlugNormal(s);
    assert Dashed(SlugOf(s));
  }

  lemma PlainNormalized(s: string)
    requires AllPlain(s)
    ensures Normalize(s) == ToLower(s)
    ensures forall i | 0 <= i < |s| :: IsAlnum(ToLower(s)[i])
  {
    forall i | 0 <= i < |s| ensures IsAlnum(ToLower(s)[i]) && !IsSpace(s[i]) {
      LowerCodes(s[i]);
    }
    assert s[0..] == s;
  }

  lemma OneWord(w: string)
    requires IsWord(w)
    ensures Words(w) == [w]
  {
    assert Run(w) == |w|;
    assert w[..|w|] == w && w[|w|..] == "";
  }

  lemma WordThen(w: string, rest: string)
    requires IsWord(w) && (rest != "" ==> !IsAlnum(rest[0]))
    ensures Words(w + rest) == [w] + Words(rest)
  {
    var s := w + rest;
    assert forall i | 0 <= i < |w| :: s[i] == w[i];
    assert rest != "" ==> s[|w|] == rest[0];
    assert Run(s) == |w|;
    assert s[..|w|] == w && s[|w|..] == rest;
  }

  lemma {:induction false} SeparatorsSkipped(sep: string, rest: string)
    requires forall i | 0 <= i < |sep| :: !IsAlnum(sep[i])
    ensures Words(sep + rest) == Words(rest)
    decreases |sep|
  {
    if sep == "" {
      assert sep + rest == rest;
    } else {
      assert (sep + rest)[1..] == sep[1..] + rest;
      SeparatorsSkipped(sep[1..], rest);
    }
  }

  /** A text of letters and digits is its own slug, in lower case, cut to 50 characters. */
  lemma SlugOfWord(s: string)
    requires s != "" && AllPlain(s)
    ensures SlugOf(s) == if |s| <= 50 then ToLower(s) else ToLower(s)[..50]
  {
    var w := ToLower(s);
    PlainNormalized(s);
    OneWord(w);
    SlugIsJoin(s);
    if |s| > 50 {
      assert TrimLeft(w[..50], IsDash) == w[..50];
    }
  }

  lemma JoinTwo(a: string, b: string)
    ensures Join([a, b]) == a + ("-" + b)
  {
    JoinStep(a, [b], "");
    assert [a] + [b] == [a, b] && Join([b]) == b;
    assert a + "-" + (b + "") == a + ("-" + b) && Join([a, b]) + "" == Join([a, b]);
  }

  lemma TwoWords(a: string, sep: string, b: string)
    requires IsWord(a) && IsWord(b) && sep != "" && forall i | 0 <= i < |sep| :: !IsAlnum(sep[i])
    ensures Words(a + (sep + b)) == [a] + [b]
  {
    assert (sep + b)[0] == sep[0];
    WordThen(a, sep + b);
    SeparatorsSkipped(sep, b);
    OneWord(b);
  }

  lemma LowerSeparators(sep: string)
    requires AllSeparators(sep)
    ensures forall i | 0 <= i < |sep| :: !IsAlnum(ToLower(sep)[i])
  {
    forall i | 0 <= i < |sep| ensures !IsAlnum(ToLower(sep)[i]) {
      SeparatorCodes(sep[i]);
    }
  }

  lemma LowerSum(a: string, b: string)
    ensures ToLower(a + b) == ToLower(a) + ToLower(b)
  {
  }

  lemma Untrimmed(s: string, first: char, last: char)
    requires s != "" && s[0] == first && s[|s| - 1] == last && IsPlainChar(first) && IsPlainChar(last)
    ensures Normalize(s) == ToLower(s)
  {
    LowerCodes(first);
    LowerCodes(last);
    TrimSpaceFixed(s);
  }

  /** Whatever stands between two words, with or without white space around it, becomes one dash. */
  lemma SlugOfTwo(a: string, sep: string, b: string)
    requires a != "" && AllPlain(a) && b != "" && AllPlain(b) && sep != "" && AllSeparators(sep)
    requires |a| + 1 + |b| <= 50
    ensures SlugOf(a + (sep + b)) == ToLower(a) + ("-" + ToLower(b))
  {
    PlainNormalized(a);
    PlainNormalized(b);
    LowerSeparators(sep);
    TwoWords(ToLower(a), ToLower(sep), ToLower(b));
    JoinTwo(ToLower(a), ToLower(b));
    assert [ToLower(a)] + [ToLower(b)] == [ToLower(a), ToLower(b)];
    LowerSum(sep, b);
    LowerSum(a, sep + b);
    Untrimmed(a + (sep + b), a[0], b[|b| - 1]);
    SlugIsJoin(a + (sep + b));
  }

  lemma {:induction false} NothingLeft(s: string)
    requires AllSeparators(s)
    ensures Words(ToLower(s)) == []
  {
    var t := ToLower(s);
    forall i | 0 <= i < |t| ensures !IsAlnum(t[i]) {
      SeparatorCodes(s[i]);
    }
    assert t + "" == t;
    SeparatorsSkipped(t, "");
  }

  lemma PartSeparates(s: string, i: nat, j: nat)
    requires i <= j <= |s| && AllSeparators(s)
    ensures AllSeparators(s[i..j])
  {
  }

  lemma SeparatorsTrimmed(s: string)
    requires AllSeparators(s)
    ensures AllSeparators(TrimSpace(s))
  {
    var l := TrimLeft(s, IsSpace);
    PartSeparates(s, |s| - |l|, |s|);
    PartSeparates(l, 0, |TrimRight(l, IsSpace)|);
  }

  /** A text without a letter or a digit is named x-unnamed. */
  lemma SlugOfNone(s: string)
    requires AllSeparators(s)
    ensures SlugOf(s) == "x-unnamed"
  {
    SeparatorsTrimmed(s);
    NothingLeft(TrimSpace(s));
    SlugIsJoin(s);
  }

  lemma LowerSpaces(c: char)
    ensures IsSpace(LowerChar(c)) <==> IsSpace(c)
  {
  }

  lemma {:induction false} LowerTrimsLeft(s: string)
    ensures TrimLeft(ToLower(s), IsSpace) == ToLower(TrimLeft(s, IsSpace))
    decreases |s|
  {
    if s != "" {
      LowerSpaces(s[0]);
      if IsSpace(s[0]) {
        assert ToLower(s)[1..] == ToLower(s[1..]);
        LowerTrimsLeft(s[1..]);
      }
    }
  }

  lemma {:induction false} LowerTrimsRight(s: string)
    ensures TrimRight(ToLower(s), IsSpace) == ToLower(TrimRight(s, IsSpace))
    decreases |s|
  {
    if s != "" {
      var n := |s| - 1;
      LowerSpaces(s[n]);
      if IsSpace(s[n]) {
        assert ToLower(s)[..n] == ToLower(s[..n]);
        LowerTrimsRight(s[..n]);
      }
    }
  }

  lemma TrimsLower(s: string)
    ensures Normalize(s) == TrimSpace(ToLower(s))
  {
    LowerTrimsLeft(s);
    LowerTrimsRight(TrimLeft(s, IsSpace));
  }

  /** Letter case makes no difference to a slug. */
  lemma SlugCaseless(s: string, t: string)
    requires ToLower(s) == ToLower(t)
    ensures SlugOf(s) == SlugOf(t)
  {
    TrimsLower(s);
    TrimsLower(t);
  }

  lemma FrontTrimmed(before: string, rest: string)
    requires (forall i | 0 <= i < |before| :: IsSpace(before[i])) && rest != "" && !IsSpace(rest[0])
    ensures TrimLeft(before + rest, IsSpace) == rest
  {
    var x := before + rest;
    var n := |x| - |TrimLeft(x, IsSpace)|;
    assert x[|before|] == rest[0];
    assert n <= |before|;
    assert x[|before|..] == rest;
  }

  lemma BackTrimmed(s: string, after: string)
    requires (forall i | 0 <= i < |after| :: IsSpace(after[i])) && s != "" && !IsSpace(s[|s| - 1])
    ensures TrimRight(s + after, IsSpace) == s
  {
    var x := s + after;
    var n := |TrimRight(x, IsSpace)|;
    assert x[|s| - 1] == s[|s| - 1];
    assert n >= |s|;
    assert x[..|s|] == s;
  }

  /** Neither does white space around the text. */
  lemma SlugUnspaced(before: string, s: string, after: string)
    requires forall i | 0 <= i < |before| :: IsSpace(before[i])
    requires forall i | 0 <= i < |after| :: IsSpace(after[i])
    requires s != "" && !IsSpace(s[0]) && !IsSpace(s[|s| - 1])
    ensures SlugOf(before + (s + after)) == SlugOf(s)
  {
    assert (s + after)[0] == s[0];
    FrontTrimmed(before, s + after);
    BackTrimmed(s, after);
    TrimSpaceFixed(s);
  }
}
