/** Comparing release by release: walk is silent on equal trees, and two silent steps make a silent one. */
module CrdCompose {
  import opened Wrappers
  import opened CrdSchema
  import opened CrdGuard

  /** walk(s, s) reports nothing, for every tree. */
  lemma {:induction false} WalkReflexive(s: Schema)
    ensures Compatible(s, s)
  {
    if s.Dict? {
      if s.enum_.Some? {
        forall v | v in s.enum_.value ensures PyIn(v, s.enum_.value) {
          var i :| 0 <= i < |s.enum_.value| && s.enum_.value[i] == v;
          assert PyEq(v, s.enum_.value[i]);
        }
      }
      forall k | k in s.properties ensures Compatible(s.properties[k], s.properties[k]) {
        WalkReflexive(s.properties[k]);
      }
      if IsDict(s.items) {
        WalkReflexive(s.items.value);
      }
      if s.additional.Values? {
        WalkReflexive(s.additional.schema);
      }
    }
  }

  /** No node of the middle release is empty or carries a literal additionalProperties: true. */
  ghost predicate Typed(s: Schema) {
    s.Dict? ==>
      && s != EMPTY
      && s.additional != Literal(true)
      && (s.additional.Values? ==> s.additional.schema.Dict? && Typed(s.additional.schema))
      && (forall k | k in s.properties :: Typed(s.properties[k]))
      && (s.items.Some? ==> Typed(s.items.value))
  }

  /**
   No rule of the newest tree widens only a rule that the middle release had itself widened:
   each of its rules is the middle release's own, or the oldest release had it or one it widens.
   */
  ghost predicate NoStackedWidening(a: Schema, b: Schema, c: Schema)
    decreases a
  {
    a.Dict? && b.Dict? && c.Dict? ==>
      && (forall r | r in c.rules :: r in b.rules || CelAccepted(a.rules, r))
      && (forall k | k in a.properties && k in b.properties && k in c.properties ::
            NoStackedWidening(a.properties[k], b.properties[k], c.properties[k]))
      && (IsDict(a.items) && IsDict(b.items) && IsDict(c.items) ==>
            NoStackedWidening(a.items.value, b.items.value, c.items.value))
      && (HasValueSchema(a.additional) && HasValueSchema(b.additional) && HasValueSchema(c.additional) ==>
            NoStackedWidening(a.additional.schema, b.additional.schema, c.additional.schema))
  }

  lemma PatternTransitive(a: Option<string>, b: Option<string>, c: Option<string>)
    requires !PatternBreaks(a, b) && !PatternBreaks(b, c)
    ensures !PatternBreaks(a, c)
  {
    if c.Some? && c != b && b != a {
      assert a.value + "|" <= b.value <= b.value + "|" <= c.value;
    }
  }

  lemma EnumTransitive(a: Schema, b: Schema, c: Schema)
    requires a.Dict? && b.Dict? && c.Dict?
    requires !EnumShrinks(a, b) && !EnumShrinks(b, c) && (c.enum_.Some? ==> b.enum_.Some?)
    ensures !EnumShrinks(a, c)
  {
    if a.enum_.Some? && c.enum_.Some? {
      forall v | v in a.enum_.value ensures PyIn(v, c.enum_.value) {
        assert PyIn(v, b.enum_.value);
        var i :| 0 <= i < |b.enum_.value| && PyEq(v, b.enum_.value[i]);
        assert PyIn(b.enum_.value[i], c.enum_.value);
      }
    }
  }

  lemma NodeTransitive(a: Schema, b: Schema, c: Schema)
    requires a.Dict? && b.Dict? && c.Dict? && b != EMPTY
    requires KeywordsCompatible(a, b) && KeywordsCompatible(b, c)
    requires BoundsCompatible(a, b) && BoundsCompatible(b, c)
    ensures KeywordsCompatible(a, c) && BoundsCompatible(a, c)
  {
    EnumTransitive(a, b, c);
    PatternTransitive(a.pattern, b.pattern, c.pattern);
    forall m ensures !UpperTightens(a, c, m) && !LowerTightens(a, c, m) {
      assert !UpperTightens(a, b, m) && !UpperTightens(b, c, m) && !LowerTightens(a, b, m) && !LowerTightens(b, c, m);
    }
    forall x ensures !CombinatorBreaks(a, c, x) {
      assert !CombinatorBreaks(a, b, x) && !CombinatorBreaks(b, c, x);
    }
  }

  /** Two silent steps compose exactly when no CEL widening was stacked on another. */
  lemma {:induction false} WalkTransitive(a: Schema, b: Schema, c: Schema)
    requires Compatible(a, b) && Compatible(b, c) && Typed(b)
    ensures Compatible(a, c) <==> NoStackedWidening(a, b, c)
    decreases a
  {
    if a.Dict? {
      NodeTransitive(a, b, c);
      forall k | k in a.properties
        ensures k in c.properties
        ensures Compatible(a.properties[k], c.properties[k])
           <==> NoStackedWidening(a.properties[k], b.properties[k], c.properties[k])
      {
        WalkTransitive(a.properties[k], b.properties[k], c.properties[k]);
      }
      if IsDict(a.items) {
        WalkTransitive(a.items.value, b.items.value, c.items.value);
      }
      if HasValueSchema(a.additional) {
        if HasValueSchema(c.additional) {
          WalkTransitive(a.additional.schema, b.additional.schema, c.additional.schema);
        }
      }
    }
  }

  /** Two trees that differ in one rule only are compatible exactly if the rule is accepted. */
  lemma OneRule(o: Schema, n: Schema, before: Rule, after: Rule)
    requires o == EMPTY.(typ := Some("object"), rules := [before]) && n == o.(rules := [after])
    ensures Compatible(o, n) <==> CelAccepted([before], after)
  {
    assert after in [after];
  }

  lemma StackedRules()
    ensures var r := Atom("r"); var er := Or(Atom("e"), r); var fer := Or(Atom("f"), er);
            CelAccepted([r], er) && CelAccepted([er], fer) && !CelAccepted([r], fer)
  {
    var r := Atom("r");
    var er := Or(Atom("e"), r);
    var fer := Or(Atom("f"), er);
    assert [r][0] == r && [er][0] == er;
    assert EndsInOr(er, [r][0]) && EndsInOr(fer, [er][0]) && fer !in [r];
  }

  /** A concrete stack: each step only widens, yet the two together are reported. */
  lemma StackedWideningReported()
    ensures var a := EMPTY.(typ := Some("object"), rules := [Atom("r")]);
            var b := a.(rules := [Or(Atom("e"), Atom("r"))]);
            var c := a.(rules := [Or(Atom("f"), Or(Atom("e"), Atom("r")))]);
            Compatible(a, b) && Compatible(b, c) && Typed(b) && !Compatible(a, c)
  {
    var a := EMPTY.(typ := Some("object"), rules := [Atom("r")]);
    var b := a.(rules := [Or(Atom("e"), Atom("r"))]);
    var c := a.(rules := [Or(Atom("f"), Or(Atom("e"), Atom("r")))]);
    StackedRules();
    OneRule(a, b, Atom("r"), Or(Atom("e"), Atom("r")));
    OneRule(b, c, Or(Atom("e"), Atom("r")), Or(Atom("f"), Or(Atom("e"), Atom("r"))));
    OneRule(a, c, Atom("r"), Or(Atom("f"), Or(Atom("e"), Atom("r"))));
  }

  /** An empty node in the middle release hides a change of type from both comparisons. */
  lemma EmptyMiddleHidesChange()
    ensures var a, c := EMPTY.(typ := Some("string")), EMPTY.(typ := Some("integer"));
            Compatible(a, EMPTY) && Compatible(EMPTY, c) && !Compatible(a, c)
  {
  }

  /** A literal additionalProperties: true there hides the removal of a value schema. */
  lemma LiteralTrueMiddleHidesChange(values: Schema)
    requires values.Dict?
    ensures var a, b := EMPTY.(additional := Values(values)), EMPTY.(additional := Literal(true));
            Compatible(a, b) && Compatible(b, EMPTY) && !Compatible(a, EMPTY)
  {
    var a, b := EMPTY.(additional := Values(values)), EMPTY.(additional := Literal(true));
    assert AdditionalCompatible(a, b) && AdditionalCompatible(b, EMPTY) && !AdditionalCompatible(a, EMPTY);
  }
}
