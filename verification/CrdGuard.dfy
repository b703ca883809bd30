/**
 hack/crd-guard.py: walk and its helpers, appending to a shared list of problems.

 Each method is specified by the set of problems it adds; Compatible says, as one
 predicate over the two trees, when that set is empty.
 */
module CrdGuard {
  import opened Wrappers
  import opened CrdSchema
  import opened Lists
  import Regex

  datatype Kind =
    | SchemaNodeRemoved
    | TypeChanged
    | TypeAdded
    | IntOrStringRemoved
    | ListTypeChanged
    | MapKeysChanged
    | CombinatorChanged(combinator: Combinator)
    | EnumValuesRemoved
    | EnumAdded
    | DefaultRemoved
    | DefaultChanged
    | NewlyRequired(names: set<string>)
    | PreserveRemoved
    | UpperTightened(measure: Measure)
    | LowerTightened(measure: Measure)
    | ExclusiveMaximumAdded
    | ExclusiveMinimumAdded
    | PatternChanged
    | FormatChanged
    | NullableRemoved
    | NewRule(rule: Rule)
    | FieldRemoved
    | ItemsRemoved
    | AdditionalDisallowed
    | AdditionalRemoved
    | AdditionalAdded
    | IdentityChanged
    | VersionRemoved
    | ServedFlipped

  datatype Problem = Problem(path: string, kind: Kind)

  /** `list`, with one more problem if cond holds. */
  function Report(list: seq<Problem>, cond: bool, path: string, kind: Kind): seq<Problem> {
    if cond then list + [Problem(path, kind)] else list
  }

  // ----- the tests at one node -----

  predicate UpperTightens(o: Schema, n: Schema, m: Measure)
    requires o.Dict? && n.Dict?
  {
    m in n.upper && (m !in o.upper || n.upper[m] < o.upper[m])
  }

  predicate LowerTightens(o: Schema, n: Schema, m: Measure)
    requires o.Dict? && n.Dict?
  {
    m in n.lower && (m !in o.lower || n.lower[m] > o.lower[m])
  }

  predicate PatternWidened(o: Option<string>, n: Option<string>) {
    o.Some? && n.Some? && Regex.Widened(o.value, n.value)
  }

  predicate PatternBreaks(o: Option<string>, n: Option<string>) {
    n.Some? && n != o && !PatternWidened(o, n)
  }

  function UpperReport(list: seq<Problem>, o: Schema, n: Schema, path: string, measures: seq<Measure>): seq<Problem>
    requires o.Dict? && n.Dict?
  {
    if measures == [] then list
    else
      var init, m := measures[..|measures| - 1], measures[|measures| - 1];
      Report(UpperReport(list, o, n, path, init), UpperTightens(o, n, m), path, UpperTightened(m))
  }

  function LowerReport(list: seq<Problem>, o: Schema, n: Schema, path: string, measures: seq<Measure>): seq<Problem>
    requires o.Dict? && n.Dict?
  {
    if measures == [] then list
    else
      var init, m := measures[..|measures| - 1], measures[|measures| - 1];
      Report(LowerReport(list, o, n, path, init), LowerTightens(o, n, m), path, LowerTightened(m))
  }

  const MEASURES: seq<Measure> := [Length, Items, Properties, Magnitude]

  function BoundFlagReport(list: seq<Problem>, o: Schema, n: Schema, path: string): seq<Problem>
    requires o.Dict? && n.Dict?
  {
    var l1 := Report(list, IsTrue(n.exclusiveMaximum) && !IsTrue(o.exclusiveMaximum), path, ExclusiveMaximumAdded);
    var l2 := Report(l1, IsTrue(n.exclusiveMinimum) && !IsTrue(o.exclusiveMinimum), path, ExclusiveMinimumAdded);
    var l3 := Report(l2, PatternBreaks(o.pattern, n.pattern), path, PatternChanged);
    var l4 := Report(l3, n.format.Some? && n.format != o.format, path, FormatChanged);
    Report(l4, IsTrue(o.nullable) && !IsTrue(n.nullable), path, NullableRemoved)
  }

  /** The rule's text ends in " || (old_)". */
  predicate EndsInOr(rule: Rule, old_: Rule) {
    match rule
    case Atom(_) => false
    case Or(_, r) => r == old_
    case Cond(_, _, e) => EndsInOr(e, old_)
    case Masked(_, tail) => tail == old_
  }

  predicate CelWeakened(oldRules: seq<Rule>, rule: Rule) {
    exists r | r in oldRules :: EndsInOr(rule, r)
  }

  predicate CelAccepted(oldRules: seq<Rule>, rule: Rule) {
    rule in oldRules || CelWeakened(oldRules, rule)
  }

  function CelReport(list: seq<Problem>, oldRules: seq<Rule>, rules: seq<Rule>, path: string): seq<Problem> {
    if rules == [] then list
    else
      var init, r := rules[..|rules| - 1], rules[|rules| - 1];
      Report(CelReport(list, oldRules, init, path), !CelAccepted(oldRules, r), path, NewRule(r))
  }

  predicate CombinatorBreaks(o: Schema, n: Schema, c: Combinator)
    requires o.Dict? && n.Dict?
  {
    c in n.combinators && (c !in o.combinators || !PyEq(n.combinators[c], o.combinators[c]))
  }

  predicate TypeIsAdded(o: Schema, n: Schema)
    requires o.Dict? && n.Dict?
  {
    Truthy(n.typ) && !Truthy(o.typ) && o != EMPTY
  }

  predicate ListTypeBreaks(o: Schema, n: Schema)
    requires o.Dict? && n.Dict?
  {
    (n.listType == Some("set") || n.listType == Some("map")) && n.listType != o.listType
  }

  predicate EnumShrinks(o: Schema, n: Schema)
    requires o.Dict? && n.Dict?
  {
    n.enum_.Some? && o.enum_.Some? && exists v | v in o.enum_.value :: !PyIn(v, n.enum_.value)
  }

  predicate DefaultMoves(o: Schema, n: Schema)
    requires o.Dict? && n.Dict?
  {
    o.default_.Some? && n.default_.Some? && !PyEq(n.default_.value, o.default_.value)
  }

  function TypeReport(list: seq<Problem>, o: Schema, n: Schema, path: string): seq<Problem>
    requires o.Dict? && n.Dict?
  {
    var l1 := Report(list, Truthy(o.typ) && Truthy(n.typ) && o.typ != n.typ, path, TypeChanged);
    var l2 := Report(l1, TypeIsAdded(o, n), path, TypeAdded);
    var l3 := Report(l2, IsTrue(o.intOrString) && !IsTrue(n.intOrString), path, IntOrStringRemoved);
    var l4 := Report(l3, ListTypeBreaks(o, n), path, ListTypeChanged);
    Report(l4, n.mapKeys != [] && n.mapKeys != o.mapKeys, path, MapKeysChanged)
  }

  const COMBINATORS: seq<Combinator> := [OneOf, AnyOf, AllOf, Not]

  function CombinatorReport(list: seq<Problem>, o: Schema, n: Schema, path: string, cs: seq<Combinator>): seq<Problem>
    requires o.Dict? && n.Dict?
  {
    if cs == [] then list
    else
      var init, c := cs[..|cs| - 1], cs[|cs| - 1];
      Report(CombinatorReport(list, o, n, path, init), CombinatorBreaks(o, n, c), path, CombinatorChanged(c))
  }

  function ValueReport(list: seq<Problem>, o: Schema, n: Schema, path: string): seq<Problem>
    requires o.Dict? && n.Dict?
  {
    var l1 := Report(list, EnumShrinks(o, n), path, EnumValuesRemoved);
    var l2 := Report(l1, n.enum_.Some? && o.enum_.None?, path, EnumAdded);
    var l3 := Report(l2, o.default_.Some? && n.default_.None?, path, DefaultRemoved);
    var l4 := Report(l3, DefaultMoves(o, n), path, DefaultChanged);
    var l5 := Report(l4, n.required - o.required != {}, path, NewlyRequired(n.required - o.required));
    Report(l5, IsTrue(o.preserve) && !IsTrue(n.preserve), path, PreserveRemoved)
  }

  /** The list after walk has looked at one node and before it descends. */
  function NodeReport(list: seq<Problem>, o: Schema, n: Schema, path: string): seq<Problem>
    requires o.Dict? && n.Dict?
  {
    var l1 := TypeReport(list, o, n, path);
    var l2 := CombinatorReport(l1, o, n, path, COMBINATORS);
    var l3 := ValueReport(l2, o, n, path);
    var l4 := BoundFlagReport(LowerReport(UpperReport(l3, o, n, path, MEASURES), o, n, path, MEASURES), o, n, path);
    CelReport(l4, o.rules, n.rules, path)
  }

  // ----- the whole walk -----

  function FieldPath(path: string, k: string): string { path + "." + k }
  function ItemPath(path: string): string { path + "[]" }
  function ValuePath(path: string): string { path + ".*" }

  function WalkProblems(o: Schema, n: Schema, path: string): set<Problem>
    decreases o, 2
  {
    if o.NotDict? then {}
    else if n.NotDict? then {Problem(path, SchemaNodeRemoved)}
    else
      ToSet(NodeReport([], o, n, path)) + FieldProblems(o, n, path, o.properties.Keys) + ItemsProblems(o, n, path)
      + AdditionalProblems(o, n, path)
  }

  /** What the named properties of the old node contribute. */
  function FieldProblems(o: Schema, n: Schema, path: string, names: set<string>): set<Problem>
    requires o.Dict? && n.Dict? && names <= o.properties.Keys
    decreases o, 1
  {
    set k, p | k in names && p in PropertyProblems(o, n, path, k) :: p
  }

  function PropertyProblems(o: Schema, n: Schema, path: string, k: string): set<Problem>
    requires o.Dict? && n.Dict? && k in o.properties
    decreases o, 0
  {
    if k !in n.properties then {Problem(FieldPath(path, k), FieldRemoved)}
    else WalkProblems(o.properties[k], n.properties[k], FieldPath(path, k))
  }

  function ItemsProblems(o: Schema, n: Schema, path: string): set<Problem>
    requires o.Dict? && n.Dict?
    decreases o, 1
  {
    if !IsDict(o.items) then {}
    else if IsDict(n.items) then WalkProblems(o.items.value, n.items.value, ItemPath(path))
    else {Problem(ItemPath(path), ItemsRemoved)}
  }

  function AdditionalProblems(o: Schema, n: Schema, path: string): set<Problem>
    requires o.Dict? && n.Dict?
    decreases o, 1
  {
    var oa, na := o.additional, n.additional;
    if HasValueSchema(oa) then
      if HasValueSchema(na) then WalkProblems(oa.schema, na.schema, ValuePath(path))
      else if na == Literal(false) then {Problem(ValuePath(path), AdditionalDisallowed)}
      else if na == Absent then {Problem(ValuePath(path), AdditionalRemoved)}
      else {}
    else if na == Literal(false) && oa != Literal(false) then {Problem(ValuePath(path), AdditionalDisallowed)}
    else if HasValueSchema(na) && o != EMPTY then {Problem(ValuePath(path), AdditionalAdded)}
    else {}
  }

  // ----- when the walk is silent -----

  ghost predicate KeywordsCompatible(o: Schema, n: Schema)
    requires o.Dict? && n.Dict?
  {
    && (Truthy(o.typ) && Truthy(n.typ) ==> o.typ == n.typ)
    && !TypeIsAdded(o, n)
    && (IsTrue(o.intOrString) ==> IsTrue(n.intOrString))
    && !ListTypeBreaks(o, n)
    && (n.mapKeys != [] ==> n.mapKeys == o.mapKeys)
    && (forall c :: !CombinatorBreaks(o, n, c))
    && !EnumShrinks(o, n)
    && (n.enum_.Some? ==> o.enum_.Some?)
    && (o.default_.Some? ==> n.default_.Some?)
    && !DefaultMoves(o, n)
    && n.required <= o.required
    && (IsTrue(o.preserve) ==> IsTrue(n.preserve))
  }

  ghost predicate BoundsCompatible(o: Schema, n: Schema)
    requires o.Dict? && n.Dict?
  {
    && (forall m :: !UpperTightens(o, n, m) && !LowerTightens(o, n, m))
    && (IsTrue(n.exclusiveMaximum) ==> IsTrue(o.exclusiveMaximum))
    && (IsTrue(n.exclusiveMinimum) ==> IsTrue(o.exclusiveMinimum))
    && !PatternBreaks(o.pattern, n.pattern)
    && (n.format.Some? ==> n.format == o.format)
    && (IsTrue(o.nullable) ==> IsTrue(n.nullable))
  }

  ghost predicate CelCompatible(o: Schema, n: Schema)
    requires o.Dict? && n.Dict?
  {
    forall r | r in n.rules :: CelAccepted(o.rules, r)
  }

  ghost predicate AdditionalCompatible(o: Schema, n: Schema)
    requires o.Dict? && n.Dict?
    decreases o, 1
  {
    if HasValueSchema(o.additional) then
      if HasValueSchema(n.additional) then Compatible(o.additional.schema, n.additional.schema)
      else n.additional != Literal(false) && n.additional != Absent
    else
      && (n.additional == Literal(false) ==> o.additional == Literal(false))
      && (HasValueSchema(n.additional) ==> o == EMPTY)
  }

  /** The guard finds nothing to report between the two trees. */
  ghost predicate Compatible(o: Schema, n: Schema)
    decreases o, 2
  {
    o.Dict? ==>
      && n.Dict?
      && KeywordsCompatible(o, n)
      && BoundsCompatible(o, n)
      && CelCompatible(o, n)
      && (forall k | k in o.properties :: k in n.properties && Compatible(o.properties[k], n.properties[k]))
      && (IsDict(o.items) ==> IsDict(n.items) && Compatible(o.items.value, n.items.value))
      && AdditionalCompatible(o, n)
  }

  // Each part of the node report only appends, and appends nothing exactly when its tests pass.

  lemma ReportAppends(l: seq<Problem>, m: seq<Problem>, cond: bool, path: string, kind: Kind)
    ensures Report(l + m, cond, path, kind) == l + Report(m, cond, path, kind)
  {
    if cond {
      assert (l + m) + [Problem(path, kind)] == l + (m + [Problem(path, kind)]);
    }
  }

  lemma {:induction false} MeasuresAppend(l: seq<Problem>, m: seq<Problem>, o: Schema, n: Schema, path: string,
                                          measures: seq<Measure>)
    requires o.Dict? && n.Dict?
    ensures UpperReport(l + m, o, n, path, measures) == l + UpperReport(m, o, n, path, measures)
    ensures LowerReport(l + m, o, n, path, measures) == l + LowerReport(m, o, n, path, measures)
    ensures |m| <= |UpperReport(m, o, n, path, measures)| && |m| <= |LowerReport(m, o, n, path, measures)|
    ensures |UpperReport(m, o, n, path, measures)| == |m| <==> forall x | x in measures :: !UpperTightens(o, n, x)
    ensures |LowerReport(m, o, n, path, measures)| == |m| <==> forall x | x in measures :: !LowerTightens(o, n, x)
    decreases |measures|
  {
    if measures != [] {
      var init, x := measures[..|measures| - 1], measures[|measures| - 1];
      MeasuresAppend(l, m, o, n, path, init);
      ReportAppends(l, UpperReport(m, o, n, path, init), UpperTightens(o, n, x), path, UpperTightened(x));
      ReportAppends(l, LowerReport(m, o, n, path, init), LowerTightens(o, n, x), path, LowerTightened(x));
      assert measures == init + [x];
    }
  }

  lemma {:induction false} CombinatorsAppend(l: seq<Problem>, m: seq<Problem>, o: Schema, n: Schema, path: string,
                                             cs: seq<Combinator>)
    requires o.Dict? && n.Dict?
    ensures CombinatorReport(l + m, o, n, path, cs) == l + CombinatorReport(m, o, n, path, cs)
    ensures |m| <= |CombinatorReport(m, o, n, path, cs)|
    ensures |CombinatorReport(m, o, n, path, cs)| == |m| <==> forall c | c in cs :: !CombinatorBreaks(o, n, c)
    decreases |cs|
  {
    if cs != [] {
      var init, c := cs[..|cs| - 1], cs[|cs| - 1];
      CombinatorsAppend(l, m, o, n, path, init);
      ReportAppends(l, CombinatorReport(m, o, n, path, init), CombinatorBreaks(o, n, c), path, CombinatorChanged(c));
      assert cs == init + [c];
    }
  }

  lemma {:induction false} CelAppend(l: seq<Problem>, m: seq<Problem>, oldRules: seq<Rule>, rules: seq<Rule>,
                                     path: string)
    ensures CelReport(l + m, oldRules, rules, path) == l + CelReport(m, oldRules, rules, path)
    ensures |m| <= |CelReport(m, oldRules, rules, path)|
    ensures |CelReport(m, oldRules, rules, path)| == |m| <==> forall r | r in rules :: CelAccepted(oldRules, r)
    decreases |rules|
  {
    if rules != [] {
      var init, r := rules[..|rules| - 1], rules[|rules| - 1];
      CelAppend(l, m, oldRules, init, path);
      ReportAppends(l, CelReport(m, oldRules, init, path), !CelAccepted(oldRules, r), path, NewRule(r));
      assert rules == init + [r];
    }
  }

  lemma FlagsAppend(l: seq<Problem>, m: seq<Problem>, o: Schema, n: Schema, path: string)
    requires o.Dict? && n.Dict?
    ensures TypeReport(l + m, o, n, path) == l + TypeReport(m, o, n, path)
    ensures ValueReport(l + m, o, n, path) == l + ValueReport(m, o, n, path)
    ensures BoundFlagReport(l + m, o, n, path) == l + BoundFlagReport(m, o, n, path)
  {
    forall m', cond, kind ensures Report(l + m', cond, path, kind) == l + Report(m', cond, path, kind) {
      ReportAppends(l, m', cond, path, kind);
    }
  }

  lemma NodeAppends(l: seq<Problem>, o: Schema, n: Schema, path: string)
    requires o.Dict? && n.Dict?
    ensures NodeReport(l, o, n, path) == l + NodeReport([], o, n, path)
  {
    assert l + [] == l;
    FlagsAppend(l, [], o, n, path);
    var m1 := TypeReport([], o, n, path);
    CombinatorsAppend(l, m1, o, n, path, COMBINATORS);
    var m2 := CombinatorReport(m1, o, n, path, COMBINATORS);
    FlagsAppend(l, m2, o, n, path);
    var m3 := ValueReport(m2, o, n, path);
    MeasuresAppend(l, m3, o, n, path, MEASURES);
    var m4 := UpperReport(m3, o, n, path, MEASURES);
    MeasuresAppend(l, m4, o, n, path, MEASURES);
    var m5 := LowerReport(m4, o, n, path, MEASURES);
    FlagsAppend(l, m5, o, n, path);
    CelAppend(l, BoundFlagReport(m5, o, n, path), o.rules, n.rules, path);
  }

  lemma AllListed()
    ensures forall m: Measure :: m in MEASURES
    ensures forall c: Combinator :: c in COMBINATORS
  {
    forall m: Measure ensures m in MEASURES {
      match m case Length => assert MEASURES[0] == m; case Items => assert MEASURES[1] == m;
        case Properties => assert MEASURES[2] == m; case Magnitude => assert MEASURES[3] == m;
    }
    forall c: Combinator ensures c in COMBINATORS {
      match c case OneOf => assert COMBINATORS[0] == c; case AnyOf => assert COMBINATORS[1] == c;
        case AllOf => assert COMBINATORS[2] == c; case Not => assert COMBINATORS[3] == c;
    }
  }

  lemma NodeSilent(o: Schema, n: Schema, path: string)
    requires o.Dict? && n.Dict?
    ensures NodeReport([], o, n, path) == []
       <==> KeywordsCompatible(o, n) && BoundsCompatible(o, n) && CelCompatible(o, n)
  {
    AllListed();
    SetDifferenceEmpty(n.required, o.required);
    var m1 := TypeReport([], o, n, path);
    CombinatorsAppend([], m1, o, n, path, COMBINATORS);
    var m2 := CombinatorReport(m1, o, n, path, COMBINATORS);
    var m3 := ValueReport(m2, o, n, path);
    MeasuresAppend([], m3, o, n, path, MEASURES);
    var m4 := UpperReport(m3, o, n, path, MEASURES);
    MeasuresAppend([], m4, o, n, path, MEASURES);
    var m5 := LowerReport(m4, o, n, path, MEASURES);
    var m6 := BoundFlagReport(m5, o, n, path);
    CelAppend([], m6, o.rules, n.rules, path);
    assert |m1| <= |m2| <= |m3| <= |m4| <= |m5| <= |m6| <= |NodeReport([], o, n, path)|;
  }

  lemma SetDifferenceEmpty<T>(a: set<T>, b: set<T>)
    ensures a - b == {} <==> a <= b
  {
    if a - b == {} {
      forall x | x in a ensures x in b {
        assert x !in a - b;
      }
    }
  }

  /** Nothing is reported exactly when the trees are Compatible. */
  lemma {:induction false} WalkSilent(o: Schema, n: Schema, path: string)
    ensures WalkProblems(o, n, path) == {} <==> Compatible(o, n)
    decreases o
  {
    if o.Dict? && n.Dict? {
      NodeSilent(o, n, path);
      assert ToSet(NodeReport([], o, n, path)) == {} <==> NodeReport([], o, n, path) == [] by {
        if NodeReport([], o, n, path) != [] {
          assert NodeReport([], o, n, path)[0] in ToSet(NodeReport([], o, n, path));
        }
      }
      var fields := FieldProblems(o, n, path, o.properties.Keys);
      forall k | k in o.properties
        ensures PropertyProblems(o, n, path, k) <= fields
        ensures PropertyProblems(o, n, path, k) == {}
           <==> k in n.properties && Compatible(o.properties[k], n.properties[k])
      {
        if k in n.properties {
          WalkSilent(o.properties[k], n.properties[k], FieldPath(path, k));
        }
      }
      if IsDict(o.items) && IsDict(n.items) {
        WalkSilent(o.items.value, n.items.value, ItemPath(path));
      }
      if HasValueSchema(o.additional) && HasValueSchema(n.additional) {
        WalkSilent(o.additional.schema, n.additional.schema, ValuePath(path));
      }
      assert ItemsProblems(o, n, path) == {}
        <==> (IsDict(o.items) ==> IsDict(n.items) && Compatible(o.items.value, n.items.value));
      assert AdditionalProblems(o, n, path) == {} <==> AdditionalCompatible(o, n);
    }
  }

  // ----- the imperative walk -----

  /** The list that every recursive call appends to. */
  class ProblemList {
    var list: seq<Problem>

    constructor ()
      ensures list == []
    {
      list := [];
    }

    method AddWhen(cond: bool, path: string, kind: Kind)
      modifies this
      ensures list == Report(old(list), cond, path, kind)
    {
      if cond {
        list := list + [Problem(path, kind)];
      }
    }
  }

  method Bounds(o: Schema, n: Schema, path: string, problems: ProblemList)
    requires o.Dict? && n.Dict?
    modifies problems
    ensures problems.list
         == BoundFlagReport(LowerReport(UpperReport(old(problems.list), o, n, path, MEASURES), o, n, path, MEASURES),
                            o, n, path)
  {
    var measures := MEASURES;
    for i := 0 to |measures|
      invariant problems.list == UpperReport(old(problems.list), o, n, path, measures[..i])
    {
      problems.AddWhen(UpperTightens(o, n, measures[i]), path, UpperTightened(measures[i]));
      assert measures[..i + 1][..i] == measures[..i];
    }
    assert measures[..|measures|] == measures;
    ghost var middle := problems.list;
    for i := 0 to |measures|
      invariant problems.list == LowerReport(middle, o, n, path, measures[..i])
    {
      problems.AddWhen(LowerTightens(o, n, measures[i]), path, LowerTightened(measures[i]));
      assert measures[..i + 1][..i] == measures[..i];
    }
    problems.AddWhen(IsTrue(n.exclusiveMaximum) && !IsTrue(o.exclusiveMaximum), path, ExclusiveMaximumAdded);
    problems.AddWhen(IsTrue(n.exclusiveMinimum) && !IsTrue(o.exclusiveMinimum), path, ExclusiveMinimumAdded);
    problems.AddWhen(PatternBreaks(o.pattern, n.pattern), path, PatternChanged);
    problems.AddWhen(n.format.Some? && n.format != o.format, path, FormatChanged);
    problems.AddWhen(IsTrue(o.nullable) && !IsTrue(n.nullable), path, NullableRemoved);
  }

  method Cel(o: Schema, n: Schema, path: string, problems: ProblemList)
    requires o.Dict? && n.Dict?
    modifies problems
    ensures problems.list == CelReport(old(problems.list), o.rules, n.rules, path)
  {
    for i := 0 to |n.rules|
      invariant problems.list == CelReport(old(problems.list), o.rules, n.rules[..i], path)
    {
      problems.AddWhen(!CelAccepted(o.rules, n.rules[i]), path, NewRule(n.rules[i]));
      assert n.rules[..i + 1][..i] == n.rules[..i];
    }
    assert n.rules[..|n.rules|] == n.rules;
  }

  method Types(o: Schema, n: Schema, path: string, problems: ProblemList)
    requires o.Dict? && n.Dict?
    modifies problems
    ensures problems.list == TypeReport(old(problems.list), o, n, path)
  {
    problems.AddWhen(Truthy(o.typ) && Truthy(n.typ) && o.typ != n.typ, path, TypeChanged);
    problems.AddWhen(TypeIsAdded(o, n), path, TypeAdded);
    problems.AddWhen(IsTrue(o.intOrString) && !IsTrue(n.intOrString), path, IntOrStringRemoved);
    problems.AddWhen(ListTypeBreaks(o, n), path, ListTypeChanged);
    problems.AddWhen(n.mapKeys != [] && n.mapKeys != o.mapKeys, path, MapKeysChanged);
  }

  method Combinators(o: Schema, n: Schema, path: string, cs: seq<Combinator>, problems: ProblemList)
    requires o.Dict? && n.Dict?
    modifies problems
    ensures problems.list == CombinatorReport(old(problems.list), o, n, path, cs)
  {
    for i := 0 to |cs|
      invariant problems.list == CombinatorReport(old(problems.list), o, n, path, cs[..i])
    {
      problems.AddWhen(CombinatorBreaks(o, n, cs[i]), path, CombinatorChanged(cs[i]));
      assert cs[..i + 1][..i] == cs[..i];
    }
    assert cs[..|cs|] == cs;
  }

  method ValuesAndRequired(o: Schema, n: Schema, path: string, problems: ProblemList)
    requires o.Dict? && n.Dict?
    modifies problems
    ensures problems.list == ValueReport(old(problems.list), o, n, path)
  {
    problems.AddWhen(EnumShrinks(o, n), path, EnumValuesRemoved);
    problems.AddWhen(n.enum_.Some? && o.enum_.None?, path, EnumAdded);
    problems.AddWhen(o.default_.Some? && n.default_.None?, path, DefaultRemoved);
    problems.AddWhen(DefaultMoves(o, n), path, DefaultChanged);
    problems.AddWhen(n.required - o.required != {}, path, NewlyRequired(n.required - o.required));
    problems.AddWhen(IsTrue(o.preserve) && !IsTrue(n.preserve), path, PreserveRemoved);
  }

  /** Everything walk does at one node before it descends. */
  method Node(o: Schema, n: Schema, path: string, problems: ProblemList)
    requires o.Dict? && n.Dict?
    modifies problems
    ensures problems.list == NodeReport(old(problems.list), o, n, path)
  {
    Types(o, n, path, problems);
    Combinators(o, n, path, COMBINATORS, problems);
    ValuesAndRequired(o, n, path, problems);
    Bounds(o, n, path, problems);
    Cel(o, n, path, problems);
  }

  method Walk(o: Schema, n: Schema, path: string, problems: ProblemList)
    modifies problems
    ensures Appended(old(problems.list), problems.list, WalkProblems(o, n, path))
    decreases o, 1
  {
    if o.NotDict? {
      return;
    }
    if n.NotDict? {
      problems.AddWhen(true, path, SchemaNodeRemoved);
      return;
    }
    ghost var l0 := problems.list;
    Node(o, n, path, problems);
    ghost var l1 := problems.list;
    NodeAppends(l0, o, n, path);
    WalkFields(o, n, path, problems);
    ghost var l2 := problems.list;
    WalkItems(o, n, path, problems);
    ghost var l3 := problems.list;
    WalkAdditional(o, n, path, problems);
    ghost var l4 := problems.list;
    AppendedTwice(l0, l1, l2, ToSet(NodeReport([], o, n, path)), FieldProblems(o, n, path, o.properties.Keys));
    AppendedTwice(l0, l2, l3, ToSet(NodeReport([], o, n, path)) + FieldProblems(o, n, path, o.properties.Keys),
                  ItemsProblems(o, n, path));
    AppendedTwice(l0, l3, l4, ToSet(NodeReport([], o, n, path)) + FieldProblems(o, n, path, o.properties.Keys)
                              + ItemsProblems(o, n, path), AdditionalProblems(o, n, path));
  }

  method WalkFields(o: Schema, n: Schema, path: string, problems: ProblemList)
    requires o.Dict? && n.Dict?
    modifies problems
    ensures Appended(old(problems.list), problems.list, FieldProblems(o, n, path, o.properties.Keys))
    decreases o, 0
  {
    var todo := o.properties.Keys;
    while todo != {}
      invariant todo <= o.properties.Keys
      invariant Appended(old(problems.list), problems.list, FieldProblems(o, n, path, o.properties.Keys - todo))
      decreases todo
    {
      var k :| k in todo;
      ghost var done, before := o.properties.Keys - todo, problems.list;
      if k !in n.properties {
        problems.AddWhen(true, FieldPath(path, k), FieldRemoved);
      } else {
        Walk(o.properties[k], n.properties[k], FieldPath(path, k), problems);
      }
      AppendedTwice(old(problems.list), before, problems.list, FieldProblems(o, n, path, done),
                    PropertyProblems(o, n, path, k));
      todo := todo - {k};
      assert o.properties.Keys - todo == done + {k};
      assert FieldProblems(o, n, path, done + {k}) == FieldProblems(o, n, path, done) + PropertyProblems(o, n, path, k);
    }
    assert o.properties.Keys - {} == o.properties.Keys;
  }

  method WalkItems(o: Schema, n: Schema, path: string, problems: ProblemList)
    requires o.Dict? && n.Dict?
    modifies problems
    ensures Appended(old(problems.list), problems.list, ItemsProblems(o, n, path))
    decreases o, 0
  {
    if IsDict(o.items) {
      if IsDict(n.items) {
        Walk(o.items.value, n.items.value, ItemPath(path), problems);
      } else {
        problems.AddWhen(true, ItemPath(path), ItemsRemoved);
      }
    }
  }

  method WalkAdditional(o: Schema, n: Schema, path: string, problems: ProblemList)
    requires o.Dict? && n.Dict?
    modifies problems
    ensures Appended(old(problems.list), problems.list, AdditionalProblems(o, n, path))
    decreases o, 0
  {
    var oa, na := o.additional, n.additional;
    if HasValueSchema(oa) {
      if HasValueSchema(na) {
        Walk(oa.schema, na.schema, ValuePath(path), problems);
      } else if na == Literal(false) {
        problems.AddWhen(true, ValuePath(path), AdditionalDisallowed);
      } else if na == Absent {
        problems.AddWhen(true, ValuePath(path), AdditionalRemoved);
      }
    } else if na == Literal(false) && oa != Literal(false) {
      problems.AddWhen(true, ValuePath(path), AdditionalDisallowed);
    } else if HasValueSchema(na) && o != EMPTY {
      problems.AddWhen(true, ValuePath(path), AdditionalAdded);
    }
  }
}
