/**
 What a problem of hack/crd-guard.py's report says, and that the report holds no other and lacks none.

 ReportExact reads a problem without the walk: its path names a place that both trees have, and there the two
 nodes differ in the way its kind says.
 */
module CrdReport {
  import opened Wrappers
  import opened CrdSchema
  import opened CrdGuard
  import opened CrdCompare
  import opened Lists
  import Regex

  // ----- the difference a kind names, at one place -----

  /** The number keeps within the bound; where none is set, every number does. */
  predicate Below(bounds: map<Measure, real>, m: Measure, x: real) {
    m in bounds ==> x <= bounds[m]
  }

  predicate Above(bounds: map<Measure, real>, m: Measure, x: real) {
    m in bounds ==> bounds[m] <= x
  }

  /** The old pattern with "|" and more behind it, where a backslash does not take the "|" for itself. */
  ghost predicate Alternated(old_: string, new_: string) {
    !Regex.Run(Regex.START, old_).escaped && exists more :: new_ == old_ + "|" + more
  }

  /** The two nodes differ as the kind says; false for the kinds that compare more than two nodes. */
  ghost predicate Differs(o: Schema, n: Schema, kind: Kind)
    requires o.Dict? && n.Dict?
  {
    match kind
    case TypeChanged => o.typ.GetOr("") != "" && n.typ.GetOr("") != "" && o.typ.GetOr("") != n.typ.GetOr("")
    case TypeAdded => o.typ.GetOr("") == "" && n.typ.GetOr("") != "" && o != EMPTY
    case IntOrStringRemoved => o.intOrString == Some(true) && n.intOrString != Some(true)
    case ListTypeChanged => n.listType.GetOr("") in {"set", "map"} && n.listType != o.listType
    case MapKeysChanged => |n.mapKeys| > 0 && n.mapKeys != o.mapKeys
    case CombinatorChanged(c) =>
      c in n.combinators && !(c in o.combinators && SameToPython(o.combinators[c], n.combinators[c]))
    case EnumValuesRemoved =>
      o.enum_.Some? && n.enum_.Some?
      && exists v :: v in o.enum_.value && forall w | w in n.enum_.value :: !SameToPython(v, w)
    case EnumAdded => n.enum_ != None && o.enum_ == None
    case DefaultRemoved => o.default_ != None && n.default_ == None
    case DefaultChanged =>
      o.default_.Some? && n.default_.Some? && !SameToPython(o.default_.value, n.default_.value)
    case NewlyRequired(names) => names != {} && forall k :: k in names <==> k in n.required && k !in o.required
    case PreserveRemoved => o.preserve == Some(true) && n.preserve != Some(true)
    case UpperTightened(m) => exists x :: Below(o.upper, m, x) && !Below(n.upper, m, x)
    case LowerTightened(m) => exists x :: Above(o.lower, m, x) && !Above(n.lower, m, x)
    case ExclusiveMaximumAdded => n.exclusiveMaximum == Some(true) && o.exclusiveMaximum != Some(true)
    case ExclusiveMinimumAdded => n.exclusiveMinimum == Some(true) && o.exclusiveMinimum != Some(true)
    case PatternChanged =>
      n.pattern.Some? && n.pattern != o.pattern && !(o.pattern.Some? && Alternated(o.pattern.value, n.pattern.value))
    case FormatChanged => n.format != None && n.format != o.format
    case NullableRemoved => o.nullable == Some(true) && n.nullable != Some(true)
    case NewRule(r) => r in n.rules && r !in o.rules && forall w | w in o.rules :: !EndsInOr(r, w)
    case _ => false
  }

  /** Equal to Python: alike in shape, and at the leaves alike or a boolean and the number it stands for. */
  predicate SameToPython(v: Value, w: Value) {
    match (v, w)
    case (Null, Null) => true
    case (Str(s), Str(t)) => s == t
    case (Num(x), Num(y)) => x == y
    case (Bool(a), Bool(b)) => a == b
    case (Bool(a), Num(x)) => x == if a then 1.0 else 0.0
    case (Num(x), Bool(a)) => x == if a then 1.0 else 0.0
    case (Arr(es), Arr(fs)) => |es| == |fs| && forall i | 0 <= i < |es| :: SameToPython(es[i], fs[i])
    case (Obj(f), Obj(g)) => f.Keys == g.Keys && forall k | k in f :: SameToPython(f[k], g[k])
    case _ => false
  }

  lemma {:induction false} PyEqExact(v: Value, w: Value)
    ensures PyEq(v, w) <==> SameToPython(v, w)
    decreases v
  {
    match (v, w) {
      case (Arr(es), Arr(fs)) =>
        var a, b := PyNorm(v).elems, PyNorm(w).elems;
        if |es| == |fs| {
          forall i | 0 <= i < |es| ensures a[i] == b[i] <==> SameToPython(es[i], fs[i]) {
            PyEqExact(es[i], fs[i]);
          }
          assert (forall i | 0 <= i < |es| :: a[i] == b[i]) ==> a == b;
        }
      case (Obj(f), Obj(g)) =>
        var a, b := PyNorm(v).fields, PyNorm(w).fields;
        assert a.Keys == f.Keys && b.Keys == g.Keys;
        if f.Keys == g.Keys {
          forall k | k in f ensures a[k] == b[k] <==> SameToPython(f[k], g[k]) {
            PyEqExact(f[k], g[k]);
          }
          assert (forall k | k in f :: a[k] == b[k]) ==> a == b;
        }
      case _ =>
    }
  }

  // ----- one node's report -----

  lemma {:induction false} UpperIn(l: seq<Problem>, o: Schema, n: Schema, path: string, measures: seq<Measure>,
                                   p: Problem)
    requires o.Dict? && n.Dict?
    ensures p in UpperReport(l, o, n, path, measures)
       <==> p in l || exists m | m in measures :: UpperTightens(o, n, m) && p == Problem(path, UpperTightened(m))
    decreases |measures|
  {
    if measures != [] {
      UpperIn(l, o, n, path, measures[..|measures| - 1], p);
      LastMember(measures);
    }
  }

  lemma {:induction false} LowerIn(l: seq<Problem>, o: Schema, n: Schema, path: string, measures: seq<Measure>,
                                   p: Problem)
    requires o.Dict? && n.Dict?
    ensures p in LowerReport(l, o, n, path, measures)
       <==> p in l || exists m | m in measures :: LowerTightens(o, n, m) && p == Problem(path, LowerTightened(m))
    decreases |measures|
  {
    if measures != [] {
      LowerIn(l, o, n, path, measures[..|measures| - 1], p);
      LastMember(measures);
    }
  }

  lemma {:induction false} CombinatorIn(l: seq<Problem>, o: Schema, n: Schema, path: string, cs: seq<Combinator>,
                                        p: Problem)
    requires o.Dict? && n.Dict?
    ensures p in CombinatorReport(l, o, n, path, cs)
       <==> p in l || exists c | c in cs :: CombinatorBreaks(o, n, c) && p == Problem(path, CombinatorChanged(c))
    decreases |cs|
  {
    if cs != [] {
      CombinatorIn(l, o, n, path, cs[..|cs| - 1], p);
      LastMember(cs);
    }
  }

  lemma {:induction false} CelIn(l: seq<Problem>, oldRules: seq<Rule>, rules: seq<Rule>, path: string, p: Problem)
    ensures p in CelReport(l, oldRules, rules, path)
       <==> p in l || exists r | r in rules :: !CelAccepted(oldRules, r) && p == Problem(path, NewRule(r))
    decreases |rules|
  {
    if rules != [] {
      CelIn(l, oldRules, rules[..|rules| - 1], path, p);
      LastMember(rules);
    }
  }

  /** The tests of one node, kind by kind, as the walk makes them. */
  ghost predicate Fires(o: Schema, n: Schema, kind: Kind)
    requires o.Dict? && n.Dict?
  {
    match kind
    case TypeChanged => Truthy(o.typ) && Truthy(n.typ) && o.typ != n.typ
    case TypeAdded => TypeIsAdded(o, n)
    case IntOrStringRemoved => IsTrue(o.intOrString) && !IsTrue(n.intOrString)
    case ListTypeChanged => ListTypeBreaks(o, n)
    case MapKeysChanged => n.mapKeys != [] && n.mapKeys != o.mapKeys
    case CombinatorChanged(c) => CombinatorBreaks(o, n, c)
    case EnumValuesRemoved => EnumShrinks(o, n)
    case EnumAdded => n.enum_.Some? && o.enum_.None?
    case DefaultRemoved => o.default_.Some? && n.default_.None?
    case DefaultChanged => DefaultMoves(o, n)
    case NewlyRequired(names) => n.required - o.required != {} && names == n.required - o.required
    case PreserveRemoved => IsTrue(o.preserve) && !IsTrue(n.preserve)
    case UpperTightened(m) => UpperTightens(o, n, m)
    case LowerTightened(m) => LowerTightens(o, n, m)
    case ExclusiveMaximumAdded => IsTrue(n.exclusiveMaximum) && !IsTrue(o.exclusiveMaximum)
    case ExclusiveMinimumAdded => IsTrue(n.exclusiveMinimum) && !IsTrue(o.exclusiveMinimum)
    case PatternChanged => PatternBreaks(o.pattern, n.pattern)
    case FormatChanged => n.format.Some? && n.format != o.format
    case NullableRemoved => IsTrue(o.nullable) && !IsTrue(n.nullable)
    case NewRule(r) => r in n.rules && !CelAccepted(o.rules, r)
    case _ => false
  }

  predicate OfType(kind: Kind) {
    kind.TypeChanged? || kind.TypeAdded? || kind.IntOrStringRemoved? || kind.ListTypeChanged? || kind.MapKeysChanged?
  }

  predicate OfValue(kind: Kind) {
    kind.EnumValuesRemoved? || kind.EnumAdded? || kind.DefaultRemoved? || kind.DefaultChanged? || kind.NewlyRequired?
    || kind.PreserveRemoved?
  }

  predicate OfFlag(kind: Kind) {
    kind.ExclusiveMaximumAdded? || kind.ExclusiveMinimumAdded? || kind.PatternChanged? || kind.FormatChanged?
    || kind.NullableRemoved?
  }

  lemma ReportIn(l: seq<Problem>, cond: bool, path: string, kind: Kind, p: Problem)
    ensures p in Report(l, cond, path, kind) <==> p in l || (cond && p.path == path && p.kind == kind)
  {
  }

  lemma TypeIn(l: seq<Problem>, o: Schema, n: Schema, path: string, p: Problem)
    requires o.Dict? && n.Dict?
    ensures p in TypeReport(l, o, n, path) <==> p in l || (p.path == path && OfType(p.kind) && Fires(o, n, p.kind))
  {
    forall l, cond, kind ensures p in Report(l, cond, path, kind) <==> p in l || (cond && p == Problem(path, kind)) {
      ReportIn(l, cond, path, kind, p);
    }
  }

  lemma EnumIn(l: seq<Problem>, o: Schema, n: Schema, path: string, p: Problem)
    requires o.Dict? && n.Dict?
    ensures var l2 := Report(Report(l, EnumShrinks(o, n), path, EnumValuesRemoved), n.enum_.Some? && o.enum_.None?,
                             path, EnumAdded);
            p in l2 <==> p in l || (p.path == path && (p.kind.EnumValuesRemoved? || p.kind.EnumAdded?)
                                    && Fires(o, n, p.kind))
  {
    ReportIn(l, EnumShrinks(o, n), path, EnumValuesRemoved, p);
    ReportIn(Report(l, EnumShrinks(o, n), path, EnumValuesRemoved), n.enum_.Some? && o.enum_.None?, path, EnumAdded, p);
  }

  lemma DefaultIn(l: seq<Problem>, o: Schema, n: Schema, path: string, p: Problem)
    requires o.Dict? && n.Dict?
    ensures var l2 := Report(Report(l, o.default_.Some? && n.default_.None?, path, DefaultRemoved), DefaultMoves(o, n),
                             path, DefaultChanged);
            p in l2 <==> p in l || (p.path == path && (p.kind.DefaultRemoved? || p.kind.DefaultChanged?)
                                    && Fires(o, n, p.kind))
  {
    var l1 := Report(l, o.default_.Some? && n.default_.None?, path, DefaultRemoved);
    ReportIn(l, o.default_.Some? && n.default_.None?, path, DefaultRemoved, p);
    ReportIn(l1, DefaultMoves(o, n), path, DefaultChanged, p);
  }

  lemma ValueIn(l: seq<Problem>, o: Schema, n: Schema, path: string, p: Problem)
    requires o.Dict? && n.Dict?
    ensures p in ValueReport(l, o, n, path) <==> p in l || (p.path == path && OfValue(p.kind) && Fires(o, n, p.kind))
  {
    var missing := n.required - o.required;
    var l1 := Report(l, EnumShrinks(o, n), path, EnumValuesRemoved);
    var l2 := Report(l1, n.enum_.Some? && o.enum_.None?, path, EnumAdded);
    var l3 := Report(l2, o.default_.Some? && n.default_.None?, path, DefaultRemoved);
    var l4 := Report(l3, DefaultMoves(o, n), path, DefaultChanged);
    var l5 := Report(l4, missing != {}, path, NewlyRequired(missing));
    EnumIn(l, o, n, path, p);
    DefaultIn(l2, o, n, path, p);
    ReportIn(l4, missing != {}, path, NewlyRequired(missing), p);
    ReportIn(l5, IsTrue(o.preserve) && !IsTrue(n.preserve), path, PreserveRemoved, p);
  }

  /** The five tests behind the numeric bounds. */
  datatype Flags = Flags(maximum: bool, minimum: bool, pattern: bool, format: bool, nullable: bool)

  function FlagsOf(o: Schema, n: Schema): Flags
    requires o.Dict? && n.Dict?
  {
    Flags(IsTrue(n.exclusiveMaximum) && !IsTrue(o.exclusiveMaximum),
          IsTrue(n.exclusiveMinimum) && !IsTrue(o.exclusiveMinimum),
          PatternBreaks(o.pattern, n.pattern), n.format.Some? && n.format != o.format,
          IsTrue(o.nullable) && !IsTrue(n.nullable))
  }

  function FlagList(l: seq<Problem>, f: Flags, path: string): seq<Problem> {
    var l2 := Report(Report(l, f.maximum, path, ExclusiveMaximumAdded), f.minimum, path, ExclusiveMinimumAdded);
    var l4 := Report(Report(l2, f.pattern, path, PatternChanged), f.format, path, FormatChanged);
    Report(l4, f.nullable, path, NullableRemoved)
  }

  predicate FlagHolds(f: Flags, kind: Kind) {
    match kind
    case ExclusiveMaximumAdded => f.maximum
    case ExclusiveMinimumAdded => f.minimum
    case PatternChanged => f.pattern
    case FormatChanged => f.format
    case NullableRemoved => f.nullable
    case _ => false
  }

  lemma FlagListIn(l: seq<Problem>, f: Flags, path: string, p: Problem)
    ensures p in FlagList(l, f, path) <==> p in l || (p.path == path && FlagHolds(f, p.kind))
  {
  }

  lemma FlagListIs(l: seq<Problem>, o: Schema, n: Schema, path: string)
    requires o.Dict? && n.Dict?
    ensures BoundFlagReport(l, o, n, path) == FlagList(l, FlagsOf(o, n), path)
  {
  }

  lemma FlagFires(o: Schema, n: Schema, kind: Kind)
    requires o.Dict? && n.Dict?
    ensures FlagHolds(FlagsOf(o, n), kind) <==> OfFlag(kind) && Fires(o, n, kind)
  {
  }

  lemma FlagIn(l: seq<Problem>, o: Schema, n: Schema, path: string, p: Problem)
    requires o.Dict? && n.Dict?
    ensures p in BoundFlagReport(l, o, n, path) <==> p in l || (p.path == path && OfFlag(p.kind) && Fires(o, n, p.kind))
  {
    FlagListIs(l, o, n, path);
    FlagListIn(l, FlagsOf(o, n), path, p);
    FlagFires(o, n, p.kind);
  }

  lemma BoundsIn(l: seq<Problem>, o: Schema, n: Schema, path: string, p: Problem)
    requires o.Dict? && n.Dict?
    ensures p in LowerReport(UpperReport(l, o, n, path, MEASURES), o, n, path, MEASURES)
       <==> p in l || (p.path == path && (p.kind.UpperTightened? || p.kind.LowerTightened?) && Fires(o, n, p.kind))
  {
    AllListed();
    UpperIn(l, o, n, path, MEASURES, p);
    LowerIn(UpperReport(l, o, n, path, MEASURES), o, n, path, MEASURES, p);
  }

  lemma NodeFires(o: Schema, n: Schema, path: string, p: Problem)
    requires o.Dict? && n.Dict?
    ensures p in NodeReport([], o, n, path) <==> p.path == path && Fires(o, n, p.kind)
  {
    AllListed();
    TypeIn([], o, n, path, p);
    var l1 := TypeReport([], o, n, path);
    CombinatorIn(l1, o, n, path, COMBINATORS, p);
    var l2 := CombinatorReport(l1, o, n, path, COMBINATORS);
    ValueIn(l2, o, n, path, p);
    var l3 := ValueReport(l2, o, n, path);
    BoundsIn(l3, o, n, path, p);
    var l4 := LowerReport(UpperReport(l3, o, n, path, MEASURES), o, n, path, MEASURES);
    FlagIn(l4, o, n, path, p);
    CelIn(BoundFlagReport(l4, o, n, path), o.rules, n.rules, path, p);
  }

  /** A raised limit is none: an upper bound counts as tightened exactly if it rejects a number the old one let pass. */
  lemma UpperExact(o: Schema, n: Schema, m: Measure)
    requires o.Dict? && n.Dict?
    ensures UpperTightens(o, n, m) <==> exists x :: Below(o.upper, m, x) && !Below(n.upper, m, x)
  {
    if UpperTightens(o, n, m) {
      var x := if m in o.upper then o.upper[m] else n.upper[m] + 1.0;
      assert Below(o.upper, m, x) && !Below(n.upper, m, x);
    }
  }

  lemma LowerExact(o: Schema, n: Schema, m: Measure)
    requires o.Dict? && n.Dict?
    ensures LowerTightens(o, n, m) <==> exists x :: Above(o.lower, m, x) && !Above(n.lower, m, x)
  {
    if LowerTightens(o, n, m) {
      var x := if m in o.lower then o.lower[m] else n.lower[m] - 1.0;
      assert Above(o.lower, m, x) && !Above(n.lower, m, x);
    }
  }

  lemma BoundsFire(o: Schema, n: Schema, m: Measure)
    requires o.Dict? && n.Dict?
    ensures Fires(o, n, UpperTightened(m)) <==> Differs(o, n, UpperTightened(m))
    ensures Fires(o, n, LowerTightened(m)) <==> Differs(o, n, LowerTightened(m))
  {
    UpperExact(o, n, m);
    LowerExact(o, n, m);
  }

  lemma PatternFires(old_: string, new_: string)
    ensures Regex.Widened(old_, new_) <==> Alternated(old_, new_)
  {
    Regex.EscapeParity(old_);
    if old_ + "|" <= new_ {
      assert new_ == old_ + "|" + new_[|old_| + 1..];
    }
  }

  lemma PatternsFire(o: Schema, n: Schema)
    requires o.Dict? && n.Dict?
    ensures Fires(o, n, PatternChanged) <==> Differs(o, n, PatternChanged)
  {
    if o.pattern.Some? && n.pattern.Some? {
      PatternFires(o.pattern.value, n.pattern.value);
    }
  }

  lemma EnumFires(o: Schema, n: Schema)
    requires o.Dict? && n.Dict? && o.enum_.Some? && n.enum_.Some?
    ensures EnumShrinks(o, n) <==> Differs(o, n, EnumValuesRemoved)
  {
    forall v ensures PyIn(v, n.enum_.value) <==> exists w | w in n.enum_.value :: SameToPython(v, w) {
      forall w ensures PyEq(v, w) <==> SameToPython(v, w) {
        PyEqExact(v, w);
      }
      if w :| w in n.enum_.value && SameToPython(v, w) {
        var i :| 0 <= i < |n.enum_.value| && n.enum_.value[i] == w;
        assert PyEq(v, n.enum_.value[i]);
      }
    }
  }

  lemma ValuesFire(o: Schema, n: Schema, c: Combinator)
    requires o.Dict? && n.Dict?
    ensures CombinatorBreaks(o, n, c) <==> Differs(o, n, CombinatorChanged(c))
    ensures DefaultMoves(o, n) <==> Differs(o, n, DefaultChanged)
  {
    if c in o.combinators && c in n.combinators {
      PyEqExact(n.combinators[c], o.combinators[c]);
      PythonSymmetric(n.combinators[c], o.combinators[c]);
    }
    if o.default_.Some? && n.default_.Some? {
      PyEqExact(n.default_.value, o.default_.value);
      PythonSymmetric(n.default_.value, o.default_.value);
    }
  }

  lemma PythonSymmetric(v: Value, w: Value)
    ensures SameToPython(v, w) <==> SameToPython(w, v)
  {
    PyEqExact(v, w);
    PyEqExact(w, v);
  }

  /** Every test is exact for the difference its kind names. */
  lemma FiresExact(o: Schema, n: Schema, kind: Kind)
    requires o.Dict? && n.Dict?
    ensures Fires(o, n, kind) <==> Differs(o, n, kind)
  {
    match kind {
      case UpperTightened(m) => BoundsFire(o, n, m);
      case LowerTightened(m) => BoundsFire(o, n, m);
      case CombinatorChanged(c) => ValuesFire(o, n, c);
      case DefaultChanged => ValuesFire(o, n, OneOf);
      case EnumValuesRemoved =>
        if o.enum_.Some? && n.enum_.Some? {
          EnumFires(o, n);
        }
      case PatternChanged => PatternsFire(o, n);
      case NewlyRequired(names) => RequiredFires(o.required, n.required, names);
      case _ =>
    }
  }

  lemma RequiredFires(o: set<string>, n: set<string>, names: set<string>)
    ensures n - o != {} && names == n - o <==> names != {} && forall k :: k in names <==> k in n && k !in o
  {
    if forall k :: k in names <==> k in n && k !in o {
      assert names == n - o;
    }
  }

  /** A node reports a kind exactly if the nodes differ in the way it names. */
  lemma NodeExact(o: Schema, n: Schema, path: string, p: Problem)
    requires o.Dict? && n.Dict?
    ensures p in NodeReport([], o, n, path) <==> p.path == path && Differs(o, n, p.kind)
  {
    NodeFires(o, n, path, p);
    FiresExact(o, n, p.kind);
  }

  // ----- places -----

  datatype Step = Field(k: string) | Element | MapValue

  function StepText(step: Step): string {
    match step
    case Field(k) => "." + k
    case Element => "[]"
    case MapValue => ".*"
  }

  function PlaceText(path: string, place: seq<Step>): string
    decreases |place|
  {
    if place == [] then path else PlaceText(path + StepText(place[0]), place[1..])
  }

  /** The schema one step further down, if there is one. */
  function Child(s: Schema, step: Step): (r: Option<Schema>)
    requires s.Dict?
    ensures r.Some? ==> r.value < s
  {
    match step
    case Field(k) => if k in s.properties then Some(s.properties[k]) else None
    case Element => if IsDict(s.items) then s.items else None
    case MapValue => if HasValueSchema(s.additional) then Some(s.additional.schema) else None
  }

  /** The schema at a place of the tree. */
  function Sub(s: Schema, place: seq<Step>): Option<Schema>
    decreases |place|
  {
    if place == [] then Some(s)
    else if s.NotDict? || Child(s, place[0]).None? then None
    else Sub(Child(s, place[0]).value, place[1..])
  }

  /** What two nodes tell of their children: which are gone, and how unnamed fields are treated. */
  predicate TellsOfChildren(o: Schema, n: Schema, at: string, p: Problem)
    requires o.Dict? && n.Dict?
  {
    match p.kind
    case FieldRemoved => exists k | k in o.properties :: k !in n.properties && p.path == at + ("." + k)
    case ItemsRemoved => IsDict(o.items) && !IsDict(n.items) && p.path == at + "[]"
    case AdditionalDisallowed =>
      n.additional == Literal(false) && o.additional != Literal(false) && p.path == at + ".*"
    case AdditionalRemoved => HasValueSchema(o.additional) && n.additional == Absent && p.path == at + ".*"
    case AdditionalAdded =>
      !HasValueSchema(o.additional) && HasValueSchema(n.additional) && o != EMPTY && p.path == at + ".*"
    case _ => false
  }

  /** What two nodes at one place give the report. */
  ghost predicate Tells(o: Schema, n: Schema, at: string, p: Problem) {
    o.Dict? &&
      if n.NotDict? then p == Problem(at, SchemaNodeRemoved)
      else (p.path == at && Differs(o, n, p.kind)) || TellsOfChildren(o, n, at, p)
  }

  ghost predicate TellsAt(o: Schema, n: Schema, path: string, place: seq<Step>, p: Problem) {
    && Sub(o, place).Some? && Sub(n, place).Some?
    && Tells(Sub(o, place).value, Sub(n, place).value, PlaceText(path, place), p)
  }

  /** One step down, a problem reads the same from the child. */
  lemma StepDown(o: Schema, n: Schema, path: string, place: seq<Step>, p: Problem)
    requires o.Dict? && n.Dict? && place != []
    requires Child(o, place[0]).Some? && Child(n, place[0]).Some?
    ensures TellsAt(o, n, path, place, p)
       <==> TellsAt(Child(o, place[0]).value, Child(n, place[0]).value, path + StepText(place[0]), place[1..], p)
  {
  }

  lemma PathsAgree(path: string, k: string)
    ensures FieldPath(path, k) == path + StepText(Field(k))
    ensures ItemPath(path) == path + StepText(Element) && ValuePath(path) == path + StepText(MapValue)
  {
    assert path + "." + k == path + ("." + k);
  }

  /** What the walk gets from the child a step leads to. */
  lemma ChildProblems(o: Schema, n: Schema, path: string, step: Step)
    requires o.Dict? && n.Dict? && Child(o, step).Some? && Child(n, step).Some?
    ensures WalkProblems(Child(o, step).value, Child(n, step).value, path + StepText(step)) <= WalkProblems(o, n, path)
  {
    PathsAgree(path, if step.Field? then step.k else "");
    if step.Field? {
      var k := step.k;
      assert PropertyProblems(o, n, path, k) <= FieldProblems(o, n, path, o.properties.Keys);
    }
  }

  lemma RootTells(o: Schema, n: Schema, path: string, p: Problem)
    requires o.Dict? && n.Dict? && Tells(o, n, path, p)
    ensures p in WalkProblems(o, n, path)
  {
    NodeExact(o, n, path, p);
    if p.kind.FieldRemoved? {
      var k :| k in o.properties && k !in n.properties && p.path == path + ("." + k);
      PathsAgree(path, k);
      assert p in PropertyProblems(o, n, path, k);
    }
  }

  lemma {:induction false} ToldIsReported(o: Schema, n: Schema, path: string, place: seq<Step>, p: Problem)
    requires TellsAt(o, n, path, place, p)
    ensures p in WalkProblems(o, n, path)
    decreases |place|
  {
    if place != [] {
      var step := place[0];
      StepDown(o, n, path, place, p);
      ToldIsReported(Child(o, step).value, Child(n, step).value, path + StepText(step), place[1..], p);
      ChildProblems(o, n, path, step);
    } else if n.Dict? {
      RootTells(o, n, path, p);
    }
  }

  lemma FieldTells(o: Schema, n: Schema, path: string, k: string, p: Problem)
    requires o.Dict? && n.Dict? && k in o.properties && k !in n.properties && p in PropertyProblems(o, n, path, k)
    ensures Tells(o, n, path, p)
  {
    PathsAgree(path, k);
  }

  lemma ItemsTell(o: Schema, n: Schema, path: string, p: Problem)
    requires o.Dict? && n.Dict? && p in ItemsProblems(o, n, path) && !IsDict(n.items)
    ensures Tells(o, n, path, p)
  {
  }

  lemma AdditionalTells(o: Schema, n: Schema, path: string, p: Problem)
    requires o.Dict? && n.Dict? && p in AdditionalProblems(o, n, path)
    requires !(HasValueSchema(o.additional) && HasValueSchema(n.additional))
    ensures Tells(o, n, path, p)
  {
  }

  /** A problem is the node's own, or comes from the child a step leads to. */
  lemma OwnOrChild(o: Schema, n: Schema, path: string, p: Problem) returns (step: Option<Step>)
    requires o.Dict? && n.Dict? && p in WalkProblems(o, n, path)
    ensures step.None? ==> Tells(o, n, path, p)
    ensures step.Some? ==>
              var oc, nc := Child(o, step.value), Child(n, step.value);
              oc.Some? && nc.Some? && p in WalkProblems(oc.value, nc.value, path + StepText(step.value))
  {
    step := None;
    PathsAgree(path, "");
    if p in FieldProblems(o, n, path, o.properties.Keys) {
      var k :| k in o.properties && p in PropertyProblems(o, n, path, k);
      if k in n.properties {
        PathsAgree(path, k);
        step := Some(Field(k));
      } else {
        FieldTells(o, n, path, k, p);
      }
    } else if p in ItemsProblems(o, n, path) {
      if IsDict(n.items) {
        step := Some(Element);
      } else {
        ItemsTell(o, n, path, p);
      }
    } else if p in AdditionalProblems(o, n, path) {
      if HasValueSchema(o.additional) && HasValueSchema(n.additional) {
        step := Some(MapValue);
      } else {
        AdditionalTells(o, n, path, p);
      }
    } else {
      NodeExact(o, n, path, p);
    }
  }

  lemma {:induction false} ReportedIsTold(o: Schema, n: Schema, path: string, p: Problem) returns (place: seq<Step>)
    requires p in WalkProblems(o, n, path)
    ensures TellsAt(o, n, path, place, p)
    decreases o
  {
    place := [];
    if n.Dict? {
      var step := OwnOrChild(o, n, path, p);
      if step.Some? {
        var rest := ReportedIsTold(Child(o, step.value).value, Child(n, step.value).value,
                                   path + StepText(step.value), p);
        place := [step.value] + rest;
        assert place[1..] == rest;
        StepDown(o, n, path, place, p);
      }
    }
  }

  /** The walk reports a problem exactly if two nodes at one place of both trees tell it, under that place's path. */
  lemma ReportExact(o: Schema, n: Schema, path: string, p: Problem)
    ensures p in WalkProblems(o, n, path) <==> exists place :: TellsAt(o, n, path, place, p)
  {
    if p in WalkProblems(o, n, path) {
      var place := ReportedIsTold(o, n, path, p);
    }
    if place :| TellsAt(o, n, path, place, p) {
      ToldIsReported(o, n, path, place, p);
    }
  }

  // ----- whole documents -----

  /** The last version of that name in the list. */
  predicate Named(versions: seq<Version>, v: Version) {
    exists i | 0 <= i < |versions| ::
      versions[i] == v && forall j | i < j < |versions| :: versions[j].name != v.name
  }

  ghost predicate PairTells(v: Version, w: Version, p: Problem) {
    || (p == Problem(v.name, ServedFlipped) && v.served != Some(false) && w.served == Some(false))
    || exists place :: TellsAt(v.schema, w.schema, v.name, place, p)
  }

  /** What a version of the old document gives the report. */
  ghost predicate VersionTells(v: Version, versions: seq<Version>, p: Problem) {
    if forall w | w in versions :: w.name != v.name then p == Problem(v.name, VersionRemoved)
    else
      exists w :: Named(versions, w) && w.name == v.name && PairTells(v, w, p)
  }

  ghost predicate IdentityTells(o: Document, n: Document, p: Problem) {
    exists key :: key in o.identity && !(key in n.identity && n.identity[key] == o.identity[key])
                  && p.kind == IdentityChanged && NamesField(key, p.path)
  }

  predicate NamesField(key: Identity, path: string) {
    match key
    case Group => path == "spec.group"
    case Scope => path == "spec.scope"
    case Plural => path == "spec.names.plural"
    case KindName => path == "spec.names.kind"
  }

  lemma NamedExact(versions: seq<Version>, v: Version)
    ensures Named(versions, v) <==> v.name in Versions(versions) && Versions(versions)[v.name] == v
  {
    VersionsExact(versions, v.name);
    var i := LastNamed(versions, v.name);
    if Named(versions, v) {
      var j :| 0 <= j < |versions| && versions[j] == v && forall k | j < k < |versions| :: versions[k].name != v.name;
      assert i == j;
    }
  }

  lemma UnnamedExact(versions: seq<Version>, name: string)
    ensures name !in Versions(versions) <==> forall w | w in versions :: w.name != name
  {
    VersionsExact(versions, name);
  }

  lemma VersionExact(v: Version, versions: seq<Version>, p: Problem)
    ensures p in VersionProblems(v, Versions(versions)) <==> VersionTells(v, versions, p)
  {
    UnnamedExact(versions, v.name);
    if v.name in Versions(versions) {
      var w := Versions(versions)[v.name];
      forall u ensures Named(versions, u) && u.name == v.name <==> u == w {
        NamedExact(versions, u);
      }
      ReportExact(v.schema, w.schema, v.name, p);
    }
  }

  lemma FieldNamed(key: Identity, path: string)
    ensures NamesField(key, path) <==> path == IdentityPath(key)
    ensures key in IDENTITIES
  {
    match key case Group => assert IDENTITIES[0] == key; case Scope => assert IDENTITIES[1] == key;
      case Plural => assert IDENTITIES[2] == key; case KindName => assert IDENTITIES[3] == key;
  }

  lemma IdentityExact(o: Document, n: Document, p: Problem)
    ensures p in IdentityProblems(o, n, IDENTITIES) <==> IdentityTells(o, n, p)
  {
    forall key: Identity ensures key in IDENTITIES && (NamesField(key, p.path) <==> p.path == IdentityPath(key)) {
      FieldNamed(key, p.path);
    }
    if IdentityTells(o, n, p) {
      var key :| key in o.identity && !(key in n.identity && n.identity[key] == o.identity[key])
                 && p.kind == IdentityChanged && NamesField(key, p.path);
      assert IdentityMoved(o, n, key) && p == Problem(IdentityPath(key), IdentityChanged);
    }
    if p in IdentityProblems(o, n, IDENTITIES) {
      var key :| key in IDENTITIES && IdentityMoved(o, n, key) && p == Problem(IdentityPath(key), IdentityChanged);
      assert NamesField(key, p.path);
    }
  }

  /** A comparison reports a problem exactly if an identity field, or a version, tells it. */
  lemma CompareExact(o: Document, n: Document, p: Problem)
    ensures p in CompareProblems(o, n)
       <==> IdentityTells(o, n, p) || exists v :: Named(o.versions, v) && VersionTells(v, n.versions, p)
  {
    IdentityExact(o, n, p);
    var older := Versions(o.versions);
    forall v ensures p in VersionProblems(v, Versions(n.versions)) <==> VersionTells(v, n.versions, p) {
      VersionExact(v, n.versions, p);
    }
    forall v ensures Named(o.versions, v) <==> v.name in older && older[v.name] == v {
      NamedExact(o.versions, v);
    }
    if p in VersionsProblems(older, Versions(n.versions), older.Keys) {
      var name :| name in older && p in VersionProblems(older[name], Versions(n.versions));
      assert Named(o.versions, older[name]);
    }
    if v :| Named(o.versions, v) && VersionTells(v, n.versions, p) {
      assert p in VersionsProblems(older, Versions(n.versions), older.Keys);
    }
  }
}
