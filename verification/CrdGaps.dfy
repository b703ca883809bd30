/**
 What the guard does not catch.

 Every clause of NodeComparable excludes a real false negative of walk: EveryClauseNeeded gives, for each, two
 trees that fail that clause and no other, between which walk reports nothing, and a stored value that the new
 tree rejects or prunes.
 */
module CrdGaps {
  import opened Wrappers
  import opened CrdSchema
  import opened CrdGuard
  import opened CrdSoundness
  import CrdCompose
  import Regex

  /** The guard is silent, yet the stored value v does not survive the change. */
  ghost predicate Missed(orc: Oracle, o: Schema, n: Schema, v: Value) {
    && Compatible(o, n)
    && Valid(orc, o, v) && Prune(o, v) == v
    && !(Valid(orc, n, v) && Prune(n, v) == v)
  }

  /** The trees are Comparable but for this one clause at their roots. */
  ghost predicate OnlyFails(c: Clause, o: Schema, n: Schema) {
    && o.Dict? && n.Dict? && !Meets(c, o, n, false) && ChildrenComparable(o, n, false)
    && forall d: Clause | d != c :: Meets(d, o, n, false)
  }

  const TEXT: Schema := EMPTY.(typ := Some("string"))
  const FREE: Schema := EMPTY.(preserve := Some(true))
  const OBJECT: Schema := EMPTY.(typ := Some("object"))

  // On every node, walk lets these changes pass.

  lemma IntOrStringAddedSilent(o: Schema)
    requires o.Dict?
    ensures Compatible(o, o.(intOrString := Some(true)))
  {
    CrdCompose.WalkReflexive(o);
  }

  lemma ItemsAddedSilent(o: Schema, items: Schema)
    requires o.Dict? && !IsDict(o.items)
    ensures Compatible(o, o.(items := Some(items)))
  {
    CrdCompose.WalkReflexive(o);
  }

  lemma PropertyAddedSilent(o: Schema, k: string, s: Schema)
    requires o.Dict? && k !in o.properties
    ensures Compatible(o, o.(properties := o.properties[k := s]))
  {
    CrdCompose.WalkReflexive(o);
    var n := o.(properties := o.properties[k := s]);
    forall j | j in o.properties ensures j in n.properties && Compatible(o.properties[j], n.properties[j]) {
      assert n.properties[j] == o.properties[j];
    }
    assert AdditionalCompatible(o, n);
    assert KeywordsCompatible(o, n) && BoundsCompatible(o, n) && CelCompatible(o, n);
  }

  lemma LiteralTrueDroppedSilent(o: Schema)
    requires o.Dict? && o.additional == Literal(true)
    ensures Compatible(o, o.(additional := Absent))
  {
    CrdCompose.WalkReflexive(o);
  }

  lemma LiteralTrueAddedSilent(o: Schema)
    requires o.Dict?
    ensures Compatible(o, o.(additional := Literal(true)))
  {
    CrdCompose.WalkReflexive(o);
  }

  lemma CombinatorConfusedSilent(o: Schema, c: Combinator, x: Value)
    requires o.Dict? && c in o.combinators && PyEq(x, o.combinators[c])
    ensures Compatible(o, o.(combinators := o.combinators[c := x]))
  {
    CrdCompose.WalkReflexive(o);
    var n := o.(combinators := o.combinators[c := x]);
    forall d ensures !CombinatorBreaks(o, n, d) {
      assert d != c ==> (d in n.combinators <==> d in o.combinators);
      assert d != c && d in o.combinators ==> n.combinators[d] == o.combinators[d];
    }
    assert KeywordsCompatible(o, n) && BoundsCompatible(o, n) && CelCompatible(o, n);
    assert AdditionalCompatible(o, n);
  }

  lemma UnreadChangedSilent(o: Schema, keys: map<Other, Value>)
    requires o.Dict? && o != EMPTY
    ensures Compatible(o, o.(otherKeys := keys))
  {
    CrdCompose.WalkReflexive(o);
  }

  lemma MapKeysDroppedSilent(o: Schema)
    requires o.Dict?
    ensures Compatible(o, o.(mapKeys := []))
  {
    CrdCompose.WalkReflexive(o);
  }

  lemma WidenedPatternSilent(o: Schema, p: string)
    requires o.Dict? && o.pattern.Some? && Regex.Widened(o.pattern.value, p)
    ensures Compatible(o, o.(pattern := Some(p)))
  {
    CrdCompose.WalkReflexive(o);
  }

  lemma AcceptedRuleSilent(o: Schema, rule: Rule)
    requires o.Dict? && CelAccepted(o.rules, rule)
    ensures Compatible(o, o.(rules := [rule]))
  {
    CrdCompose.WalkReflexive(o);
  }

  // What each of them can do to a stored value.

  /** An old node that is no mapping at all may gain any type. */
  lemma NoMappingMissed(orc: Oracle)
    ensures Missed(orc, NotDict, TEXT, Num(0.0))
  {
  }

  lemma OnlyEmptyFilled()
    ensures OnlyFails(OldNotEmpty, EMPTY, TEXT)
  {
  }

  /** So may an empty one. */
  lemma EmptyOldNodeMissed(orc: Oracle)
    ensures OnlyFails(OldNotEmpty, EMPTY, TEXT) && Missed(orc, EMPTY, TEXT, Num(0.0))
  {
    OnlyEmptyFilled();
  }

  lemma OnlyIntOrStringAdded()
    ensures OnlyFails(NoIntOrStringAdded, FREE, FREE.(intOrString := Some(true)))
  {
  }

  /** x-kubernetes-int-or-string may appear on a node that held anything. */
  lemma IntOrStringAddedMissed(orc: Oracle)
    ensures var n := FREE.(intOrString := Some(true));
            OnlyFails(NoIntOrStringAdded, FREE, n) && Missed(orc, FREE, n, Bool(true))
  {
    OnlyIntOrStringAdded();
    IntOrStringAddedSilent(FREE);
  }

  lemma OnlyItemsAdded()
    ensures OnlyFails(NoItemsAdded, FREE, FREE.(items := Some(TEXT)))
  {
  }

  /** An items schema may appear on a node that held arrays of anything. */
  lemma ItemsAddedMissed(orc: Oracle)
    ensures var n := FREE.(items := Some(TEXT));
            OnlyFails(NoItemsAdded, FREE, n) && Missed(orc, FREE, n, Arr([Num(0.0)]))
  {
    OnlyItemsAdded();
    var n, v := FREE.(items := Some(TEXT)), Arr([Num(0.0)]);
    ItemsAddedSilent(FREE, TEXT);
    assert v.elems[0] == Num(0.0);
    assert !Valid(orc, TEXT, v.elems[0]);
  }

  lemma FreeFieldKept(k: string, x: Value)
    ensures Kept(FREE, k, false) && FieldAfter(FREE, k, x) == x
  {
  }

  lemma FreeObjectStored(orc: Oracle, v: Value)
    requires v.Obj?
    ensures Valid(orc, FREE, v) && Prune(FREE, v) == v
  {
    forall k | k in v.fields ensures Kept(FREE, k, false) && FieldAfter(FREE, k, v.fields[k]) == v.fields[k] {
      FreeFieldKept(k, v.fields[k]);
    }
    FieldsKept(FREE, false, v);
  }

  lemma OnlyPropertyAdded()
    ensures OnlyFails(NoPropertyAdded, FREE, FREE.(properties := map["a" := TEXT]))
  {
    assert "a" in map["a" := TEXT].Keys && "a" !in FREE.properties.Keys;
  }

  /** A property may be named where unknown fields were kept. */
  lemma PropertyAddedMissed(orc: Oracle)
    ensures var n := FREE.(properties := map["a" := TEXT]);
            OnlyFails(NoPropertyAdded, FREE, n) && Missed(orc, FREE, n, Obj(map["a" := Num(0.0)]))
  {
    var n, v := FREE.(properties := FREE.properties["a" := TEXT]), Obj(map["a" := Num(0.0)]);
    PropertyAddedSilent(FREE, "a", TEXT);
    FreeObjectStored(orc, v);
    assert "a" in v.fields && FieldSchema(n, "a") == Some(TEXT);
    assert !Valid(orc, TEXT, v.fields["a"]);
    OnlyPropertyAdded();
  }

  /** An object with one field that holds nothing. */
  const HOLDER: Value := Obj(map["a" := Null])

  lemma OpenHolderStored(orc: Oracle, o: Schema)
    requires o == OBJECT.(additional := Literal(true)) || o == OBJECT.(additional := Values(NotDict))
    ensures Valid(orc, o, HOLDER) && Prune(o, HOLDER) == HOLDER
  {
    assert Prune(o, HOLDER).fields == HOLDER.fields;
  }

  lemma ClosedHolderPruned()
    ensures Prune(OBJECT, HOLDER) != HOLDER
  {
    assert "a" in HOLDER.fields && "a" !in Prune(OBJECT, HOLDER).fields;
  }

  lemma OnlyValueSchemaDropped()
    ensures OnlyFails(ValueSchemaIsMapping, OBJECT.(additional := Values(NotDict)), OBJECT)
  {
  }

  /** A value schema that is no mapping governs every field, and its removal goes unnoticed. */
  lemma ValueSchemaDroppedMissed(orc: Oracle)
    ensures var o := OBJECT.(additional := Values(NotDict));
            OnlyFails(ValueSchemaIsMapping, o, OBJECT) && Missed(orc, o, OBJECT, HOLDER)
  {
    OnlyValueSchemaDropped();
    var o := OBJECT.(additional := Values(NotDict));
    OpenHolderStored(orc, o);
    ClosedHolderPruned();
    CrdCompose.WalkReflexive(OBJECT);
  }

  lemma OnlyLiteralTrueDropped()
    ensures OnlyFails(LiteralTrueKept, OBJECT.(additional := Literal(true)), OBJECT)
  {
  }

  /** Dropping a literal additionalProperties: true prunes what it kept. */
  lemma LiteralTrueDroppedMissed(orc: Oracle)
    ensures var o := OBJECT.(additional := Literal(true));
            OnlyFails(LiteralTrueKept, o, OBJECT) && Missed(orc, o, OBJECT, HOLDER)
  {
    OnlyLiteralTrueDropped();
    var o := OBJECT.(additional := Literal(true));
    LiteralTrueDroppedSilent(o);
    OpenHolderStored(orc, o);
    ClosedHolderPruned();
  }

  /** An object with an object in it. */
  const NESTED: Value := Obj(map["a" := Obj(map["b" := Null])])

  lemma NestedStripped(n: Schema)
    requires n == FREE.(additional := Literal(true))
    ensures Prune(n, NESTED) != NESTED
  {
    assert Prune(n, NESTED).fields["a"] == Strip(NESTED.fields["a"]) == Obj(map[]);
    assert "b" in NESTED.fields["a"].fields;
  }

  lemma OnlyLiteralTrueAdded()
    ensures OnlyFails(NoLiteralTrueAdded, FREE, FREE.(additional := Literal(true)))
  {
  }

  /** Adding a literal additionalProperties: true empties the objects inside fields kept whole before. */
  lemma LiteralTrueAddedMissed(orc: Oracle)
    ensures var n := FREE.(additional := Literal(true));
            OnlyFails(NoLiteralTrueAdded, FREE, n) && Missed(orc, FREE, n, NESTED)
  {
    OnlyLiteralTrueAdded();
    LiteralTrueAddedSilent(FREE);
    FreeObjectStored(orc, NESTED);
    NestedStripped(FREE.(additional := Literal(true)));
  }

  lemma NestedFieldPruned(orc: Oracle)
    ensures var n, v := FREE.(additional := Values(OBJECT)), Obj(map["a" := Obj(map["b" := Null])]);
            Valid(orc, FREE, v) && Valid(orc, n, v) && Prune(FREE, v) == v && Prune(n, v) != v
  {
    var n, inner := FREE.(additional := Values(OBJECT)), Obj(map["b" := Null]);
    var v := Obj(map["a" := inner]);
    FreeObjectStored(orc, v);
    assert "b" in inner.fields && "b" !in Prune(OBJECT, inner).fields;
    assert FieldSchema(n, "a") == Some(OBJECT) && "a" in v.fields;
    assert Prune(n, v).fields["a"] == FieldAfter(n, "a", inner) == Prune(OBJECT, inner);
    assert Valid(orc, OBJECT, inner);
  }

  lemma FreeReportsNothing(n: Schema, path: string)
    requires n == FREE.(additional := Values(OBJECT))
    ensures NodeReport([], FREE, n, path) == []
  {
    CrdCompose.WalkReflexive(FREE);
    NodeSilent(FREE, n, path);
    assert KeywordsCompatible(FREE, n) && BoundsCompatible(FREE, n) && CelCompatible(FREE, n);
  }

  lemma OnlyAdditionalReported(n: Schema, path: string)
    requires n == FREE.(additional := Values(OBJECT))
    ensures WalkProblems(FREE, n, path) == {Problem(ValuePath(path), AdditionalAdded)}
  {
    FreeReportsNothing(n, path);
    assert FieldProblems(FREE, n, path, FREE.properties.Keys) == {};
  }

  /** A value schema added to an open node can prune stored data, and no other report says so. */
  lemma AdditionalAddedLoses(orc: Oracle, path: string)
    ensures var n, v := FREE.(additional := Values(OBJECT)), Obj(map["a" := Obj(map["b" := Null])]);
            && Valid(orc, FREE, v) && Valid(orc, n, v) && Prune(FREE, v) == v && Prune(n, v) != v
            && WalkProblems(FREE, n, path) == {Problem(ValuePath(path), AdditionalAdded)}
  {
    NestedFieldPruned(orc);
    OnlyAdditionalReported(FREE.(additional := Values(OBJECT)), path);
  }

  const KEYED: Schema :=
    EMPTY.(typ := Some("array"), listType := Some("map"), mapKeys := ["k"], items := Some(FREE))

  function KeyedElem(x: real): Value {
    Obj(map["k" := Num(x)])
  }

  lemma FreeElem(orc: Oracle, x: real)
    ensures Valid(orc, FREE, KeyedElem(x)) && Prune(FREE, KeyedElem(x)) == KeyedElem(x)
  {
    FreeObjectStored(orc, KeyedElem(x));
  }

  lemma KeysDiffer(x: real, y: real)
    requires x != y
    ensures KeyTuple(["k"], KeyedElem(x)) != KeyTuple(["k"], KeyedElem(y))
  {
    assert KeyTuple(["k"], KeyedElem(x))[0] == Some(Num(x)) && KeyTuple(["k"], KeyedElem(y))[0] == Some(Num(y));
  }

  lemma KeyedPruned(orc: Oracle, v: Value)
    requires v == Arr([KeyedElem(0.0), KeyedElem(1.0)])
    ensures Prune(KEYED, v) == v
  {
    FreeElem(orc, 0.0);
    FreeElem(orc, 1.0);
    assert Prune(KEYED, v).elems == v.elems;
  }

  lemma KeyedNodeOk(orc: Oracle, v: Value)
    requires v == Arr([KeyedElem(0.0), KeyedElem(1.0)])
    ensures NodeOk(orc, KEYED, v)
  {
    KeysDiffer(0.0, 1.0);
    assert ListOk(KEYED.listType, KEYED.mapKeys, v);
  }

  lemma ArrayValid(orc: Oracle, s: Schema, v: Value)
    requires s.Dict? && v.Arr? && s.items.Some? && s.enum_.None? && TypeOk(s, v) && NodeOk(orc, s, v)
    requires forall i | 0 <= i < |v.elems| :: Valid(orc, s.items.value, v.elems[i])
    ensures Valid(orc, s, v)
  {
  }

  lemma KeyedValueStored(orc: Oracle, v: Value)
    requires v == Arr([KeyedElem(0.0), KeyedElem(1.0)])
    ensures Valid(orc, KEYED, v) && Prune(KEYED, v) == v
  {
    KeyedPruned(orc, v);
    KeyedNodeOk(orc, v);
    FreeElem(orc, 0.0);
    FreeElem(orc, 1.0);
    ArrayValid(orc, KEYED, v);
  }

  lemma FreeNodeComparable()
    ensures NodeComparable(FREE, FREE, false)
  {
  }

  lemma FreeComparable()
    ensures Comparable(FREE, FREE, false)
  {
    FreeNodeComparable();
    assert ChildrenComparable(FREE, FREE, false);
  }

  lemma OnlyItemsChildren(o: Schema, n: Schema, item: Schema)
    requires o.Dict? && n.Dict? && o.items == n.items == Some(item) && !Open(o, false)
    requires o.properties == map[] && o.additional == Absent
    requires Comparable(item, item, false)
    ensures ChildrenComparable(o, n, false)
  {
  }

  lemma OnlyKeysDiffer(o: Schema, n: Schema)
    requires o.Dict? && n == o.(mapKeys := []) && o.listType == Some("map") && o.mapKeys != []
    requires NodeComparable(o, o, false) && ChildrenComparable(o, n, false)
    ensures OnlyFails(MapKeysKept, o, n)
  {
    forall d: Clause | d != MapKeysKept ensures Meets(d, o, n, false) {
      assert Meets(d, o, o, false);
    }
  }

  lemma KeyedNodeComparable()
    ensures NodeComparable(KEYED, KEYED, false)
  {
  }

  lemma OnlyMapKeysDropped()
    ensures OnlyFails(MapKeysKept, KEYED, KEYED.(mapKeys := []))
  {
    FreeComparable();
    KeyedNodeComparable();
    OnlyItemsChildren(KEYED, KEYED.(mapKeys := []), FREE);
    OnlyKeysDiffer(KEYED, KEYED.(mapKeys := []));
  }

  lemma KeysCollide(v: Value)
    requires v.Arr? && |v.elems| == 2
    ensures !ListOk(Some("map"), [], v)
  {
    assert KeyTuple([], v.elems[0]) == KeyTuple([], v.elems[1]);
  }

  lemma ListDecides(orc: Oracle, s: Schema, v: Value)
    requires s.Dict? && v.Arr? && !ListOk(s.listType, s.mapKeys, v)
    ensures !Valid(orc, s, v)
  {
  }

  /** Dropping the keys of a map list makes its elements collide. */
  lemma MapKeysDroppedMissed(orc: Oracle)
    ensures var n := KEYED.(mapKeys := []);
            OnlyFails(MapKeysKept, KEYED, n) && Missed(orc, KEYED, n, Arr([KeyedElem(0.0), KeyedElem(1.0)]))
  {
    var n, v := KEYED.(mapKeys := []), Arr([KeyedElem(0.0), KeyedElem(1.0)]);
    KeyedValueStored(orc, v);
    MapKeysDroppedSilent(KEYED);
    OnlyMapKeysDropped();
    KeysCollide(v);
    ListDecides(orc, n, v);
  }

  lemma OnlyEnumConfused()
    ensures OnlyFails(EnumTellsApart, FREE.(enum_ := Some([Bool(true)])), FREE.(enum_ := Some([Num(1.0)])))
  {
    var oe, ne := [Bool(true)], [Num(1.0)];
    assert oe[0] in oe && ne[0] in ne && PyEq(oe[0], ne[0]);
  }

  /** Python finds the boolean true in an enum that only lists the number 1. */
  lemma EnumBooleanMissed(orc: Oracle)
    ensures var o, n := FREE.(enum_ := Some([Bool(true)])), FREE.(enum_ := Some([Num(1.0)]));
            OnlyFails(EnumTellsApart, o, n) && Missed(orc, o, n, Bool(true))
  {
    OnlyEnumConfused();
    var oe, ne := [Bool(true)], [Num(1.0)];
    assert PyEq(Bool(true), ne[0]);
    assert forall v | v in oe :: v == Bool(true);
  }

  /** The subschema {enum: [x]}. */
  function EnumOf(x: Value): Value {
    Obj(map["enum" := Arr([x])])
  }

  lemma EnumsConfused()
    ensures PyEq(EnumOf(Num(1.0)), EnumOf(Bool(true))) && EnumOf(Num(1.0)) != EnumOf(Bool(true))
  {
    var x, y := Arr([Num(1.0)]), Arr([Bool(true)]);
    assert PyNorm(x).elems == [Num(1.0)] && PyNorm(y).elems == [Num(1.0)];
    assert PyNorm(EnumOf(Num(1.0))).fields == map["enum" := PyNorm(x)];
    assert PyNorm(EnumOf(Bool(true))).fields == map["enum" := PyNorm(y)];
    assert EnumOf(Num(1.0)).fields["enum"].elems[0] != EnumOf(Bool(true)).fields["enum"].elems[0];
  }

  function Negating(x: Value): Schema {
    EMPTY.(typ := Some("integer"), combinators := map[Not := x])
  }

  lemma OnlyCombinatorConfused(x: Value, y: Value)
    requires PyEq(y, x) && x != y
    ensures OnlyFails(CombinatorsTellApart, Negating(x), Negating(y))
  {
    assert Not in Negating(x).combinators && Not in Negating(y).combinators;
  }

  lemma CombinatorDecides(orc: Oracle, x: Value)
    ensures Valid(orc, Negating(x), Num(1.0)) <==> orc.combinator(Not, x, Num(1.0))
  {
    assert Not in Negating(x).combinators && Negating(x).combinators[Not] == x;
  }

  /** Python takes `not: {enum: [1]}` for `not: {enum: [true]}`. */
  lemma CombinatorBooleanMissed(orc: Oracle)
    requires orc.combinator(Not, EnumOf(Bool(true)), Num(1.0)) && !orc.combinator(Not, EnumOf(Num(1.0)), Num(1.0))
    ensures var o, n := Negating(EnumOf(Bool(true))), Negating(EnumOf(Num(1.0)));
            OnlyFails(CombinatorsTellApart, o, n) && Missed(orc, o, n, Num(1.0))
  {
    var x, y := EnumOf(Bool(true)), EnumOf(Num(1.0));
    EnumsConfused();
    OnlyCombinatorConfused(x, y);
    CombinatorConfusedSilent(Negating(x), Not, y);
    assert map[Not := x][Not := y] == map[Not := y];
    CombinatorDecides(orc, x);
    CombinatorDecides(orc, y);
  }

  const EVEN: Schema := FREE.(otherKeys := map[MultipleOf := Num(2.0)])

  lemma OnlyUnreadAdded()
    ensures OnlyFails(NoUnreadAdded, FREE, EVEN)
  {
    assert MultipleOf in EVEN.otherKeys && MultipleOf !in FREE.otherKeys;
  }

  /** A keyword that walk never looks at, such as multipleOf, may appear. */
  lemma UnreadAddedMissed(orc: Oracle)
    requires !orc.unread(MultipleOf, Num(2.0), Num(1.0))
    ensures OnlyFails(NoUnreadAdded, FREE, EVEN) && Missed(orc, FREE, EVEN, Num(1.0))
  {
    OnlyUnreadAdded();
    UnreadChangedSilent(FREE, EVEN.otherKeys);
    assert MultipleOf in EVEN.otherKeys;
  }

  lemma OpenClassReads()
    ensures Regex.Alternatives(Regex.START, "", "[") == ["["]
    ensures Regex.Alternatives(Regex.START, "", "[|") == ["[|"]
    ensures Regex.Widened("[", "[|") && !Regex.Balanced("[")
  {
    var p, q := "[", "[|";
    assert "" + [p[0]] == p && p[1..] == "" && q[1..] == "|" && q[1..][1..] == "" && p + ['|'] == q;
    var inClass := Regex.Step(Regex.START, '[');
    assert Regex.Run(Regex.START, p) == Regex.Run(inClass, "") == inClass;
    assert Regex.Alternatives(Regex.START, "", p) == Regex.Alternatives(inClass, p, "") == [p];
    assert Regex.Alternatives(Regex.START, "", q) == Regex.Alternatives(inClass, p, "|")
        == Regex.Alternatives(Regex.Step(inClass, '|'), q, "") == [q];
  }

  lemma OneAlternative(alternative: (string, string) -> bool, p: string, s: string)
    requires Regex.Alternatives(Regex.START, "", p) == [p]
    ensures Regex.Matches(alternative, p, s) <==> alternative(p, s)
  {
    assert p in [p];
  }

  lemma PatternDecides(orc: Oracle, p: string, s: string)
    ensures Valid(orc, TEXT.(pattern := Some(p)), Str(s)) <==> Regex.Matches(orc.alternative, p, s)
  {
  }

  lemma OnlyPatternOpened()
    ensures OnlyFails(PatternClosed, TEXT.(pattern := Some("[")), TEXT.(pattern := Some("[|")))
  {
    OpenClassReads();
  }

  /** After an unclosed '[' the appended '|' is part of a class, not an alternative. */
  lemma OpenClassPatternMissed(orc: Oracle)
    requires orc.alternative("[", "x") && !orc.alternative("[|", "x")
    ensures var o, n := TEXT.(pattern := Some("[")), TEXT.(pattern := Some("[|"));
            OnlyFails(PatternClosed, o, n) && Missed(orc, o, n, Str("x"))
  {
    OnlyPatternOpened();
    OpenClassReads();
    OneAlternative(orc.alternative, "[", "x");
    OneAlternative(orc.alternative, "[|", "x");
    PatternDecides(orc, "[", "x");
    PatternDecides(orc, "[|", "x");
    WidenedPatternSilent(TEXT.(pattern := Some("[")), "[|");
  }

  // ----- CEL rules that only look like disjunctions -----

  /** How many conditionals enclose the trailing disjunction. */
  function Conditionals(rule: Rule): nat {
    if rule.Cond? then 1 + Conditionals(rule.else_) else 0
  }

  /** The trailing disjunction is part of a comment or a string. */
  predicate EndsMasked(rule: Rule) {
    match rule
    case Cond(_, _, e) => EndsMasked(e)
    case _ => rule.Masked?
  }

  /** Every value the old rule admits, the new rule admits, under every reading of the atoms. */
  ghost predicate AdmitsMore(old_: Rule, rule: Rule) {
    forall orc: Oracle, v: Value :: Admits(orc, old_, v) ==> Admits(orc, rule, v)
  }

  /** The guard's suffix test accepts the rule for old_, and this is what stands around the disjunction. */
  predicate HasShape(rule: Rule, old_: Rule, depth: nat, masked: bool) {
    EndsInOr(rule, old_) && Conditionals(rule) == depth && (EndsMasked(rule) <==> masked)
  }

  function UnderConditionals(depth: nat, masked: bool): Rule {
    if depth > 0 then Cond(Atom("c"), Atom("t"), UnderConditionals(depth - 1, masked))
    else if masked then Masked(Atom("e"), Atom("r"))
    else Or(Atom("e"), Atom("r"))
  }

  lemma {:induction false} UnderConditionalsShape(depth: nat, masked: bool)
    ensures HasShape(UnderConditionals(depth, masked), Atom("r"), depth, masked)
  {
    if depth > 0 {
      UnderConditionalsShape(depth - 1, masked);
    }
  }

  /**
   The suffix test " || (old)" proves a widening for every rule of a given shape exactly when no conditional is
   open in front of the disjunction and CEL reads it as one: "c ? t : e || (old)" and "e // || (old)" may reject
   what old admits.
   */
  lemma CelWideningExact(depth: nat, masked: bool)
    ensures (forall rule, old_ | HasShape(rule, old_, depth, masked) :: AdmitsMore(old_, rule))
       <==> depth == 0 && !masked
  {
    if depth > 0 || masked {
      UnderConditionalsShape(depth, masked);
      var rule := UnderConditionals(depth, masked);
      var orc := Oracle((text, v) => text == "c" || text == "r", (c, x, v) => true, (u, x, v) => true,
                        (f, v) => true, (a, s) => true);
      assert Admits(orc, Atom("r"), Null) && !Admits(orc, rule, Null);
      assert !AdmitsMore(Atom("r"), rule);
    }
  }

  lemma OnlyConditionalAdded(rule: Rule)
    requires rule.Cond?
    ensures OnlyFails(RulesUnconditional, FREE.(rules := [Atom("r")]), FREE.(rules := [rule]))
  {
    assert rule in [rule] && rule !in [Atom("r")];
  }

  lemma OnlyMaskedAdded(rule: Rule)
    requires rule.Masked?
    ensures OnlyFails(RulesUnmasked, FREE.(rules := [Atom("r")]), FREE.(rules := [rule]))
  {
    assert rule in [rule] && rule !in [Atom("r")];
  }

  lemma ShapeAccepted(depth: nat, masked: bool)
    ensures CelAccepted([Atom("r")], UnderConditionals(depth, masked))
  {
    UnderConditionalsShape(depth, masked);
    assert [Atom("r")][0] == Atom("r");
  }

  lemma RuleDecides(orc: Oracle, rule: Rule, v: Value)
    requires v == Bool(true)
    ensures Valid(orc, FREE.(rules := [rule]), v) <==> Admits(orc, rule, v)
  {
    assert rule in [rule];
  }

  lemma RuleReplacedMissed(orc: Oracle, rule: Rule)
    requires CelAccepted([Atom("r")], rule) && orc.cel("r", Bool(true)) && !Admits(orc, rule, Bool(true))
    ensures Missed(orc, FREE.(rules := [Atom("r")]), FREE.(rules := [rule]), Bool(true))
  {
    AcceptedRuleSilent(FREE.(rules := [Atom("r")]), rule);
    RuleDecides(orc, Atom("r"), Bool(true));
    RuleDecides(orc, rule, Bool(true));
  }

  /** The rule "c ? t : e || (r)" after the rule "r". */
  lemma ConditionalRuleMissed(orc: Oracle)
    requires orc.cel("r", Bool(true)) && orc.cel("c", Bool(true)) && !orc.cel("t", Bool(true))
    ensures var o, n := FREE.(rules := [Atom("r")]), FREE.(rules := [UnderConditionals(1, false)]);
            OnlyFails(RulesUnconditional, o, n) && Missed(orc, o, n, Bool(true))
  {
    var rule := UnderConditionals(1, false);
    OnlyConditionalAdded(rule);
    ShapeAccepted(1, false);
    assert rule == Cond(Atom("c"), Atom("t"), UnderConditionals(0, false));
    RuleReplacedMissed(orc, rule);
  }

  /** The rule "e // || (r)" after the rule "r". */
  lemma MaskedRuleMissed(orc: Oracle)
    requires orc.cel("r", Bool(true)) && !orc.cel("e", Bool(true))
    ensures var o, n := FREE.(rules := [Atom("r")]), FREE.(rules := [UnderConditionals(0, true)]);
            OnlyFails(RulesUnmasked, o, n) && Missed(orc, o, n, Bool(true))
  {
    OnlyMaskedAdded(UnderConditionals(0, true));
    ShapeAccepted(0, true);
    RuleReplacedMissed(orc, UnderConditionals(0, true));
  }

  // ----- every clause -----

  ghost predicate Needed(c: Clause) {
    exists orc, o, n, v :: OnlyFails(c, o, n) && Missed(orc, o, n, v)
  }

  lemma NeededBy(c: Clause, orc: Oracle, o: Schema, n: Schema, v: Value)
    requires OnlyFails(c, o, n) && Missed(orc, o, n, v)
    ensures Needed(c)
  {
  }

  /** One reading of atoms, combinators, unread keywords and alternatives that serves every example. */
  const JUDGE: Oracle :=
    Oracle((text, v) => text == "r" || text == "c", (c, x, v) => x != EnumOf(Num(1.0)),
           (u, x, v) => false, (f, v) => true, (a, s) => a != "[|")

  /** Clauses about which fields and elements a node describes. */
  predicate AboutShape(c: Clause) {
    || c.OldNotEmpty? || c.NoIntOrStringAdded? || c.NoItemsAdded? || c.NoPropertyAdded? || c.ValueSchemaIsMapping?
    || c.LiteralTrueKept? || c.NoLiteralTrueAdded?
  }

  lemma ShapeClauseNeeded(c: Clause)
    requires AboutShape(c)
    ensures Needed(c)
  {
    match c {
      case OldNotEmpty =>
        EmptyOldNodeMissed(JUDGE);
        NeededBy(c, JUDGE, EMPTY, TEXT, Num(0.0));
      case NoIntOrStringAdded =>
        IntOrStringAddedMissed(JUDGE);
        NeededBy(c, JUDGE, FREE, FREE.(intOrString := Some(true)), Bool(true));
      case NoItemsAdded =>
        ItemsAddedMissed(JUDGE);
        NeededBy(c, JUDGE, FREE, FREE.(items := Some(TEXT)), Arr([Num(0.0)]));
      case NoPropertyAdded =>
        PropertyAddedMissed(JUDGE);
        NeededBy(c, JUDGE, FREE, FREE.(properties := map["a" := TEXT]), Obj(map["a" := Num(0.0)]));
      case ValueSchemaIsMapping =>
        ValueSchemaDroppedMissed(JUDGE);
        NeededBy(c, JUDGE, OBJECT.(additional := Values(NotDict)), OBJECT, HOLDER);
      case LiteralTrueKept =>
        LiteralTrueDroppedMissed(JUDGE);
        NeededBy(c, JUDGE, OBJECT.(additional := Literal(true)), OBJECT, HOLDER);
      case NoLiteralTrueAdded =>
        LiteralTrueAddedMissed(JUDGE);
        NeededBy(c, JUDGE, FREE, FREE.(additional := Literal(true)), NESTED);
    }
  }

  lemma ValueClauseNeeded(c: Clause)
    requires !AboutShape(c)
    ensures Needed(c)
  {
    match c {
      case MapKeysKept =>
        MapKeysDroppedMissed(JUDGE);
        NeededBy(c, JUDGE, KEYED, KEYED.(mapKeys := []), Arr([KeyedElem(0.0), KeyedElem(1.0)]));
      case EnumTellsApart =>
        EnumBooleanMissed(JUDGE);
        NeededBy(c, JUDGE, FREE.(enum_ := Some([Bool(true)])), FREE.(enum_ := Some([Num(1.0)])), Bool(true));
      case CombinatorsTellApart =>
        EnumsConfused();
        CombinatorBooleanMissed(JUDGE);
        NeededBy(c, JUDGE, Negating(EnumOf(Bool(true))), Negating(EnumOf(Num(1.0))), Num(1.0));
      case PatternClosed =>
        OpenClassPatternMissed(JUDGE);
        NeededBy(c, JUDGE, TEXT.(pattern := Some("[")), TEXT.(pattern := Some("[|")), Str("x"));
      case RulesUnconditional =>
        ConditionalRuleMissed(JUDGE);
        NeededBy(c, JUDGE, FREE.(rules := [Atom("r")]), FREE.(rules := [UnderConditionals(1, false)]), Bool(true));
      case RulesUnmasked =>
        MaskedRuleMissed(JUDGE);
        NeededBy(c, JUDGE, FREE.(rules := [Atom("r")]), FREE.(rules := [UnderConditionals(0, true)]), Bool(true));
      case NoUnreadAdded =>
        UnreadAddedMissed(JUDGE);
        NeededBy(c, JUDGE, FREE, EVEN, Num(1.0));
    }
  }

  /** No clause can be dropped: without it the guard's promise fails although all the others hold. */
  lemma EveryClauseNeeded(c: Clause)
    ensures Needed(c)
  {
    if AboutShape(c) {
      ShapeClauseNeeded(c);
    } else {
      ValueClauseNeeded(c);
    }
  }
}
