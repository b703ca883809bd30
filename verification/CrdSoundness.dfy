/**
 What a silent guard guarantees: every stored value that is valid and already pruned
 under the old schema is valid under the new one and loses nothing to pruning.

 walk leaves some changes unreported on purpose or by omission; Comparable names them,
 and CrdGaps shows each one is needed.
 */
module CrdSoundness {
  import opened Wrappers
  import opened CrdSchema
  import opened CrdGuard
  import Regex

  predicate NeverObject(s: Schema)
    requires s.Dict?
  {
    IsTrue(s.intOrString) || (Truthy(s.typ) && s.typ != Some("object"))
  }

  predicate NeverArray(s: Schema)
    requires s.Dict?
  {
    IsTrue(s.intOrString) || (Truthy(s.typ) && s.typ != Some("array"))
  }

  /** An object may hold fields that no named property describes. */
  predicate OpenObject(s: Schema, loose: bool)
    requires s.Dict?
  {
    Open(s, loose) || s.additional.Values? || s.additional == Literal(true)
  }

  /** The changes walk lets pass, each named by what holds when it is not made. */
  datatype Clause =
    | OldNotEmpty
    | NoIntOrStringAdded
    | NoItemsAdded
    | NoPropertyAdded
    | ValueSchemaIsMapping
    | LiteralTrueKept
    | NoLiteralTrueAdded
    | MapKeysKept
    | EnumTellsApart
    | CombinatorsTellApart
    | PatternClosed
    | RulesUnconditional
    | RulesUnmasked
    | NoUnreadAdded

  /** `loose` says that the nodes describe elements of an array that preserves unknown fields. */
  ghost predicate Meets(c: Clause, o: Schema, n: Schema, loose: bool)
    requires o.Dict? && n.Dict?
  {
    match c
    case OldNotEmpty => o != EMPTY
    case NoIntOrStringAdded =>
      IsTrue(n.intOrString) ==> IsTrue(o.intOrString) || o.typ == Some("integer") || o.typ == Some("string")
    case NoItemsAdded => IsDict(n.items) ==> IsDict(o.items) || NeverArray(o)
    case NoPropertyAdded => n.properties.Keys <= o.properties.Keys || !OpenObject(o, loose) || NeverObject(o)
    case ValueSchemaIsMapping => o.additional.Values? ==> o.additional.schema.Dict?
    case LiteralTrueKept =>
      o.additional == Literal(true) && n.additional == Absent ==> Open(n, loose) || NeverObject(o)
    case NoLiteralTrueAdded =>
      n.additional == Literal(true) ==> o.additional == Literal(true) || !OpenObject(o, loose) || NeverObject(o)
    case MapKeysKept => n.listType == Some("map") ==> n.mapKeys != [] || o.mapKeys == []
    case EnumTellsApart =>
      o.enum_.Some? && n.enum_.Some? ==>
        forall v, w | v in o.enum_.value && w in n.enum_.value :: PyEq(v, w) ==> v == w
    case CombinatorsTellApart =>
      forall c | c in o.combinators && c in n.combinators ::
        PyEq(n.combinators[c], o.combinators[c]) ==> n.combinators[c] == o.combinators[c]
    case PatternClosed =>
      o.pattern.Some? && n.pattern.Some? && o.pattern != n.pattern ==> Regex.Balanced(o.pattern.value)
    case RulesUnconditional => forall r | r in n.rules && r !in o.rules :: !r.Cond?
    case RulesUnmasked => forall r | r in n.rules && r !in o.rules :: !r.Masked?
    case NoUnreadAdded =>
      forall u | u in n.otherKeys && !u.Named? :: u in o.otherKeys && o.otherKeys[u] == n.otherKeys[u]
  }

  /** None of those changes is made at this node. */
  ghost predicate NodeComparable(o: Schema, n: Schema, loose: bool)
    requires o.Dict? && n.Dict?
  {
    && Meets(OldNotEmpty, o, n, loose)
    && Meets(NoIntOrStringAdded, o, n, loose)
    && Meets(NoItemsAdded, o, n, loose)
    && Meets(NoPropertyAdded, o, n, loose)
    && Meets(ValueSchemaIsMapping, o, n, loose)
    && Meets(LiteralTrueKept, o, n, loose)
    && Meets(NoLiteralTrueAdded, o, n, loose)
    && Meets(MapKeysKept, o, n, loose)
    && Meets(EnumTellsApart, o, n, loose)
    && Meets(CombinatorsTellApart, o, n, loose)
    && Meets(PatternClosed, o, n, loose)
    && Meets(RulesUnconditional, o, n, loose)
    && Meets(RulesUnmasked, o, n, loose)
    && Meets(NoUnreadAdded, o, n, loose)
  }

  ghost predicate ChildrenComparable(o: Schema, n: Schema, loose: bool)
    requires o.Dict? && n.Dict?
    decreases o, 0
  {
    && (forall k | k in o.properties && k in n.properties :: Comparable(o.properties[k], n.properties[k], false))
    && (IsDict(o.items) && IsDict(n.items) ==> Comparable(o.items.value, n.items.value, Open(o, loose)))
    && (HasValueSchema(o.additional) && HasValueSchema(n.additional) ==>
          Comparable(o.additional.schema, n.additional.schema, false))
  }

  ghost predicate Comparable(o: Schema, n: Schema, loose: bool)
    decreases o, 1
  {
    o.Dict? && n.Dict? && NodeComparable(o, n, loose) && ChildrenComparable(o, n, loose)
  }

  // ----- one node -----

  lemma TypeSound(o: Schema, n: Schema, loose: bool, v: Value)
    requires o.Dict? && n.Dict? && KeywordsCompatible(o, n) && BoundsCompatible(o, n)
    requires Meets(OldNotEmpty, o, n, loose) && Meets(NoIntOrStringAdded, o, n, loose)
    requires TypeOk(o, v)
    ensures TypeOk(n, v)
  {
  }

  lemma EnumSound(o: Schema, n: Schema, loose: bool, v: Value)
    requires o.Dict? && n.Dict? && KeywordsCompatible(o, n) && Meets(EnumTellsApart, o, n, loose)
    requires o.enum_.Some? ==> v in o.enum_.value
    ensures n.enum_.Some? ==> v in n.enum_.value
  {
    if n.enum_.Some? {
      assert PyIn(v, n.enum_.value);
    }
  }

  /**
   A rule the guard lets in admits whatever the old rules admit, unless its disjunction sits under a conditional
   or is no disjunction to CEL.
   */
  lemma {:induction false} CelSound(orc: Oracle, oldRules: seq<Rule>, rule: Rule, v: Value)
    requires CelAccepted(oldRules, rule)
    requires rule in oldRules || (!rule.Cond? && !rule.Masked?)
    requires forall r | r in oldRules :: Admits(orc, r, v)
    ensures Admits(orc, rule, v)
  {
    if rule !in oldRules {
      var r :| r in oldRules && EndsInOr(rule, r);
    }
  }

  lemma RulesSound(orc: Oracle, o: Schema, n: Schema, loose: bool, v: Value)
    requires o.Dict? && n.Dict? && CelCompatible(o, n)
    requires Meets(RulesUnconditional, o, n, loose) && Meets(RulesUnmasked, o, n, loose)
    requires forall r | r in o.rules :: Admits(orc, r, v)
    ensures forall r | r in n.rules :: Admits(orc, r, v)
  {
    forall r | r in n.rules ensures Admits(orc, r, v) {
      CelSound(orc, o.rules, r, v);
    }
  }

  lemma BoundsSound(o: Schema, n: Schema, v: Value)
    requires o.Dict? && n.Dict? && BoundsCompatible(o, n) && BoundsOk(o, v)
    ensures BoundsOk(n, v)
  {
    forall m | m in n.upper && Measured(m, v).Some? ensures Measured(m, v).value <= n.upper[m] {
      assert !UpperTightens(o, n, m);
    }
    forall m | m in n.lower && Measured(m, v).Some? ensures n.lower[m] <= Measured(m, v).value {
      assert !LowerTightens(o, n, m);
    }
    assert Magnitude in n.upper ==> !UpperTightens(o, n, Magnitude);
    assert Magnitude in n.lower ==> !LowerTightens(o, n, Magnitude);
  }

  lemma PatternSound(orc: Oracle, o: Schema, n: Schema, loose: bool, s: string)
    requires o.Dict? && n.Dict? && BoundsCompatible(o, n) && Meets(PatternClosed, o, n, loose)
    requires o.pattern.Some? ==> Regex.Matches(orc.alternative, o.pattern.value, s)
    ensures n.pattern.Some? ==> Regex.Matches(orc.alternative, n.pattern.value, s)
  {
    if n.pattern.Some? && n.pattern != o.pattern {
      Regex.WidenedAcceptsMore(orc.alternative, o.pattern.value, n.pattern.value, s);
    }
  }

  lemma ListSound(o: Schema, n: Schema, loose: bool, v: Value)
    requires o.Dict? && n.Dict? && KeywordsCompatible(o, n) && Meets(MapKeysKept, o, n, loose)
    requires ListOk(o.listType, o.mapKeys, v)
    ensures ListOk(n.listType, n.mapKeys, v)
  {
    assert n.listType == Some("map") ==> n.mapKeys == o.mapKeys;
  }

  lemma CombinatorsSound(orc: Oracle, o: Schema, n: Schema, loose: bool, v: Value)
    requires o.Dict? && n.Dict? && KeywordsCompatible(o, n) && Meets(CombinatorsTellApart, o, n, loose)
    requires forall c | c in o.combinators :: orc.combinator(c, o.combinators[c], v)
    ensures forall c | c in n.combinators :: orc.combinator(c, n.combinators[c], v)
  {
    forall c | c in n.combinators ensures orc.combinator(c, n.combinators[c], v) {
      assert !CombinatorBreaks(o, n, c);
    }
  }

  lemma UnreadSound(orc: Oracle, o: Schema, n: Schema, loose: bool, v: Value)
    requires o.Dict? && n.Dict? && Meets(NoUnreadAdded, o, n, loose)
    requires forall u | u in o.otherKeys && !u.Named? :: orc.unread(u, o.otherKeys[u], v)
    ensures forall u | u in n.otherKeys && !u.Named? :: orc.unread(u, n.otherKeys[u], v)
  {
  }

  lemma FieldsSound(o: Schema, n: Schema, v: Value)
    requires o.Dict? && n.Dict? && Compatible(o, n) && v.Obj?
    requires o.required <= v.fields.Keys && (o.additional == Literal(false) ==> v.fields.Keys <= o.properties.Keys)
    ensures n.required <= v.fields.Keys && (n.additional == Literal(false) ==> v.fields.Keys <= n.properties.Keys)
  {
    assert o.properties.Keys <= n.properties.Keys;
  }

  lemma NodeSound(orc: Oracle, o: Schema, n: Schema, loose: bool, v: Value)
    requires o.Dict? && n.Dict? && NodeComparable(o, n, loose) && Compatible(o, n)
    requires TypeOk(o, v) && NodeOk(orc, o, v)
    ensures NodeOk(orc, n, v)
  {
    BoundsSound(o, n, v);
    ListSound(o, n, loose, v);
    CombinatorsSound(orc, o, n, loose, v);
    RulesSound(orc, o, n, loose, v);
    UnreadSound(orc, o, n, loose, v);
    if v.Str? {
      PatternSound(orc, o, n, loose, v.s);
    } else if v.Obj? {
      FieldsSound(o, n, v);
    }
  }

  // ----- the whole value -----

  /** In an already pruned object every field is kept, and is already what pruning makes of it. */
  lemma PrunedField(s: Schema, v: Value, loose: bool, k: string)
    requires s.Dict? && v.Obj? && PruneIn(s, v, loose) == v && k in v.fields
    ensures Kept(s, k, loose) && FieldAfter(s, k, v.fields[k]) == v.fields[k]
  {
    assert k in PruneIn(s, v, loose).fields && PruneIn(s, v, loose).fields[k] == v.fields[k];
  }

  // ----- pruning -----

  /** The problems that can announce a loss of stored data. */
  predicate LossKind(kind: Kind) {
    kind.FieldRemoved? || kind.ItemsRemoved? || kind.AdditionalRemoved? || kind.AdditionalDisallowed?
    || kind.AdditionalAdded? || kind.PreserveRemoved?
  }

  /** The part of Compatible that those problems stand for. */
  ghost predicate LossFree(o: Schema, n: Schema) {
    o.Dict? && n.Dict? ==>
      && (IsTrue(o.preserve) ==> IsTrue(n.preserve))
      && (forall k | k in o.properties :: k in n.properties && LossFree(o.properties[k], n.properties[k]))
      && (IsDict(o.items) ==> IsDict(n.items) && LossFree(o.items.value, n.items.value))
      && (n.additional == Literal(false) ==> o.additional == Literal(false))
      && (HasValueSchema(o.additional) ==>
            if HasValueSchema(n.additional) then LossFree(o.additional.schema, n.additional.schema)
            else n.additional != Absent)
      && (HasValueSchema(n.additional) ==> HasValueSchema(o.additional) || o == EMPTY)
  }

  /** Whatever makes the trees not LossFree, at any depth, is in the report under one of those kinds. */
  lemma {:induction false} LossReported(o: Schema, n: Schema, path: string) returns (p: Problem)
    requires !LossFree(o, n)
    ensures p in WalkProblems(o, n, path) && LossKind(p.kind)
    decreases o
  {
    var oa, na := o.additional, n.additional;
    if IsTrue(o.preserve) && !IsTrue(n.preserve) {
      PreserveReported(o, n, path);
      p := Problem(path, PreserveRemoved);
    } else if k :| k in o.properties && !(k in n.properties && LossFree(o.properties[k], n.properties[k])) {
      if k !in n.properties {
        p := Problem(FieldPath(path, k), FieldRemoved);
      } else {
        p := LossReported(o.properties[k], n.properties[k], FieldPath(path, k));
      }
      assert p in PropertyProblems(o, n, path, k);
    } else if IsDict(o.items) && !(IsDict(n.items) && LossFree(o.items.value, n.items.value)) {
      if !IsDict(n.items) {
        p := Problem(ItemPath(path), ItemsRemoved);
      } else {
        p := LossReported(o.items.value, n.items.value, ItemPath(path));
      }
      assert p in ItemsProblems(o, n, path);
    } else if HasValueSchema(oa) && HasValueSchema(na) {
      p := LossReported(oa.schema, na.schema, ValuePath(path));
    } else {
      p := Problem(ValuePath(path), if na == Literal(false) then AdditionalDisallowed
                                    else if na == Absent then AdditionalRemoved else AdditionalAdded);
      assert p in AdditionalProblems(o, n, path);
    }
  }

  lemma PreserveReported(o: Schema, n: Schema, path: string)
    requires o.Dict? && n.Dict? && IsTrue(o.preserve) && !IsTrue(n.preserve)
    ensures Problem(path, PreserveRemoved) in NodeReport([], o, n, path)
  {
    var m := CombinatorReport(TypeReport([], o, n, path), o, n, path, COMBINATORS);
    var m3 := ValueReport(m, o, n, path);
    assert m3[|m3| - 1] == Problem(path, PreserveRemoved);
    var m4 := UpperReport(m3, o, n, path, MEASURES);
    var m5 := LowerReport(m4, o, n, path, MEASURES);
    var m6 := BoundFlagReport(m5, o, n, path);
    assert m3 + [] == m3 && m4 + [] == m4 && m5 + [] == m5 && m6 + [] == m6;
    MeasuresAppend(m3, [], o, n, path, MEASURES);
    MeasuresAppend(m4, [], o, n, path, MEASURES);
    FlagsAppend(m5, [], o, n, path);
    CelAppend(m6, [], o.rules, n.rules, path);
  }

  /** The part of Comparable that pruning depends on. */
  ghost predicate LossComparable(o: Schema, n: Schema, loose: bool) {
    o.Dict? && n.Dict?
    && (loose ==> Meets(OldNotEmpty, o, n, loose))
    && Meets(NoItemsAdded, o, n, loose)
    && Meets(NoPropertyAdded, o, n, loose)
    && Meets(ValueSchemaIsMapping, o, n, loose)
    && Meets(LiteralTrueKept, o, n, loose)
    && Meets(NoLiteralTrueAdded, o, n, loose)
    && (forall k | k in o.properties && k in n.properties :: LossComparable(o.properties[k], n.properties[k], false))
    && (IsDict(o.items) && IsDict(n.items) ==> LossComparable(o.items.value, n.items.value, Open(o, loose)))
    && (HasValueSchema(o.additional) && HasValueSchema(n.additional) ==>
          LossComparable(o.additional.schema, n.additional.schema, false))
  }

  lemma {:induction false} ComparableForLoss(o: Schema, n: Schema, loose: bool)
    requires Comparable(o, n, loose)
    ensures LossComparable(o, n, loose)
    decreases o
  {
    forall k | k in o.properties && k in n.properties
      ensures LossComparable(o.properties[k], n.properties[k], false)
    {
      ComparableForLoss(o.properties[k], n.properties[k], false);
    }
    if IsDict(o.items) && IsDict(n.items) {
      ComparableForLoss(o.items.value, n.items.value, Open(o, loose));
    }
    if HasValueSchema(o.additional) && HasValueSchema(n.additional) {
      ComparableForLoss(o.additional.schema, n.additional.schema, false);
    }
  }

  /** A property named anew is none that a stored object can hold. */
  lemma NewNameNotStored(o: Schema, n: Schema, loose: bool, v: Value, k: string)
    requires o.Dict? && n.Dict? && Meets(NoPropertyAdded, o, n, loose)
    requires TypeOk(o, v) && v.Obj? && Kept(o, k, loose) && k in n.properties
    ensures k in o.properties
  {
    assert !NeverObject(o);
  }

  /** What the old tree keeps, the new one keeps; `now` is what looseness has become, which never goes. */
  lemma StaysKept(o: Schema, n: Schema, loose: bool, now: bool, v: Value, k: string)
    requires LossComparable(o, n, loose) && LossFree(o, n) && (loose ==> now)
    requires TypeOk(o, v) && v.Obj? && Kept(o, k, loose)
    ensures Kept(n, k, now)
  {
    assert !NeverObject(o);
  }

  /** A field that only a literal additionalProperties: true keeps was kept by one before. */
  lemma StaysStripped(o: Schema, n: Schema, loose: bool, v: Value, k: string)
    requires LossComparable(o, n, loose) && LossFree(o, n)
    requires TypeOk(o, v) && v.Obj? && Kept(o, k, loose) && FieldSchema(n, k).None? && n.additional == Literal(true)
    ensures FieldSchema(o, k).None? && o.additional == Literal(true)
  {
    assert !NeverObject(o);
  }

  lemma NamedFieldGoverned(o: Schema, n: Schema, loose: bool, k: string)
    requires LossComparable(o, n, loose) && LossFree(o, n) && k in o.properties
    ensures k in n.properties
    ensures LossComparable(o.properties[k], n.properties[k], false) && LossFree(o.properties[k], n.properties[k])
  {
  }

  lemma ValueSchemaGoverned(o: Schema, n: Schema, loose: bool)
    requires LossComparable(o, n, loose) && LossFree(o, n) && HasValueSchema(n.additional) && o != EMPTY
    ensures HasValueSchema(o.additional)
    ensures LossComparable(o.additional.schema, n.additional.schema, false)
    ensures LossFree(o.additional.schema, n.additional.schema)
  {
  }

  /** A field that has a schema in the new tree has a comparable one in the old tree. */
  lemma FieldStaysGoverned(o: Schema, n: Schema, loose: bool, v: Value, k: string)
    requires LossComparable(o, n, loose) && LossFree(o, n)
    requires TypeOk(o, v) && v.Obj? && k in v.fields && Kept(o, k, loose)
    ensures FieldSchema(n, k).Some? && FieldSchema(n, k).value.Dict? ==>
              && FieldSchema(o, k).Some?
              && LossComparable(FieldSchema(o, k).value, FieldSchema(n, k).value, false)
              && LossFree(FieldSchema(o, k).value, FieldSchema(n, k).value)
  {
    if k in n.properties {
      NewNameNotStored(o, n, loose, v, k);
    }
    if k in o.properties {
      NamedFieldGoverned(o, n, loose, k);
    } else if HasValueSchema(n.additional) {
      ValueSchemaGoverned(o, n, loose);
    }
  }

  lemma {:induction false} FieldNotLost(orc: Oracle, o: Schema, n: Schema, loose: bool, now: bool, v: Value, k: string)
    requires LossComparable(o, n, loose) && LossFree(o, n) && (loose ==> now)
    requires v.Obj? && Valid(orc, o, v) && PruneIn(o, v, loose) == v && k in v.fields
    ensures Kept(n, k, now) && FieldAfter(n, k, v.fields[k]) == v.fields[k]
    decreases v, 0
  {
    PrunedField(o, v, loose, k);
    StaysKept(o, n, loose, now, v, k);
    FieldStaysGoverned(o, n, loose, v, k);
    if FieldSchema(n, k).Some? {
      if FieldSchema(n, k).value.Dict? {
        NoSilentLoss(orc, FieldSchema(o, k).value, FieldSchema(n, k).value, false, false, v.fields[k]);
      }
    } else if n.additional == Literal(true) {
      StaysStripped(o, n, loose, v, k);
    }
  }

  /** An object none of whose fields pruning changes is not changed itself. */
  lemma FieldsKept(n: Schema, loose: bool, v: Value)
    requires v.Obj? && n.Dict?
    requires forall k | k in v.fields :: Kept(n, k, loose) && FieldAfter(n, k, v.fields[k]) == v.fields[k]
    ensures PruneIn(n, v, loose) == v
  {
    assert PruneIn(n, v, loose).fields == v.fields;
  }

  lemma {:induction false} ElementsNotLost(orc: Oracle, o: Schema, n: Schema, loose: bool, now: bool, v: Value)
    requires LossComparable(o, n, loose) && LossFree(o, n) && (loose ==> now)
    requires v.Arr? && Valid(orc, o, v) && PruneIn(o, v, loose) == v && IsDict(n.items)
    ensures PruneIn(n, v, now) == v
    decreases v, 0
  {
    assert IsDict(o.items);
    forall i | 0 <= i < |v.elems| ensures PruneIn(n.items.value, v.elems[i], Open(n, now)) == v.elems[i] {
      assert PruneIn(o, v, loose).elems[i] == v.elems[i];
      NoSilentLoss(orc, o.items.value, n.items.value, Open(o, loose), Open(n, now), v.elems[i]);
    }
    assert PruneIn(n, v, now).elems == v.elems;
  }

  /** Pruning a stored value under the new schema returns it unchanged, whatever else the guard may have reported. */
  lemma {:induction false} NoSilentLoss(orc: Oracle, o: Schema, n: Schema, loose: bool, now: bool, v: Value)
    requires LossComparable(o, n, loose) && LossFree(o, n) && (loose ==> now)
    requires Valid(orc, o, v) && PruneIn(o, v, loose) == v
    ensures PruneIn(n, v, now) == v
    decreases v, 1
  {
    if v.Obj? {
      forall k | k in v.fields ensures Kept(n, k, now) && FieldAfter(n, k, v.fields[k]) == v.fields[k] {
        FieldNotLost(orc, o, n, loose, now, v, k);
      }
      FieldsKept(n, now, v);
    } else if v.Arr? && IsDict(n.items) {
      ElementsNotLost(orc, o, n, loose, now, v);
    }
  }

  // ----- validity -----

  lemma NamedFieldCorresponds(o: Schema, n: Schema, loose: bool, k: string)
    requires Comparable(o, n, loose) && Compatible(o, n) && k in o.properties
    ensures k in n.properties
    ensures n.properties[k].Dict? ==>
              Comparable(o.properties[k], n.properties[k], false) && Compatible(o.properties[k], n.properties[k])
  {
  }

  lemma ValueSchemasCorrespond(o: Schema, n: Schema, loose: bool)
    requires Comparable(o, n, loose) && Compatible(o, n) && HasValueSchema(n.additional)
    ensures HasValueSchema(o.additional)
    ensures Comparable(o.additional.schema, n.additional.schema, false)
    ensures Compatible(o.additional.schema, n.additional.schema)
  {
    assert AdditionalCompatible(o, n);
  }

  /** The field's schema in the new tree constrains it only where the old tree's schema did. */
  lemma FieldSchemasCorrespond(o: Schema, n: Schema, loose: bool, v: Value, k: string)
    requires Comparable(o, n, loose) && Compatible(o, n)
    requires TypeOk(o, v) && v.Obj? && k in v.fields && Kept(o, k, loose)
    ensures FieldSchema(n, k).Some? && FieldSchema(n, k).value.Dict? ==>
              && FieldSchema(o, k).Some?
              && Comparable(FieldSchema(o, k).value, FieldSchema(n, k).value, false)
              && Compatible(FieldSchema(o, k).value, FieldSchema(n, k).value)
  {
    if k in n.properties {
      NewNameNotStored(o, n, loose, v, k);
    }
    if k in o.properties {
      NamedFieldCorresponds(o, n, loose, k);
    } else if HasValueSchema(n.additional) {
      ValueSchemasCorrespond(o, n, loose);
    }
  }

  lemma {:induction false} FieldStaysValid(orc: Oracle, o: Schema, n: Schema, loose: bool, v: Value, k: string)
    requires Comparable(o, n, loose) && Compatible(o, n)
    requires v.Obj? && Valid(orc, o, v) && PruneIn(o, v, loose) == v && k in v.fields
    ensures FieldSchema(n, k).Some? ==> Valid(orc, FieldSchema(n, k).value, v.fields[k])
    decreases v, 0
  {
    PrunedField(o, v, loose, k);
    FieldSchemasCorrespond(o, n, loose, v, k);
    if FieldSchema(n, k).Some? && FieldSchema(n, k).value.Dict? {
      SilentGuardIsSound(orc, FieldSchema(o, k).value, FieldSchema(n, k).value, false, v.fields[k]);
    }
  }

  lemma ItemsCorrespond(o: Schema, n: Schema, loose: bool, v: Value)
    requires Comparable(o, n, loose) && Compatible(o, n)
    requires v.Arr? && TypeOk(o, v) && IsDict(n.items)
    ensures IsDict(o.items)
    ensures Comparable(o.items.value, n.items.value, Open(o, loose)) && Compatible(o.items.value, n.items.value)
  {
    assert Meets(NoItemsAdded, o, n, loose);
  }

  lemma ElementStored(orc: Oracle, o: Schema, loose: bool, v: Value, i: nat)
    requires o.Dict? && IsDict(o.items) && v.Arr? && i < |v.elems|
    requires Valid(orc, o, v) && PruneIn(o, v, loose) == v
    ensures Valid(orc, o.items.value, v.elems[i])
    ensures PruneIn(o.items.value, v.elems[i], Open(o, loose)) == v.elems[i]
  {
    assert PruneIn(o, v, loose).elems[i] == v.elems[i];
  }

  lemma {:induction false} ElementsStayValid(orc: Oracle, o: Schema, n: Schema, loose: bool, v: Value)
    requires Comparable(o, n, loose) && Compatible(o, n)
    requires v.Arr? && Valid(orc, o, v) && PruneIn(o, v, loose) == v && IsDict(n.items)
    ensures forall i | 0 <= i < |v.elems| :: Valid(orc, n.items.value, v.elems[i])
    decreases v, 0
  {
    ItemsCorrespond(o, n, loose, v);
    forall i | 0 <= i < |v.elems| ensures Valid(orc, n.items.value, v.elems[i]) {
      ElementStored(orc, o, loose, v, i);
      SilentGuardIsSound(orc, o.items.value, n.items.value, Open(o, loose), v.elems[i]);
    }
  }

  lemma {:induction false} FieldsStayValid(orc: Oracle, o: Schema, n: Schema, loose: bool, v: Value)
    requires Comparable(o, n, loose) && Compatible(o, n)
    requires v.Obj? && Valid(orc, o, v) && PruneIn(o, v, loose) == v
    ensures forall k | k in v.fields :: FieldSchema(n, k).Some? ==> Valid(orc, FieldSchema(n, k).value, v.fields[k])
    decreases v, 1
  {
    forall k | k in v.fields
      ensures FieldSchema(n, k).Some? ==> Valid(orc, FieldSchema(n, k).value, v.fields[k])
    {
      FieldStaysValid(orc, o, n, loose, v, k);
    }
  }

  /** The guard's promise, for every pair of trees and every stored value, at any nesting. */
  lemma {:induction false} SilentGuardIsSound(orc: Oracle, o: Schema, n: Schema, loose: bool, v: Value)
    requires Comparable(o, n, loose) && Compatible(o, n)
    requires Valid(orc, o, v) && PruneIn(o, v, loose) == v
    ensures Valid(orc, n, v)
    decreases v, 2
  {
    TypeSound(o, n, loose, v);
    EnumSound(o, n, loose, v);
    if !v.Null? {
      NodeSound(orc, o, n, loose, v);
    }
    if v.Obj? {
      FieldsStayValid(orc, o, n, loose, v);
    } else if v.Arr? && IsDict(n.items) {
      ElementsStayValid(orc, o, n, loose, v);
    }
  }

  /** Both halves together, from the guard's own output. */
  lemma GuardSound(orc: Oracle, o: Schema, n: Schema, path: string, v: Value)
    requires Comparable(o, n, false) && WalkProblems(o, n, path) == {}
    requires Valid(orc, o, v) && Prune(o, v) == v
    ensures Valid(orc, n, v) && Prune(n, v) == v
  {
    WalkSilent(o, n, path);
    if !LossFree(o, n) {
      var p := LossReported(o, n, path);
    }
    SilentGuardIsSound(orc, o, n, false, v);
    ComparableForLoss(o, n, false);
    NoSilentLoss(orc, o, n, false, false, v);
  }
}
