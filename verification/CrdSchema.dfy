/**
 The objects hack/crd-guard.py compares, and what they mean to the apiserver.

 A Schema is one openAPIV3Schema node with the keywords the guard reads; a Value is
 a stored custom resource.  Valid and Prune say, independently of the guard, which
 values a node admits and which fields survive a write.
 */
module CrdSchema {
  import opened Wrappers
  import Regex

  datatype Value =
    | Null
    | Bool(b: bool)
    | Num(n: real)
    | Str(s: string)
    | Arr(elems: seq<Value>)
    | Obj(fields: map<string, Value>)

  /** Python's == on decoded YAML identifies True with 1 and False with 0. */
  function PyNorm(v: Value): Value {
    match v
    case Bool(b) => Num(if b then 1.0 else 0.0)
    case Arr(es) => Arr(seq(|es|, i requires 0 <= i < |es| => PyNorm(es[i])))
    case Obj(f) => Obj(map k | k in f :: PyNorm(f[k]))
    case _ => v
  }

  predicate PyEq(v: Value, w: Value) {
    PyNorm(v) == PyNorm(w)
  }

  predicate PyIn(v: Value, list: seq<Value>) {
    exists i | 0 <= i < |list| :: PyEq(v, list[i])
  }

  /**
   A CEL rule's source text, as far as the guard looks into it.
   Or(l, r) is the text "l || (r)", with l in parentheses if it is a conditional; Cond(c, t, e) is "c ? t : e",
   whose last operand may itself end in " || (r)".  Masked(e, r) is a text that ends in " || (r)" too, but as part
   of a comment or a string: CEL reads it as e alone.
   */
  datatype Rule =
    | Atom(text: string)
    | Or(left: Rule, right: Rule)
    | Cond(cond: Rule, then_: Rule, else_: Rule)
    | Masked(code: Rule, tail: Rule)

  datatype Combinator = OneOf | AnyOf | AllOf | Not

  /** What a bound counts: characters, elements, fields, or the number itself. */
  datatype Measure = Length | Items | Properties | Magnitude

  datatype Additional = Absent | Literal(allowed: bool) | Values(schema: Schema)

  /** The keywords the guard does not read: those that constrain a value, and all others. */
  datatype Other = MultipleOf | UniqueItems | EmbeddedResource | Named(name: string)

  /** NotDict is any YAML value other than a mapping. */
  datatype Schema =
    | NotDict
    | Dict(
        typ: Option<string>,
        intOrString: Option<bool>,
        listType: Option<string>,
        mapKeys: seq<string>,
        combinators: map<Combinator, Value>,
        enum_: Option<seq<Value>>,
        default_: Option<Value>,
        required: set<string>,
        preserve: Option<bool>,
        upper: map<Measure, real>,
        lower: map<Measure, real>,
        exclusiveMaximum: Option<bool>,
        exclusiveMinimum: Option<bool>,
        pattern: Option<string>,
        format: Option<string>,
        nullable: Option<bool>,
        rules: seq<Rule>,
        properties: map<string, Schema>,
        items: Option<Schema>,
        additional: Additional,
        otherKeys: map<Other, Value>)

  const EMPTY: Schema :=
    Dict(None, None, None, [], map[], None, None, {}, None, map[], map[], None, None, None, None, None, [], map[],
         None, Absent, map[])

  predicate IsTrue(flag: Option<bool>) {
    flag == Some(true)
  }

  predicate Truthy(name: Option<string>) {
    name.Some? && name.value != ""
  }

  predicate IsDict(node: Option<Schema>) {
    node.Some? && node.value.Dict?
  }

  predicate HasValueSchema(a: Additional) {
    a.Values? && a.schema.Dict?
  }

  /**
   The judgements the model does not open: one CEL atom, one combinator, one keyword the guard does not
   read, one format, and one alternative of a regular expression.
   */
  datatype Oracle = Oracle(
    cel: (string, Value) -> bool,
    combinator: (Combinator, Value, Value) -> bool,
    unread: (Other, Value, Value) -> bool,
    format: (string, Value) -> bool,
    alternative: (string, string) -> bool)

  predicate Admits(orc: Oracle, rule: Rule, v: Value) {
    match rule
    case Atom(text) => orc.cel(text, v)
    case Or(l, r) => Admits(orc, l, v) || Admits(orc, r, v)
    case Cond(c, t, e) => if Admits(orc, c, v) then Admits(orc, t, v) else Admits(orc, e, v)
    case Masked(e, _) => Admits(orc, e, v)
  }

  // ----- validity -----

  predicate HasType(name: string, v: Value) {
    match v
    case Bool(_) => name == "boolean"
    case Num(n) => name == "number" || (name == "integer" && n.Floor as real == n)
    case Str(_) => name == "string"
    case Arr(_) => name == "array"
    case Obj(_) => name == "object"
    case Null => false
  }

  predicate TypeOk(s: Schema, v: Value)
    requires s.Dict?
  {
    if v.Null? then
      IsTrue(s.nullable) || (!Truthy(s.typ) && !IsTrue(s.intOrString))
    else
      && (Truthy(s.typ) ==> HasType(s.typ.value, v))
      && (IsTrue(s.intOrString) ==> HasType("integer", v) || HasType("string", v))
  }

  /** The quantity each bound constrains; None when the bound does not apply to this kind of value. */
  function Measured(m: Measure, v: Value): Option<real> {
    match (m, v)
    case (Length, Str(s)) => Some(|s| as real)
    case (Items, Arr(es)) => Some(|es| as real)
    case (Properties, Obj(f)) => Some(|f| as real)
    case (Magnitude, Num(n)) => Some(n)
    case _ => None
  }

  ghost predicate BoundsOk(s: Schema, v: Value)
    requires s.Dict?
  {
    && (forall m | m in s.upper && Measured(m, v).Some? :: Measured(m, v).value <= s.upper[m])
    && (forall m | m in s.lower && Measured(m, v).Some? :: s.lower[m] <= Measured(m, v).value)
    && (IsTrue(s.exclusiveMaximum) && Magnitude in s.upper && v.Num? ==> v.n != s.upper[Magnitude])
    && (IsTrue(s.exclusiveMinimum) && Magnitude in s.lower && v.Num? ==> v.n != s.lower[Magnitude])
  }

  function KeyTuple(keys: seq<string>, v: Value): seq<Option<Value>> {
    seq(|keys|, i requires 0 <= i < |keys| => if v.Obj? && keys[i] in v.fields then Some(v.fields[keys[i]]) else None)
  }

  ghost predicate ListOk(listType: Option<string>, keys: seq<string>, v: Value) {
    v.Arr? ==>
      && (listType == Some("set") ==> forall i, j | 0 <= i < j < |v.elems| :: v.elems[i] != v.elems[j])
      && (listType == Some("map") ==>
            && (forall i | 0 <= i < |v.elems| :: v.elems[i].Obj? && forall k | k in keys :: k in v.elems[i].fields)
            && (forall i, j | 0 <= i < j < |v.elems| :: KeyTuple(keys, v.elems[i]) != KeyTuple(keys, v.elems[j])))
  }

  /** Everything one node asks of a non-null value, except what it asks of the value's children. */
  ghost predicate NodeOk(orc: Oracle, s: Schema, v: Value)
    requires s.Dict?
  {
    && BoundsOk(s, v)
    && ListOk(s.listType, s.mapKeys, v)
    && (forall c | c in s.combinators :: orc.combinator(c, s.combinators[c], v))
    && (forall u | u in s.otherKeys && !u.Named? :: orc.unread(u, s.otherKeys[u], v))
    && (v.Obj? ==> s.required <= v.fields.Keys)
    && (v.Str? && s.pattern.Some? ==> Regex.Matches(orc.alternative, s.pattern.value, v.s))
    && (s.format.Some? ==> orc.format(s.format.value, v))
    && (forall r | r in s.rules :: Admits(orc, r, v))
    && (v.Obj? && s.additional == Literal(false) ==> v.fields.Keys <= s.properties.Keys)
  }

  /** The schema that governs field k of an object, if any. */
  function FieldSchema(s: Schema, k: string): (r: Option<Schema>)
    requires s.Dict?
    ensures r.Some? ==> r.value < s
  {
    if k in s.properties then Some(s.properties[k])
    else if s.additional.Values? then Some(s.additional.schema)
    else None
  }

  ghost predicate Valid(orc: Oracle, s: Schema, v: Value)
    decreases v
  {
    s.Dict? ==>
      && TypeOk(s, v)
      && (s.enum_.Some? ==> v in s.enum_.value)
      && (!v.Null? ==> NodeOk(orc, s, v))
      && (v.Obj? ==> forall k | k in v.fields :: FieldSchema(s, k).Some? ==>
                                                  Valid(orc, FieldSchema(s, k).value, v.fields[k]))
      && (v.Arr? && s.items.Some? ==> forall i | 0 <= i < |v.elems| :: Valid(orc, s.items.value, v.elems[i]))
  }

  // ----- pruning -----

  /** Fields that no schema names are kept here: by the node itself, or by the array around it. */
  predicate Open(s: Schema, loose: bool)
    requires s.Dict?
  {
    loose || IsTrue(s.preserve)
  }

  predicate Kept(s: Schema, k: string, loose: bool)
    requires s.Dict?
  {
    FieldSchema(s, k).Some? || s.additional == Literal(true) || Open(s, loose)
  }

  /** Without any schema to name them, the fields of every nested object go. */
  function Strip(v: Value): Value {
    match v
    case Obj(_) => Obj(map[])
    case Arr(es) => Arr(seq(|es|, i requires 0 <= i < |es| => Strip(es[i])))
    case _ => v
  }

  /** What becomes of a field that is kept: a literal additionalProperties: true names nothing inside it. */
  function FieldAfter(s: Schema, k: string, x: Value): Value
    requires s.Dict?
    decreases x, 1
  {
    if FieldSchema(s, k).Some? then PruneIn(FieldSchema(s, k).value, x, false)
    else if s.additional == Literal(true) then Strip(x)
    else x
  }

  /**
   What is left of a value after the apiserver writes it under a schema.  The elements of an array that preserves
   unknown fields keep theirs (`loose`), whatever their own schema says.
   */
  function PruneIn(s: Schema, v: Value, loose: bool): Value
    decreases v, 0
  {
    if s.NotDict? then v else
    match v
    case Obj(f) => Obj(map k | k in f && Kept(s, k, loose) :: FieldAfter(s, k, f[k]))
    case Arr(es) =>
      if IsDict(s.items) then
        Arr(seq(|es|, i requires 0 <= i < |es| => PruneIn(s.items.value, es[i], Open(s, loose))))
      else if Open(s, loose) then v
      else Strip(v)
    case _ => v
  }

  function Prune(s: Schema, v: Value): Value {
    PruneIn(s, v, false)
  }
}
