/**
 hack/release-impact.py: telling a changed pod template from one whose rendered values
 merely vary (_flatten, unstable, masked and the comparison in pods_section).
 */
module Mask {
  import opened Wrappers

  /** Leaf values, identified as Python's == identifies them. */
  datatype Scalar = Null | Text(s: string) | Number(n: real)

  datatype Tree = Leaf(value: Scalar) | Dict(fields: map<string, Tree>) | List(elems: seq<Tree>)

  datatype Step = Key(k: string) | Index(i: nat)
  type Path = seq<Step>

  const MASK: Tree := Leaf(Text("<varies per render>"))

  /** The (path, leaf) pairs the generator yields. */
  function Flatten(node: Tree, path: Path): set<(Path, Scalar)> {
    match node
    case Leaf(v) => {(path, v)}
    case Dict(f) => set k, e | k in f && e in Flatten(f[k], path + [Key(k)]) :: e
    case List(es) => set i, e | 0 <= i < |es| && e in Flatten(es[i], path + [Index(i)]) :: e
  }

  /** The value a dict built from the pairs gives for a path, None reading as Null. */
  ghost function Get(pairs: set<(Path, Scalar)>, p: Path): Scalar {
    if s :| (p, s) in pairs then s else Null
  }

  function Paths(pairs: set<(Path, Scalar)>): set<Path> {
    set e | e in pairs :: e.0
  }

  ghost function Unstable(a: Tree, b: Tree): set<Path> {
    var fa, fb := Flatten(a, []), Flatten(b, []);
    set p | p in Paths(fa) + Paths(fb) && Get(fa, p) != Get(fb, p)
  }

  function Masked(node: Tree, paths: set<Path>, path: Path): Tree {
    if path in paths then MASK
    else
      match node
      case Leaf(_) => node
      case Dict(f) => Dict(map k | k in f :: Masked(f[k], paths, path + [Key(k)]))
      case List(es) => List(seq(|es|, i requires 0 <= i < |es| => Masked(es[i], paths, path + [Index(i)])))
  }

  // ----- what flattening means -----

  /** The leaf found by following a path. */
  function LeafAt(node: Tree, p: Path): Option<Scalar>
    decreases |p|
  {
    match node
    case Leaf(v) => if p == [] then Some(v) else None
    case Dict(f) => if p != [] && p[0].Key? && p[0].k in f then LeafAt(f[p[0].k], p[1..]) else None
    case List(es) => if p != [] && p[0].Index? && p[0].i < |es| then LeafAt(es[p[0].i], p[1..]) else None
  }

  lemma Descend(path: Path, step: Step, p: Path)
    ensures path + [step] <= p <==> path <= p && |path| < |p| && p[|path|] == step
    ensures path + [step] <= p ==> p[|path|..] == [step] + p[|path + [step]|..]
  {
    if path <= p && |path| < |p| && p[|path|] == step {
      assert p[..|path| + 1] == path + [step];
    }
  }

  /** Flattening yields every leaf once, under the path that leads to it, and nothing else. */
  lemma {:induction false} FlattenExact(node: Tree, path: Path, p: Path, s: Scalar)
    ensures (p, s) in Flatten(node, path) <==> path <= p && LeafAt(node, p[|path|..]) == Some(s)
    decreases node
  {
    match node
    case Leaf(v) =>
      assert path <= p ==> (p[|path|..] == [] <==> p == path);
    case Dict(f) =>
      forall k | k in f
        ensures (p, s) in Flatten(f[k], path + [Key(k)])
           <==> path + [Key(k)] <= p && LeafAt(f[k], p[|path|..][1..]) == Some(s)
      {
        FlattenExact(f[k], path + [Key(k)], p, s);
        Descend(path, Key(k), p);
      }
      forall k ensures path + [Key(k)] <= p <==> path <= p && |path| < |p| && p[|path|] == Key(k) {
        Descend(path, Key(k), p);
      }
    case List(es) =>
      forall i | 0 <= i < |es|
        ensures (p, s) in Flatten(es[i], path + [Index(i)])
           <==> path + [Index(i)] <= p && LeafAt(es[i], p[|path|..][1..]) == Some(s)
      {
        FlattenExact(es[i], path + [Index(i)], p, s);
        Descend(path, Index(i), p);
      }
      forall i: nat ensures path + [Index(i)] <= p <==> path <= p && |path| < |p| && p[|path|] == Index(i) {
        Descend(path, Index(i), p);
      }
  }

  function ValueAt(node: Tree, p: Path): Scalar {
    LeafAt(node, p).GetOr(Null)
  }

  lemma GetIsValueAt(node: Tree, p: Path)
    ensures Get(Flatten(node, []), p) == ValueAt(node, p)
    ensures p in Paths(Flatten(node, [])) <==> LeafAt(node, p).Some?
  {
    assert p[0..] == p;
    forall s ensures (p, s) in Flatten(node, []) <==> LeafAt(node, p) == Some(s) {
      FlattenExact(node, [], p, s);
    }
    if LeafAt(node, p).Some? {
      assert (p, LeafAt(node, p).value) in Flatten(node, []);
    }
  }

  /** The unstable paths are those at which the two trees read differently. */
  lemma UnstableExact(a: Tree, b: Tree, p: Path)
    ensures p in Unstable(a, b) <==> ValueAt(a, p) != ValueAt(b, p)
  {
    GetIsValueAt(a, p);
    GetIsValueAt(b, p);
  }

  // ----- what masking hides -----

  /** Some prefix of path + p that extends path is among the masked paths. */
  ghost predicate Hidden(paths: set<Path>, path: Path, p: Path) {
    exists j | |path| <= j <= |path| + |p| :: (path + p)[..j] in paths
  }

  /** Outside the masked paths both trees branch alike. */
  predicate SameShapeOutside(a: Tree, b: Tree, paths: set<Path>, path: Path)
    decreases a
  {
    path in paths ||
    match (a, b)
    case (Leaf(_), Leaf(_)) => true
    case (Dict(f), Dict(g)) =>
      f.Keys == g.Keys && forall k | k in f :: SameShapeOutside(f[k], g[k], paths, path + [Key(k)])
    case (List(es), List(fs)) =>
      |es| == |fs| && forall i | 0 <= i < |es| :: SameShapeOutside(es[i], fs[i], paths, path + [Index(i)])
    case _ => false
  }

  lemma HiddenStep(paths: set<Path>, path: Path, step: Step, p: Path)
    requires path !in paths
    ensures Hidden(paths, path, [step] + p) <==> Hidden(paths, path + [step], p)
  {
    assert path + ([step] + p) == (path + [step]) + p;
    assert (path + ([step] + p))[..|path|] == path;
  }

  /** Where two masked trees agree, every difference between the originals is hidden. */
  lemma {:induction false} AgreementHides(a: Tree, b: Tree, paths: set<Path>, path: Path, p: Path)
    requires Masked(a, paths, path) == Masked(b, paths, path)
    requires ValueAt(a, p) != ValueAt(b, p)
    ensures Hidden(paths, path, p)
    decreases a
  {
    if path in paths {
      assert (path + p)[..|path|] == path;
    } else {
      assert p != [];
      var step, rest := p[0], p[1..];
      assert p == [step] + rest;
      match (a, b) {
        case (Dict(f), Dict(g)) =>
          assert Masked(a, paths, path).fields.Keys == f.Keys && Masked(b, paths, path).fields.Keys == g.Keys;
          assert Masked(a, paths, path).fields[step.k] == Masked(b, paths, path).fields[step.k];
          AgreementHides(f[step.k], g[step.k], paths, path + [step], rest);
        case (List(es), List(fs)) =>
          assert |Masked(a, paths, path).elems| == |es| && |Masked(b, paths, path).elems| == |fs|;
          assert Masked(a, paths, path).elems[step.i] == Masked(b, paths, path).elems[step.i];
          AgreementHides(es[step.i], fs[step.i], paths, path + [step], rest);
      }
      HiddenStep(paths, path, step, rest);
    }
  }

  lemma {:induction false} AgreementShapes(a: Tree, b: Tree, paths: set<Path>, path: Path)
    requires Masked(a, paths, path) == Masked(b, paths, path)
    ensures SameShapeOutside(a, b, paths, path)
    decreases a
  {
    if path !in paths {
      var ma, mb := Masked(a, paths, path), Masked(b, paths, path);
      match (a, b) {
        case (Dict(f), Dict(g)) =>
          assert ma.fields.Keys == f.Keys && mb.fields.Keys == g.Keys;
          forall k | k in f ensures SameShapeOutside(f[k], g[k], paths, path + [Key(k)]) {
            assert ma.fields[k] == mb.fields[k];
            AgreementShapes(f[k], g[k], paths, path + [Key(k)]);
          }
        case (List(es), List(fs)) =>
          assert |ma.elems| == |es| && |mb.elems| == |fs|;
          forall i | 0 <= i < |es| ensures SameShapeOutside(es[i], fs[i], paths, path + [Index(i)]) {
            assert ma.elems[i] == mb.elems[i];
            AgreementShapes(es[i], fs[i], paths, path + [Index(i)]);
          }
        case (Leaf(_), Leaf(_)) =>
      }
    }
  }

  lemma {:induction false} HidingAgrees(a: Tree, b: Tree, paths: set<Path>, path: Path)
    requires SameShapeOutside(a, b, paths, path)
    requires forall p | ValueAt(a, p) != ValueAt(b, p) :: Hidden(paths, path, p)
    ensures Masked(a, paths, path) == Masked(b, paths, path)
    decreases a
  {
    if path !in paths {
      match (a, b) {
        case (Leaf(v), Leaf(w)) =>
          assert path + [] == path && path[..|path|] == path;
          assert !Hidden(paths, path, []);
          assert ValueAt(a, []) == v && ValueAt(b, []) == w;
        case (Dict(f), Dict(g)) =>
          forall k | k in f ensures Masked(f[k], paths, path + [Key(k)]) == Masked(g[k], paths, path + [Key(k)]) {
            forall p | ValueAt(f[k], p) != ValueAt(g[k], p) ensures Hidden(paths, path + [Key(k)], p) {
              assert ([Key(k)] + p)[1..] == p;
              assert ValueAt(a, [Key(k)] + p) != ValueAt(b, [Key(k)] + p);
              HiddenStep(paths, path, Key(k), p);
            }
            HidingAgrees(f[k], g[k], paths, path + [Key(k)]);
          }
        case (List(es), List(fs)) =>
          forall i | 0 <= i < |es|
            ensures Masked(es[i], paths, path + [Index(i)]) == Masked(fs[i], paths, path + [Index(i)])
          {
            forall p | ValueAt(es[i], p) != ValueAt(fs[i], p) ensures Hidden(paths, path + [Index(i)], p) {
              assert ([Index(i)] + p)[1..] == p;
              assert ValueAt(a, [Index(i)] + p) != ValueAt(b, [Index(i)] + p);
              HiddenStep(paths, path, Index(i), p);
            }
            HidingAgrees(es[i], fs[i], paths, path + [Index(i)]);
          }
      }
    }
  }

  /**
   Two masked trees are equal exactly when the originals branch alike outside the masked
   paths and every path at which they differ has a masked prefix.
   */
  lemma MaskExact(a: Tree, b: Tree, paths: set<Path>)
    ensures Masked(a, paths, []) == Masked(b, paths, [])
       <==> SameShapeOutside(a, b, paths, []) && forall p | p in Unstable(a, b) :: exists q | q in paths :: q <= p
  {
    forall p ensures Hidden(paths, [], p) <==> exists q | q in paths :: q <= p {
      assert [] + p == p;
      if q :| q in paths && q <= p {
        assert p[..|q|] == q;
      }
    }
    forall p ensures p in Unstable(a, b) <==> ValueAt(a, p) != ValueAt(b, p) {
      UnstableExact(a, b, p);
    }
    if Masked(a, paths, []) == Masked(b, paths, []) {
      AgreementShapes(a, b, paths, []);
      forall p | p in Unstable(a, b) ensures Hidden(paths, [], p) {
        AgreementHides(a, b, paths, [], p);
      }
    } else if SameShapeOutside(a, b, paths, []) && forall p | p in Unstable(a, b) :: Hidden(paths, [], p) {
      HidingAgrees(a, b, paths, []);
    }
  }

  /** Masking two renders of one shape with their own unstable paths makes them equal. */
  lemma UnstableMaskSuffices(a: Tree, b: Tree)
    requires SameShapeOutside(a, b, {}, [])
    ensures Masked(a, Unstable(a, b), []) == Masked(b, Unstable(a, b), [])
  {
    ShapeWeakens(a, b, {}, Unstable(a, b), []);
    MaskExact(a, b, Unstable(a, b));
    assert forall p | p in Unstable(a, b) :: p <= p;
  }

  lemma {:induction false} ShapeWeakens(a: Tree, b: Tree, few: set<Path>, more: set<Path>, path: Path)
    requires few <= more && SameShapeOutside(a, b, few, path)
    ensures SameShapeOutside(a, b, more, path)
    decreases a
  {
    if path !in more {
      match (a, b) {
        case (Leaf(_), Leaf(_)) =>
        case (Dict(f), Dict(g)) =>
          forall k | k in f ensures SameShapeOutside(f[k], g[k], more, path + [Key(k)]) {
            ShapeWeakens(f[k], g[k], few, more, path + [Key(k)]);
          }
        case (List(es), List(fs)) =>
          forall i | 0 <= i < |es| ensures SameShapeOutside(es[i], fs[i], more, path + [Index(i)]) {
            ShapeWeakens(es[i], fs[i], few, more, path + [Index(i)]);
          }
      }
    }
  }

  // ----- the report -----

  /** A template that a render does not have reads as None. */
  function Lookup(templates: map<string, Tree>, key: string): Tree {
    if key in templates then templates[key] else Leaf(Null)
  }

  ghost function Noisy(o1: Tree, o2: Tree, n1: Tree, n2: Tree): set<Path> {
    Unstable(o1, o2) + Unstable(n1, n2)
  }

  ghost predicate Changed(o1: map<string, Tree>, o2: map<string, Tree>, n1: map<string, Tree>, n2: map<string, Tree>,
                          key: string)
    requires key in o1 && key in n1
  {
    var noisy := Noisy(o1[key], Lookup(o2, key), n1[key], Lookup(n2, key));
    Masked(o1[key], noisy, []) != Masked(n1[key], noisy, [])
  }

  /**
   A template is reported unchanged exactly when old and new branch alike outside the noise and
   differ only at or below paths that already vary between two renders of one chart.
   */
  lemma UnchangedExact(o1: map<string, Tree>, o2: map<string, Tree>, n1: map<string, Tree>, n2: map<string, Tree>,
                       key: string)
    requires key in o1 && key in n1
    ensures !Changed(o1, o2, n1, n2, key)
       <==> && SameShapeOutside(o1[key], n1[key], Noisy(o1[key], Lookup(o2, key), n1[key], Lookup(n2, key)), [])
            && (forall p | p in Unstable(o1[key], n1[key]) ::
                  exists q | q <= p ::
                    || ValueAt(o1[key], q) != ValueAt(Lookup(o2, key), q)
                    || ValueAt(n1[key], q) != ValueAt(Lookup(n2, key), q))
  {
    var o2k, n2k := Lookup(o2, key), Lookup(n2, key);
    var noisy := Noisy(o1[key], o2k, n1[key], n2k);
    MaskExact(o1[key], n1[key], noisy);
    forall q ensures q in noisy <==> ValueAt(o1[key], q) != ValueAt(o2k, q) || ValueAt(n1[key], q) != ValueAt(n2k, q) {
      UnstableExact(o1[key], o2k, q);
      UnstableExact(n1[key], n2k, q);
    }
  }
}
