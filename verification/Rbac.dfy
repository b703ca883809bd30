/**
 hack/release-impact.py: which role changes the self-updater cannot apply.

 held is a test on the text of rules, wildcards included; the lemmas show that it decides
 coverage over every request an apiserver can receive.
 */
module Rbac {
  import opened Wrappers

  /** One policy rule; a missing list reads as []. */
  datatype Rule = Rule(apiGroups: seq<string>, resources: seq<string>, verbs: seq<string>, resourceNames: seq<string>)

  /** A permission, or a need: any component may be "*", and no name means every name. */
  datatype Perm = Perm(group: string, resource: string, verb: string, name: Option<string>)

  /** What an apiserver authorizes: its group, resource and verb are never the wildcard. */
  datatype Request = Request(group: string, resource: string, verb: string, name: string)

  ghost predicate Concrete(q: Request) {
    q.group != "*" && q.resource != "*" && q.verb != "*"
  }

  // ----- expand -----

  function Groups(r: Rule): seq<string> {
    if r.apiGroups == [] then [""] else r.apiGroups
  }

  function Names(r: Rule): seq<Option<string>> {
    if r.resourceNames == [] then [None]
    else seq(|r.resourceNames|, i requires 0 <= i < |r.resourceNames| => Some(r.resourceNames[i]))
  }

  function OfVerb(g: string, res: string, v: string, ns: seq<Option<string>>): set<Perm> {
    set n | n in ns :: Perm(g, res, v, n)
  }

  function OfVerbs(g: string, res: string, vs: seq<string>, ns: seq<Option<string>>): set<Perm> {
    set v, n | v in vs && n in ns :: Perm(g, res, v, n)
  }

  function OfResources(g: string, rs: seq<string>, vs: seq<string>, ns: seq<Option<string>>): set<Perm> {
    set res, v, n | res in rs && v in vs && n in ns :: Perm(g, res, v, n)
  }

  function OfGroups(gs: seq<string>, rs: seq<string>, vs: seq<string>, ns: seq<Option<string>>): set<Perm> {
    set g, res, v, n | g in gs && res in rs && v in vs && n in ns :: Perm(g, res, v, n)
  }

  function OfRule(r: Rule): set<Perm> {
    OfGroups(Groups(r), r.resources, r.verbs, Names(r))
  }

  function Expanded(rules: seq<Rule>): set<Perm> {
    set r, p | r in rules && p in OfRule(r) :: p
  }

  lemma ExpandedStep(rules: seq<Rule>, i: nat)
    requires i < |rules|
    ensures Expanded(rules[..i + 1]) == Expanded(rules[..i]) + OfRule(rules[i])
  {
    assert rules[..i + 1] == rules[..i] + [rules[i]];
  }

  lemma VerbStep(g: string, res: string, v: string, ns: seq<Option<string>>, d: nat)
    requires d < |ns|
    ensures OfVerb(g, res, v, ns[..d + 1]) == OfVerb(g, res, v, ns[..d]) + {Perm(g, res, v, ns[d])}
  {
    assert ns[..d + 1] == ns[..d] + [ns[d]];
  }

  lemma VerbsStep(g: string, res: string, vs: seq<string>, ns: seq<Option<string>>, c: nat)
    requires c < |vs|
    ensures OfVerbs(g, res, vs[..c + 1], ns) == OfVerbs(g, res, vs[..c], ns) + OfVerb(g, res, vs[c], ns)
  {
    assert vs[..c + 1] == vs[..c] + [vs[c]];
  }

  lemma ResourcesStep(g: string, rs: seq<string>, vs: seq<string>, ns: seq<Option<string>>, b: nat)
    requires b < |rs|
    ensures OfResources(g, rs[..b + 1], vs, ns) == OfResources(g, rs[..b], vs, ns) + OfVerbs(g, rs[b], vs, ns)
  {
    assert rs[..b + 1] == rs[..b] + [rs[b]];
  }

  lemma GroupsStep(gs: seq<string>, rs: seq<string>, vs: seq<string>, ns: seq<Option<string>>, a: nat)
    requires a < |gs|
    ensures OfGroups(gs[..a + 1], rs, vs, ns) == OfGroups(gs[..a], rs, vs, ns) + OfResources(gs[a], rs, vs, ns)
  {
    assert gs[..a + 1] == gs[..a] + [gs[a]];
  }

  method Expand(rules: seq<Rule>) returns (out: set<Perm>)
    ensures out == Expanded(rules)
  {
    out := {};
    for i := 0 to |rules|
      invariant out == Expanded(rules[..i])
    {
      out := AddRule(rules[i], out);
      ExpandedStep(rules, i);
    }
    assert rules[..|rules|] == rules;
  }

  method AddRule(r: Rule, already: set<Perm>) returns (out: set<Perm>)
    ensures out == already + OfRule(r)
  {
    out := already;
    var gs, rs, vs, ns := Groups(r), r.resources, r.verbs, Names(r);
    for a := 0 to |gs|
      invariant out == already + OfGroups(gs[..a], rs, vs, ns)
    {
      ghost var beforeGroup := out;
      for b := 0 to |rs|
        invariant out == beforeGroup + OfResources(gs[a], rs[..b], vs, ns)
      {
        out := AddVerbs(gs[a], rs[b], vs, ns, out);
        ResourcesStep(gs[a], rs, vs, ns, b);
      }
      assert rs[..|rs|] == rs;
      GroupsStep(gs, rs, vs, ns, a);
    }
    assert gs[..|gs|] == gs;
  }

  /** The two innermost loops. */
  method AddVerbs(g: string, res: string, vs: seq<string>, ns: seq<Option<string>>, already: set<Perm>)
    returns (out: set<Perm>)
    ensures out == already + OfVerbs(g, res, vs, ns)
  {
    out := already;
    for c := 0 to |vs|
      invariant out == already + OfVerbs(g, res, vs[..c], ns)
    {
      ghost var beforeVerb := out;
      for d := 0 to |ns|
        invariant out == beforeVerb + OfVerb(g, res, vs[c], ns[..d])
      {
        out := out + {Perm(g, res, vs[c], ns[d])};
        VerbStep(g, res, vs[c], ns, d);
      }
      assert ns[..|ns|] == ns;
      VerbsStep(g, res, vs, ns, c);
    }
    assert vs[..|vs|] == vs;
  }

  // ----- held -----

  predicate Held(perms: set<Perm>, need: Perm) {
    exists h | h in perms ::
      && h.group in {need.group, "*"}
      && h.resource in {need.resource, "*"}
      && h.verb in {need.verb, "*"}
      && (h.name.None? || h.name == need.name)
  }

  predicate Covers(pattern: string, word: string) {
    pattern == "*" || pattern == word
  }

  predicate NameFits(n: Option<string>, name: string) {
    n.Some? ==> n.value == name
  }

  predicate Matches(p: Perm, q: Request) {
    Covers(p.group, q.group) && Covers(p.resource, q.resource) && Covers(p.verb, q.verb)
    && NameFits(p.name, q.name)
  }

  /** Every request the need stands for is granted by some permission. */
  ghost predicate Covered(perms: set<Perm>, need: Perm) {
    forall q: Request | Concrete(q) && Matches(need, q) :: exists h | h in perms :: Matches(h, q)
  }

  lemma {:induction false} LongerThanAll(words: set<string>) returns (w: string)
    ensures w !in words && w != "*"
    ensures forall x | x in words :: |x| < |w|
    ensures 1 < |w|
  {
    if words == {} {
      w := "xx";
    } else {
      var x :| x in words;
      var rest := LongerThanAll(words - {x});
      w := rest + x;
      forall y | y in words ensures |y| < |w| {
        if y != x {
          assert y in words - {x};
        }
      }
    }
  }

  /** A word for one component of a request: the need's own, or one no permission mentions. */
  lemma Witness(word: string, mentioned: set<string>) returns (w: string)
    ensures w != "*" && Covers(word, w)
    ensures forall h | h in mentioned && Covers(h, w) :: h in {word, "*"}
  {
    if word == "*" {
      w := LongerThanAll(mentioned);
    } else {
      w := word;
    }
  }

  /** The test is exact: it succeeds just when the permissions cover every request of the need. */
  lemma HeldExact(perms: set<Perm>, need: Perm)
    ensures Held(perms, need) <==> Covered(perms, need)
  {
    if Covered(perms, need) {
      var g := Witness(need.group, set h | h in perms :: h.group);
      var r := Witness(need.resource, set h | h in perms :: h.resource);
      var v := Witness(need.verb, set h | h in perms :: h.verb);
      var scoped := set h | h in perms && h.name.Some? :: h.name.value;
      var fresh_ := LongerThanAll(scoped);
      var q := Request(g, r, v, need.name.GetOr(fresh_));
      assert Concrete(q) && Matches(need, q);
      var h :| h in perms && Matches(h, q);
      assert h.name.Some? ==> h.name.value in scoped;
    }
  }

  // ----- roles -----

  /** A rule read directly: each list has to cover the request; without API groups the rule is about the core group. */
  ghost predicate RuleMatches(r: Rule, q: Request) {
    && (if r.apiGroups == [] then q.group == "" else exists g | g in r.apiGroups :: Covers(g, q.group))
    && (exists res | res in r.resources :: Covers(res, q.resource))
    && (exists v | v in r.verbs :: Covers(v, q.verb))
    && (r.resourceNames == [] || q.name in r.resourceNames)
  }

  ghost predicate Permits(rules: seq<Rule>, q: Request) {
    exists r | r in rules :: RuleMatches(r, q)
  }

  lemma NamesExact(r: Rule, name: string)
    ensures (r.resourceNames == [] || name in r.resourceNames) <==> exists n | n in Names(r) :: NameFits(n, name)
  {
    if r.resourceNames == [] {
      assert Names(r)[0] == None && None in Names(r) && NameFits(None, name);
    } else if i :| 0 <= i < |r.resourceNames| && r.resourceNames[i] == name {
      assert Names(r)[i] == Some(name) && Some(name) in Names(r) && NameFits(Some(name), name);
    }
  }

  lemma GroupsExact(r: Rule, group: string)
    ensures (if r.apiGroups == [] then group == "" else exists g | g in r.apiGroups :: Covers(g, group))
       <==> exists g | g in Groups(r) :: Covers(g, group)
  {
    if r.apiGroups == [] {
      assert Groups(r)[0] == "" && forall g | g in Groups(r) :: g == "";
      assert Covers("", group) <==> group == "";
    }
  }

  lemma RuleExpandedExact(r: Rule, q: Request)
    ensures RuleMatches(r, q) <==> exists p | p in OfRule(r) :: Matches(p, q)
  {
    NamesExact(r, q.name);
    GroupsExact(r, q.group);
    if RuleMatches(r, q) {
      var g :| g in Groups(r) && Covers(g, q.group);
      var res :| res in r.resources && Covers(res, q.resource);
      var v :| v in r.verbs && Covers(v, q.verb);
      var n :| n in Names(r) && NameFits(n, q.name);
      assert Perm(g, res, v, n) in OfRule(r);
    }
    if p :| p in OfRule(r) && Matches(p, q) {
      assert p.group in Groups(r) && p.resource in r.resources && p.verb in r.verbs && p.name in Names(r);
      assert NameFits(p.name, q.name);
    }
  }

  /** Expanding a role into permissions keeps its meaning. */
  lemma ExpandedExact(rules: seq<Rule>, q: Request)
    ensures Permits(rules, q) <==> exists p | p in Expanded(rules) :: Matches(p, q)
  {
    if Permits(rules, q) {
      var r :| r in rules && RuleMatches(r, q);
      RuleExpandedExact(r, q);
    }
    if p :| p in Expanded(rules) && Matches(p, q) {
      var r :| r in rules && p in OfRule(r);
      RuleExpandedExact(r, q);
    }
  }

  /** What the report shows of the needs that are not held: they lose their names. */
  function Missing(perms: set<Perm>, rules: seq<Rule>): set<(string, string, string)> {
    set p | p in Expanded(rules) && !Held(perms, p) :: (p.group, p.resource, p.verb)
  }

  /** The report shows a group, resource and verb exactly if a permission of that kind lets some request through. */
  lemma ShownExact(perms: set<Perm>, rules: seq<Rule>, group: string, resource: string, verb: string)
    ensures (group, resource, verb) in Missing(perms, rules)
       <==> exists p | p in Expanded(rules) ::
              && p.group == group && p.resource == resource && p.verb == verb
              && exists q :: Concrete(q) && Matches(p, q) && forall h | h in perms :: !Matches(h, q)
  {
    forall p ensures Held(perms, p) <==> Covered(perms, p) {
      HeldExact(perms, p);
    }
    if p :| p in Expanded(rules) && p.group == group && p.resource == resource && p.verb == verb && !Held(perms, p) {
      assert (p.group, p.resource, p.verb) in Missing(perms, rules);
    }
    if (group, resource, verb) in Missing(perms, rules) {
      var p :| p in Expanded(rules) && !Held(perms, p) && (p.group, p.resource, p.verb) == (group, resource, verb);
      assert p.group == group && p.resource == resource && p.verb == verb;
    }
  }

  datatype RoleKind = Role | ClusterRole

  /** The updater's permissions where a role of this kind lives. */
  function ServerPerms(kind: RoleKind, cluster: seq<Rule>, managed: seq<Rule>): set<Perm> {
    if kind.Role? then Expanded(cluster) + Expanded(managed) else Expanded(cluster)
  }

  ghost predicate ServerPermits(kind: RoleKind, cluster: seq<Rule>, managed: seq<Rule>, q: Request) {
    Permits(cluster, q) || (kind.Role? && Permits(managed, q))
  }

  /** Nothing is missing exactly when the new role permits nothing the server lacks. */
  lemma MissingExact(kind: RoleKind, cluster: seq<Rule>, managed: seq<Rule>, rules: seq<Rule>)
    ensures Missing(ServerPerms(kind, cluster, managed), rules) == {}
       <==> forall q: Request | Concrete(q) && Permits(rules, q) :: ServerPermits(kind, cluster, managed, q)
  {
    var perms := ServerPerms(kind, cluster, managed);
    var missing := Missing(perms, rules);
    forall q: Request
      ensures (exists h | h in perms :: Matches(h, q)) <==> ServerPermits(kind, cluster, managed, q)
    {
      ExpandedExact(cluster, q);
      ExpandedExact(managed, q);
      if h :| h in perms && Matches(h, q) {
        assert h in Expanded(cluster) || (kind.Role? && h in Expanded(managed));
      }
      if x :| x in Expanded(cluster) && Matches(x, q) {
        assert x in perms;
      }
      if kind.Role? {
        if x :| x in Expanded(managed) && Matches(x, q) {
          assert x in perms;
        }
      }
    }
    forall p | p in Expanded(rules) ensures Held(perms, p) || (p.group, p.resource, p.verb) in missing {}
    if missing == {} {
      forall q: Request | Concrete(q) && Permits(rules, q) ensures ServerPermits(kind, cluster, managed, q) {
        ExpandedExact(rules, q);
        var p :| p in Expanded(rules) && Matches(p, q);
        HeldExact(perms, p);
      }
    }
    if forall q: Request | Concrete(q) && Permits(rules, q) :: ServerPermits(kind, cluster, managed, q) {
      forall p | p in Expanded(rules) ensures Held(perms, p) {
        forall q: Request | Concrete(q) && Matches(p, q) ensures exists h | h in perms :: Matches(h, q) {
          ExpandedExact(rules, q);
        }
        HeldExact(perms, p);
      }
    }
  }
}
