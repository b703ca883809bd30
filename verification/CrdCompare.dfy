/** hack/crd-guard.py: compare and _versions, over whole CRD documents. */
module CrdCompare {
  import opened Wrappers
  import opened CrdSchema
  import opened CrdGuard
  import opened Lists
  import CrdSoundness

  /** The fields that key every existing resource: group, scope, plural and kind. */
  datatype Identity = Group | Scope | Plural | KindName

  /** schema is EMPTY when the document gives none. */
  datatype Version = Version(name: string, served: Option<bool>, schema: Schema)

  datatype Document = Document(identity: map<Identity, string>, versions: seq<Version>)

  const IDENTITIES: seq<Identity> := [Group, Scope, Plural, KindName]

  /** The versions by name; of two with one name, the later counts. */
  function Versions(versions: seq<Version>): (m: map<string, Version>)
    ensures forall name | name in m :: m[name].name == name
  {
    if versions == [] then map[]
    else
      var last := versions[|versions| - 1];
      Versions(versions[..|versions| - 1])[last.name := last]
  }

  /** Where the last version with this name stands; -1 if there is none. */
  function LastNamed(versions: seq<Version>, name: string): (i: int)
    ensures -1 <= i < |versions| && (i >= 0 ==> versions[i].name == name)
    ensures forall j | i < j < |versions| :: versions[j].name != name
  {
    if versions == [] then -1
    else if versions[|versions| - 1].name == name then |versions| - 1
    else LastNamed(versions[..|versions| - 1], name)
  }

  /** Exactly the names of the list are there, each with its last version. */
  lemma {:induction false} VersionsExact(versions: seq<Version>, name: string)
    ensures var i := LastNamed(versions, name);
            if i < 0 then name !in Versions(versions)
            else name in Versions(versions) && Versions(versions)[name] == versions[i]
    decreases |versions|
  {
    if versions != [] {
      VersionsExact(versions[..|versions| - 1], name);
    }
  }

  predicate Served(v: Version) {
    v.served.GetOr(true)
  }

  predicate IdentityMoved(o: Document, n: Document, key: Identity) {
    key in o.identity && (key !in n.identity || n.identity[key] != o.identity[key])
  }

  function IdentityPath(key: Identity): string {
    match key
    case Group => "spec.group"
    case Scope => "spec.scope"
    case Plural => "spec.names.plural"
    case KindName => "spec.names.kind"
  }

  function VersionProblems(o: Version, newer: map<string, Version>): set<Problem> {
    if o.name !in newer then {Problem(o.name, VersionRemoved)}
    else
      (if Served(o) && !Served(newer[o.name]) then {Problem(o.name, ServedFlipped)} else {})
      + WalkProblems(o.schema, newer[o.name].schema, o.name)
  }

  function VersionsProblems(older: map<string, Version>, newer: map<string, Version>, names: set<string>): set<Problem>
    requires names <= older.Keys
  {
    set name, p | name in names && p in VersionProblems(older[name], newer) :: p
  }

  function IdentityProblems(o: Document, n: Document, keys: seq<Identity>): set<Problem> {
    set key | key in keys && IdentityMoved(o, n, key) :: Problem(IdentityPath(key), IdentityChanged)
  }

  function CompareProblems(o: Document, n: Document): set<Problem> {
    IdentityProblems(o, n, IDENTITIES)
    + VersionsProblems(Versions(o.versions), Versions(n.versions), Versions(o.versions).Keys)
  }

  method Compare(o: Document, n: Document) returns (problems: ProblemList)
    ensures fresh(problems)
    ensures ToSet(problems.list) == CompareProblems(o, n)
  {
    problems := new ProblemList();
    CompareIdentity(o, n, IDENTITIES, problems);
    ghost var l1 := problems.list;
    assert l1[0..] == l1;
    CompareVersions(Versions(o.versions), Versions(n.versions), problems);
    AppendedTwice([], l1, problems.list, IdentityProblems(o, n, IDENTITIES),
                  VersionsProblems(Versions(o.versions), Versions(n.versions), Versions(o.versions).Keys));
    assert problems.list[0..] == problems.list;
  }

  method CompareIdentity(o: Document, n: Document, keys: seq<Identity>, problems: ProblemList)
    requires problems.list == []
    modifies problems
    ensures ToSet(problems.list) == IdentityProblems(o, n, keys)
  {
    for i := 0 to |keys|
      invariant ToSet(problems.list) == IdentityProblems(o, n, keys[..i])
    {
      ghost var before := problems.list;
      problems.AddWhen(IdentityMoved(o, n, keys[i]), IdentityPath(keys[i]), IdentityChanged);
      assert IdentityMoved(o, n, keys[i]) ==>
          problems.list == before + [Problem(IdentityPath(keys[i]), IdentityChanged)];
      assert IdentityProblems(o, n, keys[..i + 1])
          == IdentityProblems(o, n, keys[..i]) + IdentityProblems(o, n, [keys[i]]);
      assert keys[..i + 1] == keys[..i] + [keys[i]];
    }
    assert keys[..|keys|] == keys;
  }

  method CompareVersions(older: map<string, Version>, newer: map<string, Version>, problems: ProblemList)
    requires forall name | name in older :: older[name].name == name
    modifies problems
    ensures Appended(old(problems.list), problems.list, VersionsProblems(older, newer, older.Keys))
  {
    var todo := older.Keys;
    while todo != {}
      invariant todo <= older.Keys
      invariant Appended(old(problems.list), problems.list, VersionsProblems(older, newer, older.Keys - todo))
      decreases todo
    {
      var name :| name in todo;
      ghost var done, before := older.Keys - todo, problems.list;
      if name !in newer {
        problems.AddWhen(true, name, VersionRemoved);
      } else {
        problems.AddWhen(Served(older[name]) && !Served(newer[name]), name, ServedFlipped);
        ghost var middle := problems.list;
        Walk(older[name].schema, newer[name].schema, name, problems);
        AppendedTwice(before, middle, problems.list, ToSet(middle[|before|..]),
                      WalkProblems(older[name].schema, newer[name].schema, name));
      }
      AppendedTwice(old(problems.list), before, problems.list, VersionsProblems(older, newer, done),
                    VersionProblems(older[name], newer));
      todo := todo - {name};
      assert older.Keys - todo == done + {name};
      assert VersionsProblems(older, newer, done + {name})
          == VersionsProblems(older, newer, done) + VersionProblems(older[name], newer);
    }
    assert older.Keys - {} == older.Keys;
  }

  /** A clean comparison keeps every identity field the old document has. */
  lemma CleanKeepsIdentity(o: Document, n: Document, key: Identity)
    requires CompareProblems(o, n) == {} && key in o.identity
    ensures key in n.identity && n.identity[key] == o.identity[key]
  {
    assert key in IDENTITIES by {
      match key case Group => assert IDENTITIES[0] == key; case Scope => assert IDENTITIES[1] == key;
        case Plural => assert IDENTITIES[2] == key; case KindName => assert IDENTITIES[3] == key;
    }
    assert IdentityMoved(o, n, key) ==>
        Problem(IdentityPath(key), IdentityChanged) in IdentityProblems(o, n, IDENTITIES);
    assert IdentityProblems(o, n, IDENTITIES) <= CompareProblems(o, n);
  }

  /**
   A clean comparison keeps every version, keeps served versions served, and leaves every
   resource stored under a version valid and whole.
   */
  lemma CleanCompareIsSound(orc: Oracle, o: Document, n: Document, name: string, v: Value)
    requires CompareProblems(o, n) == {}
    requires name in Versions(o.versions)
    ensures name in Versions(n.versions)
    ensures Served(Versions(o.versions)[name]) ==> Served(Versions(n.versions)[name])
    ensures var os, ns := Versions(o.versions)[name].schema, Versions(n.versions)[name].schema;
            CrdSoundness.Comparable(os, ns, false) && Valid(orc, os, v) && Prune(os, v) == v ==>
              Valid(orc, ns, v) && Prune(ns, v) == v
  {
    var older, newer := Versions(o.versions), Versions(n.versions);
    var ps := VersionProblems(older[name], newer);
    forall p | p in ps ensures p in CompareProblems(o, n) {
      assert p in VersionsProblems(older, newer, older.Keys);
    }
    assert ps == {};
    assert name !in newer ==> Problem(name, VersionRemoved) in ps;
    var os, ns := older[name].schema, newer[name].schema;
    assert Served(older[name]) && !Served(newer[name]) ==> Problem(name, ServedFlipped) in ps;
    if CrdSoundness.Comparable(os, ns, false) && Valid(orc, os, v) && Prune(os, v) == v {
      CrdSoundness.GuardSound(orc, os, ns, name, v);
    }
  }
}
