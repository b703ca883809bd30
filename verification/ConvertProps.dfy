/** What a converted document is guaranteed to hold, whatever project it came from. */
module ConvertProps {
  import opened Wrappers
  import opened Lists
  import opened Sorting
  import opened Slug
  import opened SlugAlloc
  import opened Interp
  import opened Classify
  import opened EnvRef
  import opened Convert
  import ImageRead

  // ----- every service lands in exactly one place -----

  function SlugList(slugs: map<string, string>, names: seq<string>): seq<string>
    requires forall n | n in names :: n in slugs
  {
    if names == [] then [] else SlugList(slugs, names[..|names| - 1]) + [slugs[names[|names| - 1]]]
  }

  function ServiceNames(services: seq<Service>): seq<string> {
    if services == [] then [] else ServiceNames(services[..|services| - 1]) + [services[|services| - 1].name]
  }

  function AddonNames(addons: seq<Addon>): seq<string> {
    if addons == [] then [] else AddonNames(addons[..|addons| - 1]) + [addons[|addons| - 1].name]
  }

  /** One more service, or one more addon, adds its one name. */
  lemma NamesStep(ss: seq<Service>, aa: seq<Addon>, apps: seq<Service>, managed: seq<Addon>, name: string)
    requires || (|apps| == 1 && managed == [] && apps[0].name == name)
             || (apps == [] && |managed| == 1 && managed[0].name == name)
    ensures multiset(ServiceNames(ss + apps) + AddonNames(aa + managed))
         == multiset(ServiceNames(ss) + AddonNames(aa)) + multiset{name}
  {
    if managed == [] {
      assert aa + managed == aa && (ss + apps)[..|ss|] == ss;
      assert ServiceNames(ss + apps) == ServiceNames(ss) + [name];
    } else {
      assert ss + apps == ss && (aa + managed)[..|aa|] == aa;
      assert AddonNames(aa + managed) == AddonNames(aa) + [name];
      assert ServiceNames(ss) + (AddonNames(aa) + [name]) == (ServiceNames(ss) + AddonNames(aa)) + [name];
    }
  }

  /** The document's names are the slugs handed out, each as often as it was handed out. */
  lemma {:induction false} NamesConserved(services: Project, slugs: map<string, string>, addons: seq<AddonRef>,
                                          names: seq<string>)
    requires Known(services, slugs, names)
    ensures multiset(ServiceNames(ServiceDocs(services, slugs, addons, names))
                     + AddonNames(AddonDocs(services, slugs, names)))
         == multiset(SlugList(slugs, names))
    decreases |names|
  {
    if names != [] {
      var init, n := names[..|names| - 1], names[|names| - 1];
      NamesConserved(services, slugs, addons, init);
      NamesStep(ServiceDocs(services, slugs, addons, init), AddonDocs(services, slugs, init),
                AppOf(services[n], slugs[n], addons), AddonOf(services[n], slugs[n]), slugs[n]);
    }
  }

  lemma {:induction false} SlugListAt(slugs: map<string, string>, names: seq<string>)
    requires forall n | n in names :: n in slugs
    ensures |SlugList(slugs, names)| == |names|
    ensures forall i | 0 <= i < |names| :: SlugList(slugs, names)[i] == slugs[names[i]]
  {
    if names != [] {
      SlugListAt(slugs, names[..|names| - 1]);
    }
  }

  /** No two entries of the document, services and addons together, share a name. */
  lemma AllNamesDistinct(services: Project, projectName: string, plan: Plan)
    requires ValidPlan(services, plan) && Known(services, plan.slugs, plan.names)
    ensures var doc := DocOf(services, projectName, plan);
            && |ServiceNames(doc.services) + AddonNames(doc.addons)| == |services|
            && DistinctKeys(Id, ServiceNames(doc.services) + AddonNames(doc.addons))
  {
    var doc := DocOf(services, projectName, plan);
    var all, list := ServiceNames(doc.services) + AddonNames(doc.addons), SlugList(plan.slugs, plan.names);
    NamesConserved(services, plan.slugs, plan.addons, plan.names);
    SlugListAt(plan.slugs, plan.names);
    AssignInjective(SlugOf, plan.names);
    DistinctSlugs(plan.slugs, plan.names);
    PermutedDistinct(Id, list, all);
    SameMembers(list, all);
    SetSize(plan.names);
  }

  lemma DistinctSlugs(slugs: map<string, string>, names: seq<string>)
    requires DistinctKeys(Id, names) && forall n | n in names :: n in slugs
    requires forall j, k | j in slugs && k in slugs && j != k :: slugs[j] != slugs[k]
    ensures DistinctKeys(Id, SlugList(slugs, names))
  {
    SlugListAt(slugs, names);
    forall i, j | 0 <= i < j < |names| ensures slugs[names[i]] != slugs[names[j]] {
      assert Id(names[i]) != Id(names[j]);
    }
  }

  lemma {:induction false} SetSize(names: seq<string>)
    requires DistinctKeys(Id, names)
    ensures |ToSet(names)| == |names|
    decreases |names|
  {
    if names != [] {
      var init, last := names[..|names| - 1], names[|names| - 1];
      SetSize(init);
      assert names == init + [last];
      assert ToSet(names) == ToSet(init) + {last};
      assert last !in init by {
        assert forall i | 0 <= i < |init| :: Id(names[i]) != Id(last);
      }
    }
  }

  // ----- where each entry comes from -----

  predicate MakesService(services: Project, slugs: map<string, string>, addons: seq<AddonRef>, n: string, s: Service) {
    n in services && n in slugs && IsApp(services[n]) && s == ServiceOf(services[n], slugs[n], addons)
  }

  predicate MakesAddon(services: Project, slugs: map<string, string>, n: string, a: Addon) {
    n in services && n in slugs && !IsApp(services[n]) && AddonOf(services[n], slugs[n]) == [a]
  }

  /** The document's services are exactly those that the apps among the names make. */
  lemma {:induction false} ServiceOrigin(services: Project, slugs: map<string, string>, addons: seq<AddonRef>,
                                         names: seq<string>, s: Service)
    requires Known(services, slugs, names)
    ensures s in ServiceDocs(services, slugs, addons, names)
       <==> exists n | n in names :: MakesService(services, slugs, addons, n, s)
    decreases |names|
  {
    if names != [] {
      var init, last := names[..|names| - 1], names[|names| - 1];
      assert forall n :: n in names <==> n in init || n == last by {
        LastMember(names);
      }
      ServiceOrigin(services, slugs, addons, init, s);
      assert s in AppOf(services[last], slugs[last], addons) <==> MakesService(services, slugs, addons, last, s);
    }
  }

  /** And its addons exactly those that the classified datastores make. */
  lemma {:induction false} AddonOrigin(services: Project, slugs: map<string, string>, names: seq<string>, a: Addon)
    requires Known(services, slugs, names)
    ensures a in AddonDocs(services, slugs, names) <==> exists n | n in names :: MakesAddon(services, slugs, n, a)
    decreases |names|
  {
    if names != [] {
      var init, last := names[..|names| - 1], names[|names| - 1];
      assert forall n :: n in names <==> n in init || n == last by {
        LastMember(names);
      }
      AddonOrigin(services, slugs, init, a);
      assert a in AddonOf(services[last], slugs[last]) <==> MakesAddon(services, slugs, last, a);
    }
  }

  lemma ArgumentsJoined(entrypoint: seq<string>, command: seq<string>)
    ensures ResolvedList(entrypoint + command) == ResolvedList(entrypoint) + ResolvedList(command)
    ensures entrypoint == [] ==> entrypoint + command == command
  {
  }

  lemma ArgsResolved(args: Values)
    ensures (map k | k in ResolvedValues(args) && ResolvedValues(args)[k].Some? :: ResolvedValues(args)[k].value)
         == map k | k in args && args[k].Some? :: Interpolated(args[k].value).out
  {
    forall k | k in args ensures ResolvedValues(args)[k] == ResolvedValue(args[k]) {}
  }

  /** A service runs its entrypoint and command as one argument list, and keeps the build arguments with a value. */
  lemma ValuesCarried(svc: ServiceConfig, slug: string, addons: seq<AddonRef>)
    ensures ServiceOf(Resolved(svc), slug, addons).command == ResolvedList(svc.entrypoint + svc.command)
    ensures svc.build.Some? ==>
              var args := svc.build.value.args;
              ServiceOf(Resolved(svc), slug, addons).buildArgs
              == map k | k in args && args[k].Some? :: Interpolated(args[k].value).out
    ensures svc.build.None? ==> ServiceOf(Resolved(svc), slug, addons).buildArgs == map[]
  {
    ArgumentsJoined(svc.entrypoint, svc.command);
    if svc.build.Some? {
      ArgsResolved(svc.build.value.args);
    }
  }

  // ----- references -----

  lemma CredRoles(table: map<string, Role>, env: Values, creds: map<Role, string>)
    requires CredsRead(table, env, creds) && forall k | k in table :: table[k] in {User, Password, Db}
    ensures creds.Keys <= {User, Password, Db}
  {
    forall role | role in creds ensures role in {User, Password, Db} {
      var k :| Declares(table, env, k, role, creds[role]);
    }
  }

  lemma RefValid(name: string, svc: ServiceConfig, slug: string, a: AddonRef)
    requires RefOf(name, svc, slug, a)
    ensures ValidAddon(a)
  {
    CredRoles(CredEnv(a.kind), svc.environment, a.creds);
  }

  lemma AddonsValid(services: Project, plan: Plan)
    requires ValidPlan(services, plan)
    ensures ValidAddons(plan.addons)
  {
    forall i | 0 <= i < |plan.addons| ensures ValidAddon(plan.addons[i]) {
      assert plan.addons[i] in plan.addons;
      var n :| n in plan.refs && plan.refs[n] == plan.addons[i];
      RefValid(n, services[n], plan.slugs[n], plan.refs[n]);
    }
  }

  /** The addons that values may refer to are those of the document. */
  lemma AddonInDoc(services: Project, projectName: string, plan: Plan, a: AddonRef)
    requires ValidPlan(services, plan) && Known(services, plan.slugs, plan.names) && a in plan.addons
    ensures exists d :: d in DocOf(services, projectName, plan).addons && d.name == a.slug && d.kind == a.kind
  {
    var n :| n in plan.refs && plan.refs[n] == a;
    assert RefOf(n, services[n], plan.slugs[n], a);
    assert n in ToSet(plan.names);
    var d := AddonOf(services[n], plan.slugs[n])[0];
    AddonOrigin(services, plan.slugs, plan.names, d);
    assert MakesAddon(services, plan.slugs, n, d);
    assert d in DocOf(services, projectName, plan).addons;
  }

  /** An environment value is its own text, or refers to an addon of the document by a key that addon injects. */
  ghost predicate ValueLegitimate(doc: Doc, v: Option<string>, out: string) {
    || out == v.GetOr("")
    || exists d, key :: d in doc.addons && KeyTable(d.kind).Some? && KeyTable(d.kind).value.Injects(key)
                        && out == RefText(d.name, key)
  }

  lemma EnvValueLegitimate(services: Project, projectName: string, plan: Plan, k: string, v: Option<string>)
    requires ValidPlan(services, plan) && Known(services, plan.slugs, plan.names)
    ensures ValueLegitimate(DocOf(services, projectName, plan), v, EnvValue(k, v, plan.addons))
  {
    if v.Some? {
      AddonsValid(services, plan);
      ReferenceResolves(k, v.value, plan.addons);
      var c := ChooseAddonEnv(k, v.value, plan.addons);
      if c.Choice? && c.key != "" {
        AddonInDoc(services, projectName, plan, c.addon);
        var d :| d in DocOf(services, projectName, plan).addons && d.name == c.addon.slug && d.kind == c.addon.kind;
        KeyTableFacts(d.kind);
        assert RefText(d.name, c.key) == EnvValue(k, v, plan.addons);
      }
    }
  }

  // ----- what a service runs -----

  /** Built where the compose file builds it; otherwise the image that the reference names, if there is one. */
  ghost predicate RunsImage(svc: ServiceConfig, s: Service) {
    if svc.build.Some? || svc.image == "" then s.runtime == FromDockerfile && s.image == None
    else s.runtime == FromImage && s.image.Some? && ImageRead.Names(svc.image, s.image.value)
  }

  /** Entrypoint and command are one argument list; a build keeps its arguments with a value. */
  ghost predicate RunsWith(svc: ServiceConfig, s: Service) {
    && s.command == svc.entrypoint + svc.command
    && (svc.build.None? ==> s.buildArgs == map[])
    && (svc.build.Some? ==> forall k, x :: k in s.buildArgs && s.buildArgs[k] == x
                                       <==> k in svc.build.value.args && svc.build.value.args[k] == Some(x))
  }

  /** A variable keeps its text, unless an addon answers for it by one of its keys; without a value it is empty. */
  ghost predicate RunsVariable(k: string, v: Option<string>, addons: seq<AddonRef>, out: string) {
    match v
    case None => out == ""
    case Some(val) =>
      match ChooseAddonEnv(k, val, addons)
      case NoMatch => out == val
      case Choice(a, key, _) => out == if |key| > 0 then "${{ " + a.slug + "." + key + " }}" else val
  }

  ghost predicate Runs(svc: ServiceConfig, addons: seq<AddonRef>, s: Service) {
    && RunsImage(svc, s) && RunsWith(svc, s) && s.env.Keys == svc.environment.Keys
    && forall k | k in s.env :: RunsVariable(k, svc.environment[k], addons, s.env[k])
  }

  lemma ImageCarried(svc: ServiceConfig, slug: string, addons: seq<AddonRef>)
    ensures RunsImage(svc, ServiceOf(svc, slug, addons))
  {
    if svc.build.None? && svc.image != "" {
      ImageRead.NamesExact(svc.image, ServiceOf(svc, slug, addons).image.value);
    }
  }

  lemma ArgumentsCarried(svc: ServiceConfig, slug: string, addons: seq<AddonRef>)
    ensures RunsWith(svc, ServiceOf(svc, slug, addons))
  {
    assert [] + svc.command == svc.command;
  }

  lemma VariableCarried(k: string, v: Option<string>, addons: seq<AddonRef>)
    ensures RunsVariable(k, v, addons, EnvValue(k, v, addons))
  {
  }

  lemma VariablesCarried(svc: ServiceConfig, slug: string, addons: seq<AddonRef>)
    ensures ServiceOf(svc, slug, addons).env.Keys == svc.environment.Keys
    ensures forall k | k in svc.environment ::
              RunsVariable(k, svc.environment[k], addons, ServiceOf(svc, slug, addons).env[k])
  {
    forall k | k in svc.environment
      ensures RunsVariable(k, svc.environment[k], addons, EnvValue(k, svc.environment[k], addons))
    {
      VariableCarried(k, svc.environment[k], addons);
    }
  }

  lemma ServiceRuns(svc: ServiceConfig, slug: string, addons: seq<AddonRef>)
    ensures Runs(svc, addons, ServiceOf(svc, slug, addons)) && ServiceOf(svc, slug, addons).name == slug
  {
    ImageCarried(svc, slug, addons);
    ArgumentsCarried(svc, slug, addons);
    VariablesCarried(svc, slug, addons);
  }

  /** `now` is `was` with every text interpolated and nothing else changed. */
  ghost predicate Interpolates(was: ServiceConfig, now: ServiceConfig) {
    && now.image == Interpolated(was.image).out
    && InterpolatesList(was.command, now.command) && InterpolatesList(was.entrypoint, now.entrypoint)
    && InterpolatesValues(was.environment, now.environment) && now.envFiles == was.envFiles
    && now.build.Some? == was.build.Some?
    && (was.build.Some? ==>
          && now.build.value.context == was.build.value.context
          && InterpolatesValues(was.build.value.args, now.build.value.args))
  }

  predicate InterpolatesList(was: seq<string>, now: seq<string>) {
    |now| == |was| && forall i | 0 <= i < |was| :: now[i] == Interpolated(was[i]).out
  }

  ghost predicate InterpolatesValues(was: Values, now: Values) {
    && now.Keys == was.Keys && (forall k | k in was :: now[k].Some? == was[k].Some?)
    && forall k | k in was && was[k].Some? :: now[k].value == Interpolated(was[k].value).out
  }

  lemma ResolvedInterpolates(svc: ServiceConfig)
    ensures Interpolates(svc, Resolved(svc))
  {
  }

  // ----- the document -----

  /** The document holds a service of this name that runs what svc says, and whose variables are all legitimate. */
  ghost predicate HoldsService(doc: Doc, name: string, svc: ServiceConfig, addons: seq<AddonRef>) {
    exists s | s in doc.services ::
      && s.name == name && Runs(svc, addons, s)
      && forall k | k in s.env :: ValueLegitimate(doc, svc.environment[k], s.env[k])
  }

  ghost predicate HoldsAddon(doc: Doc, name: string, d: Datastore) {
    Addon(name, d.kind, d.version) in doc.addons
  }

  lemma AppHeld(services: Project, projectName: string, plan: Plan, n: string)
    requires ValidPlan(services, plan) && Known(services, plan.slugs, plan.names) && n in plan.names
    requires IsApp(services[n])
    ensures HoldsService(DocOf(services, projectName, plan), plan.slugs[n], services[n], plan.addons)
  {
    var svc, doc := services[n], DocOf(services, projectName, plan);
    var s := ServiceOf(svc, plan.slugs[n], plan.addons);
    ServiceOrigin(services, plan.slugs, plan.addons, plan.names, s);
    assert MakesService(services, plan.slugs, plan.addons, n, s);
    ServiceRuns(svc, plan.slugs[n], plan.addons);
    forall k | k in s.env ensures ValueLegitimate(doc, svc.environment[k], s.env[k]) {
      EnvValueLegitimate(services, projectName, plan, k, svc.environment[k]);
    }
    assert s in doc.services;
  }

  lemma AddonHeld(services: Project, projectName: string, plan: Plan, n: string)
    requires ValidPlan(services, plan) && Known(services, plan.slugs, plan.names) && n in plan.names
    requires AddonKind(services[n]).Some?
    ensures HoldsAddon(DocOf(services, projectName, plan), plan.slugs[n], AddonKind(services[n]).value)
  {
    var d := AddonOf(services[n], plan.slugs[n])[0];
    AddonOrigin(services, plan.slugs, plan.names, d);
    assert MakesAddon(services, plan.slugs, n, d);
  }

  /**
   Each compose service, its texts interpolated, becomes an addon under its slug if it has no build and its image is
   a datastore's, and otherwise a service under its slug that runs the same image, arguments and variables; every
   reference among their values resolves.
   */
  lemma ConversionIntegrity(proj: Project, projectName: string, plan: Plan, n: string)
    requires ValidPlan(ResolveProject(proj), plan) && Known(ResolveProject(proj), plan.slugs, plan.names)
    requires n in proj
    ensures Interpolates(proj[n], ResolveProject(proj)[n])
    ensures var svc, doc := ResolveProject(proj)[n], DocOf(ResolveProject(proj), projectName, plan);
            if svc.build.None? && ClassifyDatastore(svc.image).Some?
            then HoldsAddon(doc, plan.slugs[n], ClassifyDatastore(svc.image).value)
            else HoldsService(doc, plan.slugs[n], svc, plan.addons)
  {
    var services := ResolveProject(proj);
    assert n in ToSet(plan.names);
    ResolvedInterpolates(proj[n]);
    if IsApp(services[n]) {
      AppHeld(services, projectName, plan, n);
    } else {
      AddonHeld(services, projectName, plan, n);
    }
  }

  /** The document is named as its project is, where that is a name kuso can use, and by a usable one anyway. */
  lemma ProjectNamed(services: Project, projectName: string, plan: Plan)
    requires Known(services, plan.slugs, plan.names)
    ensures Normal(DocOf(services, projectName, plan).project)
    ensures Normal(projectName) ==> DocOf(services, projectName, plan).project == projectName
  {
    SlugNormal(projectName);
    SlugFixed(projectName);
  }
}
