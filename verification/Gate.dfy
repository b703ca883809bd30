/**
 cli/cmd/kusoCli/import.go: composeApplyGates, the checks between a conversion and its
 being applied.
 */
module Gate {
  import opened Wrappers
  import opened Lists
  import opened Interp
  import opened EnvRef
  import opened Convert
  import opened ConvertProps

  datatype Allow = Allow(emptyAddons: bool, missingEnvFiles: bool, unresolvedEnv: bool)

  datatype Refusal =
    | EmptyAddons(addons: seq<Addon>)
    | MissingEnvFiles(paths: seq<string>)
    | UnresolvedValues(values: seq<Unresolved>)

  function ComposeApplyGates(doc: Doc, envFiles: seq<string>, vars: seq<Unresolved>, allow: Allow): Option<Refusal> {
    if doc.addons != [] && !allow.emptyAddons then Some(EmptyAddons(doc.addons))
    else if envFiles != [] && !allow.missingEnvFiles then Some(MissingEnvFiles(envFiles))
    else if vars != [] && !allow.unresolvedEnv then Some(UnresolvedValues(vars))
    else None
  }

  predicate FullText(text: string) {
    Interpolated(text).unresolved == []
  }

  predicate AllFull(list: seq<string>) {
    forall i | 0 <= i < |list| :: FullText(list[i])
  }

  /** No value of the service depends on anything but the compose file; build arguments may still be absent. */
  ghost predicate SelfContained(svc: ServiceConfig) {
    && FullText(svc.image)
    && AllFull(svc.command)
    && AllFull(svc.entrypoint)
    && (svc.build.Some? ==> forall k | k in svc.build.value.args && svc.build.value.args[k].Some? ::
                              FullText(svc.build.value.args[k].value))
    && (forall k | k in svc.environment && svc.environment[k].Some? :: FullText(svc.environment[k].value))
  }

  lemma TextRecordsEmpty(name: string, what: What, text: string)
    ensures TextRecords(name, what, text) == [] <==> FullText(text)
  {
  }

  lemma AllFullLast(list: seq<string>)
    requires list != []
    ensures AllFull(list) <==> AllFull(list[..|list| - 1]) && FullText(list[|list| - 1])
  {
    assert forall i | 0 <= i < |list| - 1 :: list[..|list| - 1][i] == list[i];
  }

  lemma {:induction false} ListRecordsEmpty(name: string, what: What, list: seq<string>)
    ensures ListRecords(name, what, list) == [] <==> AllFull(list)
    decreases |list|
  {
    if list != [] {
      var init, last := list[..|list| - 1], list[|list| - 1];
      AllFullLast(list);
      ListRecordsEmpty(name, what, init);
      TextRecordsEmpty(name, what, last);
      BothEmpty(ListRecords(name, what, init), TextRecords(name, what, last));
    }
  }

  lemma ListVarsEmpty(name: string, what: What, list: seq<string>)
    ensures ListVars(name, what, list) == {} <==> AllFull(list)
  {
    ListRecordsEmpty(name, what, list);
    EmptyLists(ListRecords(name, what, list));
  }

  lemma ValueVarsEmpty(name: string, what: string -> What, values: Values)
    ensures ValueVars(name, what, values, values.Keys) == {}
       <==> forall k | k in values && values[k].Some? :: FullText(values[k].value)
  {
    forall k | k in values && values[k].Some? && !FullText(values[k].value)
      ensures ValueVars(name, what, values, values.Keys) != {}
    {
      var u := Unresolved(name, what(k), Interpolated(values[k].value).unresolved);
      assert u in TextVars(name, what(k), values[k].value);
      assert u in ValueVars(name, what, values, values.Keys);
    }
  }

  /** Resolving a service records nothing exactly when the service is self-contained. */
  lemma ResolveVarsEmpty(name: string, svc: ServiceConfig)
    ensures ResolveVars(name, svc) == {} <==> SelfContained(svc)
  {
    ListVarsEmpty(name, CommandText, svc.command);
    ListVarsEmpty(name, EntrypointText, svc.entrypoint);
    if svc.build.Some? {
      ValueVarsEmpty(name, k => BuildArg(k), svc.build.value.args);
    }
    ValueVarsEmpty(name, k => Env(k), svc.environment);
    EmptyLists(TextRecords(name, ImageText, svc.image));
  }

  lemma MissingEmpty(name: string, env: Values)
    ensures MissingValues(name, env, env.Keys) == {} <==> forall k | k in env :: env[k].Some?
  {
    forall k | k in env && env[k].None?
      ensures Unresolved(name, NoValue(k), []) in MissingValues(name, env, env.Keys)
    {
    }
  }

  lemma ResolvingEmpty(proj: Project)
    ensures ResolvingVars(proj, proj.Keys) == {} <==> forall n | n in proj :: ResolveVars(n, proj[n]) == {}
  {
    forall n, u | n in proj && u in ResolveVars(n, proj[n]) ensures u in ResolvingVars(proj, proj.Keys) {}
  }

  lemma ConvertingEmpty(services: Project)
    ensures ConvertingVars(services, services.Keys) == {} <==> forall n | n in services :: AppVars(n, services[n]) == {}
    ensures EnvFilesOf(services, services.Keys) == {} <==> forall n | n in services :: AppFiles(services[n]) == {}
  {
    forall n, u | n in services && u in AppVars(n, services[n]) ensures u in ConvertingVars(services, services.Keys) {}
    forall n, f | n in services && f in AppFiles(services[n]) ensures f in EnvFilesOf(services, services.Keys) {}
  }

  /** Everything the gate is there to catch is absent from the compose service. */
  ghost predicate Applicable(svc: ServiceConfig) {
    && IsApp(Resolved(svc))
    && svc.envFiles == []
    && SelfContained(svc)
    && (forall k | k in svc.environment :: svc.environment[k].Some?)
  }

  lemma BothEmpty<T>(a: seq<T>, b: seq<T>)
    ensures a + b == [] <==> a == [] && b == []
  {
    assert |a + b| == |a| + |b|;
  }

  lemma AddonOfEmpty(svc: ServiceConfig, slug: string)
    ensures AddonOf(svc, slug) == [] <==> IsApp(svc)
  {
  }

  lemma {:induction false} NoAddonDocs(services: Project, slugs: map<string, string>, names: seq<string>)
    requires Known(services, slugs, names)
    ensures AddonDocs(services, slugs, names) == [] <==> forall n | n in names :: IsApp(services[n])
    decreases |names|
  {
    if names != [] {
      var init, n := names[..|names| - 1], names[|names| - 1];
      LastMember(names);
      NoAddonDocs(services, slugs, init);
      AddonOfEmpty(services[n], slugs[n]);
      BothEmpty(AddonDocs(services, slugs, init), AddonOf(services[n], slugs[n]));
    }
  }

  lemma EmptyLists<T>(list: seq<T>)
    ensures list == [] <==> ToSet(list) == {}
  {
    if list != [] {
      assert list[0] in ToSet(list);
    }
  }

  lemma SameNames(services: Project, plan: Plan)
    requires ValidPlan(services, plan)
    ensures forall n :: n in plan.names <==> n in services
  {
    forall n ensures n in plan.names <==> n in services {
      assert n in plan.names <==> n in ToSet(plan.names);
    }
  }

  /** The gate refuses by the first of its three lists that holds something and is not allowed to, and names it. */
  lemma GateOutcome(doc: Doc, envFiles: seq<string>, vars: seq<Unresolved>, allow: Allow)
    ensures var r := ComposeApplyGates(doc, envFiles, vars, allow);
            var addonsPass, filesPass, varsPass := ToSet(doc.addons) == {} || allow.emptyAddons,
                ToSet(envFiles) == {} || allow.missingEnvFiles, ToSet(vars) == {} || allow.unresolvedEnv;
            && (r.None? <==> addonsPass && filesPass && varsPass)
            && (!addonsPass ==> r == Some(EmptyAddons(doc.addons)))
            && (addonsPass && !filesPass ==> r == Some(MissingEnvFiles(envFiles)))
            && (addonsPass && filesPass && !varsPass ==> r == Some(UnresolvedValues(vars)))
  {
    EmptyLists(doc.addons);
    EmptyLists(vars);
    EmptyLists(envFiles);
  }

  /** The service gives the gate nothing to refuse that is not allowed. */
  ghost predicate Passes(svc: ServiceConfig, allow: Allow) {
    && (IsApp(Resolved(svc)) || allow.emptyAddons)
    && (IsApp(Resolved(svc)) && svc.envFiles != [] ==> allow.missingEnvFiles)
    && (SelfContained(svc) || allow.unresolvedEnv)
    && (IsApp(Resolved(svc)) && (exists k | k in svc.environment :: svc.environment[k].None?) ==> allow.unresolvedEnv)
  }

  /** With nothing allowed, the service has to be applicable as it is. */
  lemma NothingAllowed(svc: ServiceConfig)
    ensures Passes(svc, Allow(false, false, false)) <==> Applicable(svc)
  {
  }

  /** Such a service contributes nothing to the three lists the gate looks at. */
  lemma ApplicableAt(n: string, svc: ServiceConfig)
    ensures Applicable(svc)
       <==> && IsApp(Resolved(svc)) && ResolveVars(n, svc) == {}
            && AppVars(n, Resolved(svc)) == {} && AppFiles(Resolved(svc)) == {}
  {
    NothingAllowed(svc);
    PassesAt(n, svc, Allow(false, false, false));
  }

  lemma AllPass(proj: Project, allow: Allow)
    ensures (forall n | n in proj :: Passes(proj[n], allow))
       <==> var services := ResolveProject(proj);
            && ((forall n | n in services :: IsApp(services[n])) || allow.emptyAddons)
            && (EnvFilesOf(services, proj.Keys) == {} || allow.missingEnvFiles)
            && ((ResolvingVars(proj, proj.Keys) == {} && ConvertingVars(services, proj.Keys) == {})
                || allow.unresolvedEnv)
  {
    var services := ResolveProject(proj);
    ResolvingEmpty(proj);
    ConvertingEmpty(services);
    forall n | n in proj
      ensures Passes(proj[n], allow)
         <==> && (IsApp(services[n]) || allow.emptyAddons) && (AppFiles(services[n]) == {} || allow.missingEnvFiles)
              && ((ResolveVars(n, proj[n]) == {} && AppVars(n, services[n]) == {}) || allow.unresolvedEnv)
    {
      PassesAt(n, proj[n], allow);
    }
  }

  lemma AllApplicable(proj: Project)
    ensures (forall n | n in proj :: Applicable(proj[n]))
       <==> var services := ResolveProject(proj);
            && (forall n | n in services :: IsApp(services[n]))
            && ResolvingVars(proj, proj.Keys) == {}
            && ConvertingVars(services, proj.Keys) == {}
            && EnvFilesOf(services, proj.Keys) == {}
  {
    AllPass(proj, Allow(false, false, false));
    forall n | n in proj ensures Passes(proj[n], Allow(false, false, false)) <==> Applicable(proj[n]) {
      NothingAllowed(proj[n]);
    }
  }

  lemma PassesAt(n: string, svc: ServiceConfig, allow: Allow)
    ensures Passes(svc, allow)
       <==> && (IsApp(Resolved(svc)) || allow.emptyAddons)
            && (AppFiles(Resolved(svc)) == {} || allow.missingEnvFiles)
            && ((ResolveVars(n, svc) == {} && AppVars(n, Resolved(svc)) == {}) || allow.unresolvedEnv)
  {
    var r := Resolved(svc);
    ResolveVarsEmpty(n, svc);
    MissingEmpty(n, r.environment);
    assert r.environment.Keys == svc.environment.Keys;
    assert forall k | k in svc.environment :: r.environment[k].Some? <==> svc.environment[k].Some?;
    assert r.envFiles == svc.envFiles;
    EmptyLists(svc.envFiles);
  }

  lemma DocWithoutAddons(services: Project, projectName: string, plan: Plan)
    requires ValidPlan(services, plan) && Known(services, plan.slugs, plan.names)
    ensures ToSet(DocOf(services, projectName, plan).addons) == {} <==> forall n | n in services :: IsApp(services[n])
  {
    SameNames(services, plan);
    NoAddonDocs(services, plan.slugs, plan.names);
    EmptyLists(DocOf(services, projectName, plan).addons);
  }

  lemma GatePasses(proj: Project, doc: Doc, envFiles: seq<string>, vars: seq<Unresolved>, allow: Allow)
    requires ToSet(doc.addons) == {} <==> forall n | n in proj :: IsApp(Resolved(proj[n]))
    requires ToSet(vars) == ResolvingVars(proj, proj.Keys) + ConvertingVars(ResolveProject(proj), proj.Keys)
    requires ToSet(envFiles) == EnvFilesOf(ResolveProject(proj), proj.Keys)
    ensures ComposeApplyGates(doc, envFiles, vars, allow).None? <==> forall n | n in proj :: Passes(proj[n], allow)
  {
    GateOutcome(doc, envFiles, vars, allow);
    AllPass(proj, allow);
  }

  /**
   The gate lets a conversion through exactly when each compose service stays a service, names no env_file, leaves
   no variable to the host and is self-contained, as far as that is not overridden.
   */
  lemma GateExact(proj: Project, projectName: string, plan: Plan, envFiles: seq<string>, vars: seq<Unresolved>,
                  allow: Allow)
    requires ValidPlan(ResolveProject(proj), plan) && Known(ResolveProject(proj), plan.slugs, plan.names)
    requires Reported(vars, ResolvingVars(proj, proj.Keys), ConvertingRecords(ResolveProject(proj), plan.names))
    requires envFiles == ConvertingPaths([], ResolveProject(proj), plan.names)
    ensures var doc := DocOf(ResolveProject(proj), projectName, plan);
            ComposeApplyGates(doc, envFiles, vars, allow).None? <==> forall n | n in proj :: Passes(proj[n], allow)
  {
    var services := ResolveProject(proj);
    DocWithoutAddons(services, projectName, plan);
    SameNames(services, plan);
    ReportedSets(proj, services, plan.names, vars);
    assert forall n | n in proj :: services[n] == Resolved(proj[n]);
    GatePasses(proj, DocOf(services, projectName, plan), envFiles, vars, allow);
  }

  lemma NoReferences(services: Project, plan: Plan)
    requires ValidPlan(services, plan) && forall n | n in services :: IsApp(services[n])
    ensures plan.addons == []
  {
    EmptyLists(plan.addons);
    assert forall a :: a !in plan.addons;
    assert ToSet(plan.addons) == {};
  }

  /** What passes the gate deploys each variable as the interpolation of its compose value, and no addon at all. */
  lemma GatePassed(proj: Project, projectName: string, plan: Plan, n: string)
    requires ValidPlan(ResolveProject(proj), plan) && Known(ResolveProject(proj), plan.slugs, plan.names)
    requires n in proj && forall m | m in proj :: Applicable(proj[m])
    ensures DocOf(ResolveProject(proj), projectName, plan).addons == []
    ensures ServiceOf(Resolved(proj[n]), plan.slugs[n], plan.addons)
         in DocOf(ResolveProject(proj), projectName, plan).services
    ensures ServiceOf(Resolved(proj[n]), plan.slugs[n], plan.addons).env
         == map k | k in proj[n].environment :: Interpolated(proj[n].environment[k].GetOr("")).out
  {
    var services := ResolveProject(proj);
    assert forall m | m in proj :: services[m] == Resolved(proj[m]);
    SameNames(services, plan);
    NoAddonDocs(services, plan.slugs, plan.names);
    NoReferences(services, plan);
    var s := ServiceOf(services[n], plan.slugs[n], plan.addons);
    ServiceOrigin(services, plan.slugs, plan.addons, plan.names, s);
    assert MakesService(services, plan.slugs, plan.addons, n, s);
    PlainEnv(proj[n]);
  }

  /** Without addons to refer to, a complete environment converts to the interpolation of its values. */
  lemma PlainEnv(svc: ServiceConfig)
    requires forall k | k in svc.environment :: svc.environment[k].Some?
    ensures EnvOf(Resolved(svc).environment, [])
         == map k | k in svc.environment :: Interpolated(svc.environment[k].GetOr("")).out
  {
    var env := Resolved(svc).environment;
    forall k | k in svc.environment
      ensures EnvValue(k, env[k], []) == Interpolated(svc.environment[k].GetOr("")).out
    {
      assert env[k] == Some(Interpolated(svc.environment[k].value).out);
      assert ChooseAddonEnv(k, env[k].value, []) == NoMatch;
    }
  }
}
