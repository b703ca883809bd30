/** The conversion read from end to end: what a compose text turns into in the document and in the report. */
module ConvertRead {
  import opened Wrappers
  import opened Lists
  import opened Sorting
  import opened Strings
  import opened Interp
  import opened Classify
  import opened EnvRef
  import opened Convert
  import opened ConvertProps
  import opened EnvRead
  import UrlRead

  // ----- references -----

  /** The addon that the compose service m becomes. */
  ghost predicate AddonOfService(services: Project, plan: Plan, m: string, a: AddonRef) {
    && m in services && m in plan.slugs && services[m].build.None?
    && a.composeName == m && a.slug == plan.slugs[m]
    && ClassifyDatastore(services[m].image).Some? && a.kind == ClassifyDatastore(services[m].image).value.kind
    && CredsRead(CredEnv(a.kind), services[m].environment, a.creds)
  }

  /** The addons a value can refer to are those of the datastores, in ascending order of their compose names. */
  lemma PlanAddonsExact(services: Project, plan: Plan)
    requires ValidPlan(services, plan)
    ensures forall a :: a in plan.addons ==> AddonOfService(services, plan, a.composeName, a)
    ensures forall m | m in services && services[m].build.None? && ClassifyDatastore(services[m].image).Some? ::
              exists a :: a in plan.addons && a.composeName == m
    ensures forall i, j | 0 <= i < j < |plan.addons| :: Less(plan.addons[i].composeName, plan.addons[j].composeName)
  {
    forall a | a in plan.addons ensures AddonOfService(services, plan, a.composeName, a) {
      var n :| n in plan.refs && plan.refs[n] == a;
      assert RefOf(n, services[n], plan.slugs[n], a);
    }
    forall m | m in services && services[m].build.None? && ClassifyDatastore(services[m].image).Some?
      ensures exists a :: a in plan.addons && a.composeName == m
    {
      assert m in plan.refs && RefOf(m, services[m], plan.slugs[m], plan.refs[m]);
      assert plan.refs[m] in plan.addons;
    }
    forall i, j | 0 <= i < j < |plan.addons|
      ensures Less(plan.addons[i].composeName, plan.addons[j].composeName)
    {
      var x, y := plan.addons[i], plan.addons[j];
      assert ComposeName(x) != ComposeName(y) && !Less(ComposeName(y), ComposeName(x));
      LessOrders(ComposeName(x), ComposeName(y), ComposeName(x));
    }
  }

  /**
   A variable whose value is a URL, under a name that says URL or nothing, ends up as a reference to the first addon
   among its hosts, by the key of that name where the addon's secret has it and else by the addon's URL key; with no
   addon among its hosts it keeps its text.
   */
  lemma UrlRewired(services: Project, plan: Plan, k: string, v: string, scheme: string, user: string,
                   hosts: seq<UrlRead.HostPort>, tail: string, i: nat, out: string)
    requires ValidPlan(services, plan) && NamedLikeServices(plan.addons)
    requires RoleOf(k).role == None || RoleOf(k).role == Some(Url)
    requires IsUrl(v, scheme, user, hosts, tail) && UrlRead.AllLegible(hosts) && AllAscii(hosts)
    requires IsFirst(plan.addons, a => AmongHosts(hosts, a), i) && RunsVariable(k, Some(v), plan.addons, out)
    ensures i == |plan.addons| ==> out == v
    ensures i < |plan.addons| ==>
              var a, up := plan.addons[i], ToUpper(k);
              out == "${{ " + a.slug + "." + (if UrlAlias(a.kind, up) then up else UrlKey(a.kind)) + " }}"
  {
    AddonsValid(services, plan);
    UrlReferenced(k, v, scheme, user, hosts, tail, plan.addons, i);
  }

  // ----- credentials -----

  predicate SetsUser(kind: Kind, variable: string) {
    match kind
    case Postgres => variable == "POSTGRES_USER" || variable == "POSTGRESQL_USERNAME"
    case Mongodb => variable == "MONGO_INITDB_ROOT_USERNAME"
    case Mysql => variable == "MYSQL_USER"
    case Clickhouse => variable == "CLICKHOUSE_USER"
    case Rabbitmq => variable == "RABBITMQ_DEFAULT_USER"
    case _ => false
  }

  predicate SetsPassword(kind: Kind, variable: string) {
    match kind
    case Postgres => variable == "POSTGRES_PASSWORD" || variable == "POSTGRESQL_PASSWORD"
    case Redis => variable == "REDIS_PASSWORD"
    case Valkey => variable == "VALKEY_PASSWORD" || variable == "REDIS_PASSWORD"
    case Mongodb => variable == "MONGO_INITDB_ROOT_PASSWORD"
    case Mysql => variable == "MYSQL_PASSWORD"
    case Clickhouse => variable == "CLICKHOUSE_PASSWORD"
    case Rabbitmq => variable == "RABBITMQ_DEFAULT_PASS"
    case _ => false
  }

  predicate SetsDb(kind: Kind, variable: string) {
    match kind
    case Postgres => variable == "POSTGRES_DB" || variable == "POSTGRESQL_DATABASE"
    case Mongodb => variable == "MONGO_INITDB_DATABASE"
    case Mysql => variable == "MYSQL_DATABASE"
    case Clickhouse => variable == "CLICKHOUSE_DB"
    case _ => false
  }

  /** The variables with which a datastore's image is given each credential. */
  predicate Initialises(kind: Kind, variable: string, role: Role) {
    match role
    case User => SetsUser(kind, variable)
    case Password => SetsPassword(kind, variable)
    case Db => SetsDb(kind, variable)
    case _ => false
  }

  lemma CredEnvExact(kind: Kind, variable: string, role: Role)
    ensures variable in CredEnv(kind) && CredEnv(kind)[variable] == role <==> Initialises(kind, variable, role)
  {
  }

  /** A datastore's variable sets the credential to this value. */
  predicate Sets(kind: Kind, env: Values, variable: string, role: Role, v: string) {
    Initialises(kind, variable, role) && variable in env && env[variable] == Some(v) && |v| > 0
  }

  /** What is known of a datastore's credentials are values its variables give them, and one for each that is given. */
  lemma CredsExact(kind: Kind, env: Values, creds: map<Role, string>)
    requires CredsRead(CredEnv(kind), env, creds)
    ensures forall role | role in creds :: exists k :: Sets(kind, env, k, role, creds[role])
    ensures forall k, role, v | Sets(kind, env, k, role, v) :: role in creds
  {
    forall k, role, v ensures Declares(CredEnv(kind), env, k, role, v) <==> Sets(kind, env, k, role, v) {
      CredEnvExact(kind, k, role);
    }
    forall role | role in creds ensures exists k :: Sets(kind, env, k, role, creds[role]) {
      var k :| Declares(CredEnv(kind), env, k, role, creds[role]);
      assert Sets(kind, env, k, role, creds[role]);
    }
  }

  // ----- the report -----

  /** The record names a text of the service that interpolation leaves unresolved, and exactly what it lacks. */
  ghost predicate RecordsText(svc: ServiceConfig, u: Unresolved) {
    && u.vars != []
    && match u.what
       case ImageText => u.vars == Interpolated(svc.image).unresolved
       case CommandText => exists i :: 0 <= i < |svc.command| && Interpolated(svc.command[i]).unresolved == u.vars
       case EntrypointText =>
         exists i :: 0 <= i < |svc.entrypoint| && Interpolated(svc.entrypoint[i]).unresolved == u.vars
       case BuildArg(k) => svc.build.Some? && LacksIn(svc.build.value.args, k, u.vars)
       case Env(k) => LacksIn(svc.environment, k, u.vars)
       case NoValue(_) => false
  }

  predicate LacksIn(values: Values, k: string, vars: seq<string>) {
    k in values && values[k].Some? && Interpolated(values[k].value).unresolved == vars
  }

  lemma {:induction false} ListRecorded(name: string, what: What, list: seq<string>, u: Unresolved)
    ensures u in ListRecords(name, what, list)
       <==> u.service == name && u.what == what && u.vars != []
            && exists i :: 0 <= i < |list| && Interpolated(list[i]).unresolved == u.vars
    decreases |list|
  {
    if list != [] {
      var init, n := list[..|list| - 1], |list| - 1;
      ListRecorded(name, what, init, u);
      if i :| 0 <= i < |list| && Interpolated(list[i]).unresolved == u.vars {
        assert i < n ==> init[i] == list[i];
      }
      if i :| 0 <= i < |init| && Interpolated(init[i]).unresolved == u.vars {
        assert list[i] == init[i];
      }
    }
  }

  lemma TextRecorded(name: string, what: What, val: string, u: Unresolved)
    ensures u in TextVars(name, what, val)
       <==> u.service == name && u.what == what && u.vars != [] && u.vars == Interpolated(val).unresolved
  {
  }

  lemma ValuesRecorded(name: string, what: string -> What, values: Values, u: Unresolved)
    ensures u in ValueVars(name, what, values, values.Keys)
       <==> u.service == name && u.vars != [] && exists k :: u.what == what(k) && LacksIn(values, k, u.vars)
  {
    forall k | k in values && values[k].Some? ensures u in TextVars(name, what(k), values[k].value)
        <==> u.service == name && u.what == what(k) && u.vars != [] && LacksIn(values, k, u.vars)
    {
      TextRecorded(name, what(k), values[k].value, u);
    }
  }

  lemma ArgsRecorded(name: string, values: Values, u: Unresolved)
    ensures u in ValueVars(name, k => BuildArg(k), values, values.Keys)
       <==> u.service == name && u.vars != [] && u.what.BuildArg? && LacksIn(values, u.what.key, u.vars)
  {
    var what: string -> What := k => BuildArg(k);
    ValuesRecorded(name, what, values, u);
    assert forall k :: what(k) == BuildArg(k);
    assert u.what.BuildArg? ==> u.what == what(u.what.key);
  }

  lemma EnvRecorded(name: string, values: Values, u: Unresolved)
    ensures u in ValueVars(name, k => Env(k), values, values.Keys)
       <==> u.service == name && u.vars != [] && u.what.Env? && LacksIn(values, u.what.key, u.vars)
  {
    var what: string -> What := k => Env(k);
    ValuesRecorded(name, what, values, u);
    assert forall k :: what(k) == Env(k);
    assert u.what.Env? ==> u.what == what(u.what.key);
  }

  /** Resolving a service records exactly its unresolved texts, each by its place. */
  lemma RecordsExact(name: string, svc: ServiceConfig, u: Unresolved)
    ensures u in ResolveVars(name, svc) <==> u.service == name && RecordsText(svc, u)
  {
    ListRecorded(name, CommandText, svc.command, u);
    ListRecorded(name, EntrypointText, svc.entrypoint, u);
    if svc.build.Some? {
      ArgsRecorded(name, svc.build.value.args, u);
    }
    EnvRecorded(name, svc.environment, u);
  }

  /** Converting an app records exactly its variables without a value. */
  lemma AbsentExact(name: string, svc: ServiceConfig, u: Unresolved)
    ensures u in AppVars(name, svc)
       <==> && !(svc.build.None? && ClassifyDatastore(svc.image).Some?)
            && u.service == name && u.vars == [] && u.what.NoValue?
            && u.what.key in svc.environment && svc.environment[u.what.key] == None
  {
  }

  predicate NoRepeats(list: seq<string>) {
    forall i, j | 0 <= i < j < |list| :: list[i] != list[j]
  }

  /** Noting paths keeps the list as it was, adds them behind it, and repeats none. */
  lemma {:induction false} NotedOnce(list: seq<string>, paths: seq<string>)
    requires NoRepeats(list)
    ensures list <= Noted(list, paths) && NoRepeats(Noted(list, paths))
    decreases |paths|
  {
    if paths != [] {
      NotedOnce(list, paths[..|paths| - 1]);
    }
  }
}
