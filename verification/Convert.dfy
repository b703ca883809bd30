/**
 compose/convert.go, with resolveService (compose/interp.go) and the Report it fills
 (compose/report.go): a compose project becomes services and managed addons.
 */
module Convert {
  import opened Wrappers
  import opened Lists
  import opened Sorting
  import opened Slug
  import opened SlugAlloc
  import opened Interp
  import opened Classify
  import opened EnvRef

  /** A value of None is one the compose file leaves to the host's environment. */
  type Values = map<string, Option<string>>

  datatype Build = Build(context: string, args: Values)

  datatype ServiceConfig = ServiceConfig(image: string, command: seq<string>, entrypoint: seq<string>,
                                         build: Option<Build>, environment: Values, envFiles: seq<string>)

  type Project = map<string, ServiceConfig>

  datatype Runtime = FromDockerfile | FromImage

  datatype Service = Service(name: string, runtime: Runtime, image: Option<ImageRef>, command: seq<string>,
                             env: map<string, string>, buildArgs: map<string, string>)

  datatype Addon = Addon(name: string, kind: Kind, version: string)

  datatype Doc = Doc(project: string, services: seq<Service>, addons: seq<Addon>)

  // ----- the report -----

  datatype What =
    | ImageText | CommandText | EntrypointText | BuildArg(key: string) | Env(key: string) | NoValue(key: string)

  /** A value that still depends on the importer's environment, and the names it depends on. */
  datatype Unresolved = Unresolved(service: string, what: What, vars: seq<string>)

  class Report {
    var unresolvedEnvFiles: seq<string>
    var unresolvedVars: seq<Unresolved>

    constructor ()
      ensures unresolvedEnvFiles == [] && unresolvedVars == []
    {
      unresolvedEnvFiles, unresolvedVars := [], [];
    }

    method UnresolvedVar(u: Unresolved)
      modifies this`unresolvedVars
      ensures unresolvedVars == old(unresolvedVars) + [u]
    {
      unresolvedVars := unresolvedVars + [u];
    }

    /** A path already recorded is not recorded again. */
    method UnresolvedEnvFile(path: string)
      modifies this`unresolvedEnvFiles
      ensures unresolvedEnvFiles
           == old(unresolvedEnvFiles) + if path in old(unresolvedEnvFiles) then [] else [path]
    {
      for i := 0 to |unresolvedEnvFiles|
        invariant unresolvedEnvFiles == old(unresolvedEnvFiles)
        invariant path !in unresolvedEnvFiles[..i]
      {
        if unresolvedEnvFiles[i] == path {
          return;
        }
      }
      assert unresolvedEnvFiles[..|unresolvedEnvFiles|] == unresolvedEnvFiles;
      unresolvedEnvFiles := unresolvedEnvFiles + [path];
    }
  }

  // ----- resolveService -----

  /** The record of one value, if something in it stays unresolved. */
  function TextRecords(name: string, what: What, val: string): seq<Unresolved> {
    var vars := Interpolated(val).unresolved;
    if vars == [] then [] else [Unresolved(name, what, vars)]
  }

  function ListRecords(name: string, what: What, list: seq<string>): seq<Unresolved> {
    if list == [] then []
    else ListRecords(name, what, list[..|list| - 1]) + TextRecords(name, what, list[|list| - 1])
  }

  function TextVars(name: string, what: What, val: string): set<Unresolved> {
    ToSet(TextRecords(name, what, val))
  }

  function ListVars(name: string, what: What, list: seq<string>): set<Unresolved> {
    ToSet(ListRecords(name, what, list))
  }

  function ValueVars(name: string, what: string -> What, values: Values, keys: set<string>): set<Unresolved>
    requires keys <= values.Keys
  {
    set k, u | k in keys && values[k].Some? && u in TextVars(name, what(k), values[k].value) :: u
  }

  function ResolvedList(list: seq<string>): seq<string> {
    seq(|list|, i requires 0 <= i < |list| => Interpolated(list[i]).out)
  }

  function ResolvedValue(v: Option<string>): Option<string> {
    match v
    case None => None
    case Some(text) => Some(Interpolated(text).out)
  }

  function ResolvedValues(values: Values): Values {
    map k | k in values :: ResolvedValue(values[k])
  }

  function Resolved(svc: ServiceConfig): ServiceConfig {
    svc.(image := Interpolated(svc.image).out,
         command := ResolvedList(svc.command),
         entrypoint := ResolvedList(svc.entrypoint),
         build := if svc.build.Some? then Some(svc.build.value.(args := ResolvedValues(svc.build.value.args)))
                  else None,
         environment := ResolvedValues(svc.environment))
  }

  function ArgVars(name: string, svc: ServiceConfig): set<Unresolved> {
    if svc.build.Some? then ValueVars(name, k => BuildArg(k), svc.build.value.args, svc.build.value.args.Keys) else {}
  }

  function ResolveVars(name: string, svc: ServiceConfig): set<Unresolved> {
    TextVars(name, ImageText, svc.image) + ListVars(name, CommandText, svc.command)
    + ListVars(name, EntrypointText, svc.entrypoint) + ArgVars(name, svc)
    + ValueVars(name, k => Env(k), svc.environment, svc.environment.Keys)
  }

  method ResolveText(name: string, what: What, val: string, rep: Report) returns (out: string)
    modifies rep`unresolvedVars
    ensures out == Interpolated(val).out
    ensures rep.unresolvedVars == old(rep.unresolvedVars) + TextRecords(name, what, val)
  {
    var r := Interpolate(val);
    if r.unresolved != [] {
      rep.UnresolvedVar(Unresolved(name, what, r.unresolved));
    }
    out := r.out;
  }

  lemma ListStep(name: string, what: What, list: seq<string>, i: nat)
    requires i < |list|
    ensures ResolvedList(list[..i + 1]) == ResolvedList(list[..i]) + [Interpolated(list[i]).out]
    ensures ListRecords(name, what, list[..i + 1])
         == ListRecords(name, what, list[..i]) + TextRecords(name, what, list[i])
  {
    assert list[..i + 1][..i] == list[..i];
  }

  method ResolveList(name: string, what: What, list: seq<string>, rep: Report) returns (out: seq<string>)
    modifies rep`unresolvedVars
    ensures out == ResolvedList(list)
    ensures rep.unresolvedVars == old(rep.unresolvedVars) + ListRecords(name, what, list)
  {
    out := [];
    ghost var before := rep.unresolvedVars;
    for i := 0 to |list|
      invariant out == ResolvedList(list[..i])
      invariant rep.unresolvedVars == before + ListRecords(name, what, list[..i])
    {
      var text := ResolveText(name, what, list[i], rep);
      out := out + [text];
      ListStep(name, what, list, i);
      Regroup(before, ListRecords(name, what, list[..i]), TextRecords(name, what, list[i]));
    }
    assert list[..|list|] == list;
  }

  method ResolveValues(name: string, what: string -> What, values: Values, rep: Report) returns (out: Values)
    modifies rep`unresolvedVars
    ensures out == ResolvedValues(values)
    ensures Appended(old(rep.unresolvedVars), rep.unresolvedVars, ValueVars(name, what, values, values.Keys))
  {
    out := map[];
    var todo := values.Keys;
    while todo != {}
      invariant todo <= values.Keys
      invariant out == map k | k in values && k !in todo :: ResolvedValue(values[k])
      invariant Appended(old(rep.unresolvedVars), rep.unresolvedVars, ValueVars(name, what, values, values.Keys - todo))
      decreases todo
    {
      var k :| k in todo;
      ghost var before, done := rep.unresolvedVars, values.Keys - todo;
      ghost var added := ValueVars(name, what, values, {k});
      match values[k] {
        case None =>
          out := out[k := None];
          assert added == {};
        case Some(text) =>
          var r := ResolveText(name, what(k), text, rep);
          AppendedExactly(before, TextRecords(name, what(k), text));
          out := out[k := Some(r)];
          assert added == TextVars(name, what(k), text);
      }
      AppendedTwice(old(rep.unresolvedVars), before, rep.unresolvedVars, ValueVars(name, what, values, done), added);
      todo := todo - {k};
      assert values.Keys - todo == done + {k};
      assert ValueVars(name, what, values, done + {k}) == ValueVars(name, what, values, done) + added;
    }
    assert values.Keys - {} == values.Keys;
  }

  /** What resolving the image, the command and the entrypoint records, in that order. */
  function FixedRecords(name: string, svc: ServiceConfig): seq<Unresolved> {
    TextRecords(name, ImageText, svc.image)
    + (ListRecords(name, CommandText, svc.command) + ListRecords(name, EntrypointText, svc.entrypoint))
  }

  function MapVars(name: string, svc: ServiceConfig): set<Unresolved> {
    ArgVars(name, svc) + ValueVars(name, k => Env(k), svc.environment, svc.environment.Keys)
  }

  lemma AllRecords(name: string, svc: ServiceConfig, before: seq<Unresolved>, now: seq<Unresolved>)
    requires Appended(before + FixedRecords(name, svc), now, MapVars(name, svc))
    ensures Appended(before, now, ResolveVars(name, svc))
  {
    var image, command, entrypoint := TextRecords(name, ImageText, svc.image),
        ListRecords(name, CommandText, svc.command), ListRecords(name, EntrypointText, svc.entrypoint);
    ToSetSum(command, entrypoint);
    ToSetSum(image, command + entrypoint);
    AppendedExactly(before, FixedRecords(name, svc));
    AppendedTwice(before, before + FixedRecords(name, svc), now, ToSet(FixedRecords(name, svc)), MapVars(name, svc));
  }

  method ResolveFixed(name: string, svc: ServiceConfig, rep: Report)
    returns (image: string, command: seq<string>, entrypoint: seq<string>)
    modifies rep`unresolvedVars
    ensures image == Interpolated(svc.image).out
    ensures command == ResolvedList(svc.command) && entrypoint == ResolvedList(svc.entrypoint)
    ensures rep.unresolvedVars == old(rep.unresolvedVars) + FixedRecords(name, svc)
  {
    ghost var before := rep.unresolvedVars;
    image := ResolveText(name, ImageText, svc.image, rep);
    command := ResolveList(name, CommandText, svc.command, rep);
    entrypoint := ResolveList(name, EntrypointText, svc.entrypoint, rep);
    ghost var r0, r1, r2 := TextRecords(name, ImageText, svc.image), ListRecords(name, CommandText, svc.command),
                            ListRecords(name, EntrypointText, svc.entrypoint);
    Regroup(before + r0, r1, r2);
    Regroup(before, r0, r1 + r2);
  }

  method ResolveArgs(name: string, svc: ServiceConfig, rep: Report) returns (build: Option<Build>)
    modifies rep`unresolvedVars
    ensures build == Resolved(svc).build
    ensures Appended(old(rep.unresolvedVars), rep.unresolvedVars, ArgVars(name, svc))
  {
    build := svc.build;
    if svc.build.Some? {
      var args := ResolveValues(name, k => BuildArg(k), svc.build.value.args, rep);
      build := Some(svc.build.value.(args := args));
    }
  }

  /** The records of image, command and entrypoint come first, in order; a map's come in whatever order Go visits it. */
  method ResolveService(name: string, svc: ServiceConfig, rep: Report) returns (out: ServiceConfig)
    modifies rep`unresolvedVars
    ensures out == Resolved(svc)
    ensures Appended(old(rep.unresolvedVars) + FixedRecords(name, svc), rep.unresolvedVars, MapVars(name, svc))
  {
    var image, command, entrypoint := ResolveFixed(name, svc, rep);
    ghost var l0 := rep.unresolvedVars;
    var build := ResolveArgs(name, svc, rep);
    ghost var l1 := rep.unresolvedVars;
    var env := ResolveValues(name, k => Env(k), svc.environment, rep);
    AppendedTwice(l0, l1, rep.unresolvedVars, ArgVars(name, svc),
                  ValueVars(name, k => Env(k), svc.environment, svc.environment.Keys));
    out := svc.(image := image, command := command, entrypoint := entrypoint, build := build, environment := env);
  }

  // ----- addons -----

  function AddonKind(svc: ServiceConfig): Option<Datastore> {
    if svc.build.Some? then None else ClassifyDatastore(svc.image)
  }

  /** The init variables of a datastore image and the credential each one sets. */
  function CredEnv(kind: Kind): (m: map<string, Role>)
    ensures forall k | k in m :: m[k] in {User, Password, Db}
  {
    match kind
    case Postgres =>
      map["POSTGRES_USER" := User, "POSTGRES_PASSWORD" := Password, "POSTGRES_DB" := Db,
          "POSTGRESQL_USERNAME" := User, "POSTGRESQL_PASSWORD" := Password, "POSTGRESQL_DATABASE" := Db]
    case Redis => map["REDIS_PASSWORD" := Password]
    case Valkey => map["VALKEY_PASSWORD" := Password, "REDIS_PASSWORD" := Password]
    case Mongodb =>
      map["MONGO_INITDB_ROOT_USERNAME" := User, "MONGO_INITDB_ROOT_PASSWORD" := Password, "MONGO_INITDB_DATABASE" := Db]
    case Mysql => map["MYSQL_USER" := User, "MYSQL_PASSWORD" := Password, "MYSQL_DATABASE" := Db]
    case Clickhouse => map["CLICKHOUSE_USER" := User, "CLICKHOUSE_PASSWORD" := Password, "CLICKHOUSE_DB" := Db]
    case Rabbitmq => map["RABBITMQ_DEFAULT_USER" := User, "RABBITMQ_DEFAULT_PASS" := Password]
    case _ => map[]
  }

  /** The variable k declares the credential `role` as v. */
  predicate Declares(table: map<string, Role>, env: Values, k: string, role: Role, v: string) {
    k in table && table[k] == role && k in env && env[k] == Some(v) && v != ""
  }

  /**
   Credentials read off a datastore's environment.  Two variables may declare one role; Go's map order
   decides which of them counts, so any of their values is possible.
   */
  ghost predicate CredsRead(table: map<string, Role>, env: Values, creds: map<Role, string>) {
    && (forall role | role in creds :: exists k :: Declares(table, env, k, role, creds[role]))
    && (forall k, role, v | Declares(table, env, k, role, v) :: role in creds)
  }

  method DatastoreCreds(kind: Kind, env: Values) returns (creds: map<Role, string>)
    ensures CredsRead(CredEnv(kind), env, creds)
  {
    creds := map[];
    var table := CredEnv(kind);
    var todo := table.Keys;
    while todo != {}
      invariant todo <= table.Keys
      invariant forall role | role in creds :: exists k :: Declares(table, env, k, role, creds[role])
      invariant forall k, role, v | Declares(table, env, k, role, v) && k !in todo :: role in creds
      decreases todo
    {
      var k :| k in todo;
      if k in env && env[k].Some? && env[k].value != "" {
        assert Declares(table, env, k, table[k], env[k].value);
        creds := creds[table[k] := env[k].value];
      }
      todo := todo - {k};
    }
  }

  // ----- names in order -----

  function Id(s: string): string {
    s
  }

  ghost predicate NamesOf(keys: set<string>, names: seq<string>) {
    ToSet(names) == keys && DistinctKeys(Id, names) && Sorted(Id, names)
  }

  lemma ConsDistinct(k: string, rest: seq<string>)
    requires DistinctKeys(Id, rest) && k !in rest
    ensures DistinctKeys(Id, [k] + rest)
  {
    var list := [k] + rest;
    forall i, j | 0 <= i < j < |list| ensures Id(list[i]) != Id(list[j]) {
      if i > 0 {
        assert Id(rest[i - 1]) != Id(rest[j - 1]);
      }
    }
  }

  lemma InsertMembers(k: string, rest: seq<string>)
    ensures ToSet(Insert(Id, k, rest)) == ToSet(rest) + {k}
  {
    assert multiset([k] + rest) == multiset(Insert(Id, k, rest));
    SameMembers([k] + rest, Insert(Id, k, rest));
  }

  lemma NameInserted(keys: set<string>, k: string, rest: seq<string>)
    requires k in keys && NamesOf(keys - {k}, rest)
    ensures NamesOf(keys, Insert(Id, k, rest))
  {
    assert k !in ToSet(rest);
    ConsDistinct(k, rest);
    assert multiset([k] + rest) == multiset(Insert(Id, k, rest));
    PermutedDistinct(Id, [k] + rest, Insert(Id, k, rest));
    InsertSorted(Id, k, rest);
    InsertMembers(k, rest);
  }

  /** The members of a set of names, sorted: what sorting the keys of a map gives, whatever order they come in. */
  ghost function OrderedKeys(keys: set<string>): (names: seq<string>)
    ensures NamesOf(keys, names)
  {
    if keys == {} then []
    else
      var k :| k in keys;
      var rest := OrderedKeys(keys - {k});
      NameInserted(keys, k, rest);
      Insert(Id, k, rest)
  }

  lemma SameCounts(a: seq<string>, b: seq<string>)
    requires DistinctKeys(Id, a) && DistinctKeys(Id, b) && ToSet(a) == ToSet(b)
    ensures multiset(a) == multiset(b)
  {
    DistinctCountsOne(Id, a);
    DistinctCountsOne(Id, b);
    forall x ensures multiset(a)[x] == multiset(b)[x] {
      assert x in ToSet(a) <==> x in multiset(a);
      assert x in ToSet(b) <==> x in multiset(b);
    }
  }

  lemma OrderedUnique(keys: set<string>, names: seq<string>)
    requires NamesOf(keys, names)
    ensures names == OrderedKeys(keys)
  {
    SameCounts(names, OrderedKeys(keys));
    SortedUnique(Id, names, OrderedKeys(keys));
  }

  method SortedNames(keys: set<string>) returns (names: seq<string>)
    ensures names == OrderedKeys(keys)
  {
    var list: seq<string> := [];
    var todo := keys;
    while todo != {}
      invariant todo <= keys
      invariant forall k :: k in list <==> k in keys && k !in todo
      invariant DistinctKeys(Id, list)
      decreases todo
    {
      var k :| k in todo;
      list := list + [k];
      todo := todo - {k};
    }
    names := SortBy(Id, list);
    SortSorts(Id, list);
    PermutedDistinct(Id, list, names);
    SameMembers(list, names);
    assert ToSet(names) == keys;
    OrderedUnique(keys, names);
  }

  // ----- one service -----

  /** The environment value a variable ends up with: empty, a reference, or its own text. */
  function EnvValue(k: string, v: Option<string>, addons: seq<AddonRef>): string {
    match v
    case None => ""
    case Some(val) =>
      var c := ChooseAddonEnv(k, val, addons);
      if c.Choice? && c.key != "" then RefText(c.addon.slug, c.key) else val
  }

  function EnvOf(env: Values, addons: seq<AddonRef>): map<string, string> {
    map k | k in env :: EnvValue(k, env[k], addons)
  }

  function MissingValues(name: string, env: Values, keys: set<string>): set<Unresolved> {
    set k | k in keys && k in env && env[k].None? :: Unresolved(name, NoValue(k), [])
  }

  function MissingRecord(name: string, env: Values, k: string): seq<Unresolved> {
    if k in env && env[k].None? then [Unresolved(name, NoValue(k), [])] else []
  }

  /** The records of the variables without a value, in key order. */
  function MissingRecords(name: string, env: Values, keys: seq<string>): seq<Unresolved> {
    if keys == [] then []
    else MissingRecords(name, env, keys[..|keys| - 1]) + MissingRecord(name, env, keys[|keys| - 1])
  }

  lemma MissingStep(name: string, env: Values, done: set<string>, k: string)
    ensures MissingValues(name, env, done + {k}) == MissingValues(name, env, done) + ToSet(MissingRecord(name, env, k))
  {
  }

  lemma {:induction false} MissingRecordsSet(name: string, env: Values, keys: seq<string>)
    ensures ToSet(MissingRecords(name, env, keys)) == MissingValues(name, env, ToSet(keys))
    decreases |keys|
  {
    if keys != [] {
      var init, k := keys[..|keys| - 1], keys[|keys| - 1];
      MissingRecordsSet(name, env, init);
      ToSetSum(MissingRecords(name, env, init), MissingRecord(name, env, k));
      MissingStep(name, env, ToSet(init), k);
      ToSetLast(keys);
    }
  }

  /** The path, unless the list already has it. */
  function NewPath(list: seq<string>, path: string): seq<string> {
    if path in list then [] else [path]
  }

  /** The list with the paths noted that it does not hold yet, each once. */
  function Noted(list: seq<string>, paths: seq<string>): seq<string> {
    if paths == [] then list
    else
      var before := Noted(list, paths[..|paths| - 1]);
      before + NewPath(before, paths[|paths| - 1])
  }

  lemma NewPathSet(list: seq<string>, path: string)
    ensures ToSet(list + NewPath(list, path)) == ToSet(list) + {path}
  {
    ToSetSum(list, NewPath(list, path));
    assert path in list ==> path in ToSet(list);
  }

  lemma {:induction false} NotedSet(list: seq<string>, paths: seq<string>)
    ensures ToSet(Noted(list, paths)) == ToSet(list) + ToSet(paths)
    decreases |paths|
  {
    if paths != [] {
      var init := paths[..|paths| - 1];
      NotedSet(list, init);
      NewPathSet(Noted(list, init), paths[|paths| - 1]);
      ToSetLast(paths);
    }
  }

  /** The loop over the variables, in key order, for any way of choosing a value. */
  method ConvertVars(name: string, values: Values, keys: seq<string>, valueOf: (string, Option<string>) -> string,
                     rep: Report) returns (env: map<string, string>)
    requires ToSet(keys) == values.Keys
    modifies rep`unresolvedVars
    ensures env == map k | k in values :: valueOf(k, values[k])
    ensures rep.unresolvedVars == old(rep.unresolvedVars) + MissingRecords(name, values, keys)
  {
    ghost var before := rep.unresolvedVars;
    env := map[];
    for i := 0 to |keys|
      invariant env.Keys == ToSet(keys[..i]) <= values.Keys
      invariant forall k | k in env :: env[k] == valueOf(k, values[k])
      invariant rep.unresolvedVars == before + MissingRecords(name, values, keys[..i])
    {
      var k := keys[i];
      assert k in ToSet(keys);
      env := env[k := valueOf(k, values[k])];
      if values[k].None? {
        rep.UnresolvedVar(Unresolved(name, NoValue(k), []));
      }
      Regroup(before, MissingRecords(name, values, keys[..i]), MissingRecord(name, values, k));
      ToSetPrefix(keys, i);
      assert keys[..i + 1][..i] == keys[..i];
    }
    assert keys[..|keys|] == keys;
  }

  method ConvertEnv(name: string, svc: ServiceConfig, addons: seq<AddonRef>, rep: Report)
    returns (env: map<string, string>)
    modifies rep
    ensures env == EnvOf(svc.environment, addons)
    ensures rep.unresolvedVars
         == old(rep.unresolvedVars) + MissingRecords(name, svc.environment, OrderedKeys(svc.environment.Keys))
    ensures rep.unresolvedEnvFiles == Noted(old(rep.unresolvedEnvFiles), svc.envFiles)
  {
    NoteEnvFiles(svc, rep);
    var keys := SortedNames(svc.environment.Keys);
    env := ConvertVars(name, svc.environment, keys, (k, v) => EnvValue(k, v, addons), rep);
  }

  method NoteEnvFiles(svc: ServiceConfig, rep: Report)
    modifies rep`unresolvedEnvFiles
    ensures rep.unresolvedEnvFiles == Noted(old(rep.unresolvedEnvFiles), svc.envFiles)
  {
    var files := svc.envFiles;
    for i := 0 to |files|
      invariant rep.unresolvedEnvFiles == Noted(old(rep.unresolvedEnvFiles), files[..i])
    {
      rep.UnresolvedEnvFile(files[i]);
      assert files[..i + 1][..i] == files[..i];
    }
    assert files[..|files|] == files;
  }

  /** Arguments without a value are left out. */
  function BuildArgsOf(build: Option<Build>): map<string, string> {
    if build.None? then map[]
    else map k | k in build.value.args && build.value.args[k].Some? :: build.value.args[k].value
  }

  function CommandOf(svc: ServiceConfig): seq<string> {
    if svc.entrypoint != [] then svc.entrypoint + svc.command else svc.command
  }

  function ServiceOf(svc: ServiceConfig, slug: string, addons: seq<AddonRef>): Service {
    var ref := ImageParts(svc.image);
    var fromImage := svc.build.None? && svc.image != "";
    Service(slug,
            if fromImage then FromImage else FromDockerfile,
            if fromImage then Some(ref.(tag := if ref.tag == "" then "latest" else ref.tag)) else None,
            CommandOf(svc), EnvOf(svc.environment, addons), BuildArgsOf(svc.build))
  }

  // ----- the whole project -----

  function ComposeName(a: AddonRef): string {
    a.composeName
  }

  /** Every service of the project, resolved. */
  function ResolveProject(proj: Project): (services: Project)
    ensures services.Keys == proj.Keys
  {
    map n | n in proj :: Resolved(proj[n])
  }

  /** The service names in order, with the slugs and the addons chosen for them. */
  datatype Plan = Plan(names: seq<string>, slugs: map<string, string>, refs: map<string, AddonRef>,
                       addons: seq<AddonRef>)

  /** The addon entry of a service that is classified as one. */
  ghost predicate RefOf(name: string, svc: ServiceConfig, slug: string, a: AddonRef) {
    var d := AddonKind(svc);
    d.Some? && a.slug == slug && a.kind == d.value.kind && a.composeName == name
    && CredsRead(CredEnv(d.value.kind), svc.environment, a.creds)
  }

  ghost predicate RefsOf(services: Project, slugs: map<string, string>, names: set<string>, refs: map<string, AddonRef>)
    requires names <= services.Keys && names <= slugs.Keys
  {
    && (forall n :: n in refs <==> n in names && !IsApp(services[n]))
    && (forall n | n in refs :: RefOf(n, services[n], slugs[n], refs[n]))
  }

  ghost predicate AddonsOf(refs: map<string, AddonRef>, addons: seq<AddonRef>) {
    && Sorted(ComposeName, addons) && DistinctKeys(ComposeName, addons)
    && forall a :: a in addons <==> exists n :: n in refs && refs[n] == a
  }

  ghost predicate ValidPlan(services: Project, plan: Plan) {
    && NamesOf(services.Keys, plan.names)
    && plan.slugs == Assign(SlugOf, plan.names).slugs
    && plan.slugs.Keys == services.Keys
    && RefsOf(services, plan.slugs, services.Keys, plan.refs)
    && AddonsOf(plan.refs, plan.addons)
  }

  predicate IsApp(svc: ServiceConfig) {
    AddonKind(svc).None?
  }

  predicate Known(services: Project, slugs: map<string, string>, names: seq<string>) {
    forall n | n in names :: n in services && n in slugs
  }

  function AddonOf(svc: ServiceConfig, slug: string): seq<Addon> {
    var d := AddonKind(svc);
    if d.Some? then [Addon(slug, d.value.kind, d.value.version)] else []
  }

  function AddonDocs(services: Project, slugs: map<string, string>, names: seq<string>): seq<Addon>
    requires Known(services, slugs, names)
  {
    if names == [] then []
    else
      var n := names[|names| - 1];
      AddonDocs(services, slugs, names[..|names| - 1]) + AddonOf(services[n], slugs[n])
  }

  function AppOf(svc: ServiceConfig, slug: string, addons: seq<AddonRef>): seq<Service> {
    if IsApp(svc) then [ServiceOf(svc, slug, addons)] else []
  }

  function ServiceDocs(services: Project, slugs: map<string, string>, addons: seq<AddonRef>, names: seq<string>)
    : seq<Service>
    requires Known(services, slugs, names)
  {
    if names == [] then []
    else
      var n := names[|names| - 1];
      ServiceDocs(services, slugs, addons, names[..|names| - 1]) + AppOf(services[n], slugs[n], addons)
  }

  function DocOf(services: Project, projectName: string, plan: Plan): Doc
    requires Known(services, plan.slugs, plan.names)
  {
    Doc(SlugOf(projectName),
        ServiceDocs(services, plan.slugs, plan.addons, plan.names),
        AddonDocs(services, plan.slugs, plan.names))
  }

  /** Everything recorded as unresolved: while resolving all services, and while converting the apps. */
  function ResolvingVars(proj: Project, names: set<string>): set<Unresolved>
    requires names <= proj.Keys
  {
    set n, u | n in names && u in ResolveVars(n, proj[n]) :: u
  }

  function AppVars(name: string, svc: ServiceConfig): set<Unresolved> {
    if IsApp(svc) then MissingValues(name, svc.environment, svc.environment.Keys) else {}
  }

  ghost function AppRecords(name: string, svc: ServiceConfig): seq<Unresolved> {
    if IsApp(svc) then MissingRecords(name, svc.environment, OrderedKeys(svc.environment.Keys)) else []
  }

  lemma AppRecordsSet(name: string, svc: ServiceConfig)
    ensures ToSet(AppRecords(name, svc)) == AppVars(name, svc)
  {
    MissingRecordsSet(name, svc.environment, OrderedKeys(svc.environment.Keys));
  }

  /** What converting the apps records, in name order. */
  ghost function ConvertingRecords(services: Project, names: seq<string>): seq<Unresolved>
    requires forall n | n in names :: n in services
  {
    if names == [] then []
    else
      var n := names[|names| - 1];
      ConvertingRecords(services, names[..|names| - 1]) + AppRecords(n, services[n])
  }

  function ConvertingVars(services: Project, names: set<string>): set<Unresolved>
    requires names <= services.Keys
  {
    set n, u | n in names && u in AppVars(n, services[n]) :: u
  }

  function AppFiles(svc: ServiceConfig): set<string> {
    ToSet(AppPaths(svc))
  }

  function AppPaths(svc: ServiceConfig): seq<string> {
    if IsApp(svc) then svc.envFiles else []
  }

  /** The env_file paths of the apps in name order, each where it is first named. */
  function ConvertingPaths(list: seq<string>, services: Project, names: seq<string>): seq<string>
    requires forall n | n in names :: n in services
  {
    if names == [] then list
    else Noted(ConvertingPaths(list, services, names[..|names| - 1]), AppPaths(services[names[|names| - 1]]))
  }

  function EnvFilesOf(services: Project, names: set<string>): set<string>
    requires names <= services.Keys
  {
    set n, f | n in names && f in AppFiles(services[n]) :: f
  }

  lemma RefsNamed(services: Project, slugs: map<string, string>, names: set<string>, refs: map<string, AddonRef>)
    requires names <= services.Keys && names <= slugs.Keys && RefsOf(services, slugs, names, refs)
    ensures forall n | n in refs :: refs[n].composeName == n
  {
    forall n | n in refs ensures refs[n].composeName == n {
      assert RefOf(n, services[n], slugs[n], refs[n]);
    }
  }

  method SortedAddons(refs: map<string, AddonRef>) returns (addons: seq<AddonRef>)
    requires forall n | n in refs :: refs[n].composeName == n
    ensures AddonsOf(refs, addons)
  {
    var list := [];
    var todo := refs.Keys;
    while todo != {}
      invariant todo <= refs.Keys
      invariant DistinctKeys(ComposeName, list)
      invariant forall a :: a in list <==> exists n :: n in refs && n !in todo && refs[n] == a
      decreases todo
    {
      var n :| n in todo;
      forall a | a in list ensures ComposeName(a) != ComposeName(refs[n]) {}
      assert forall i | 0 <= i < |list| :: list[i] in list;
      list := list + [refs[n]];
      todo := todo - {n};
    }
    addons := SortBy(ComposeName, list);
    SortSorts(ComposeName, list);
    PermutedDistinct(ComposeName, list, addons);
    SameMembers(list, addons);
  }

  method ResolveAll(proj: Project, names: seq<string>, rep: Report) returns (services: Project)
    requires ToSet(names) == proj.Keys
    modifies rep`unresolvedVars
    ensures services == ResolveProject(proj)
    ensures Appended(old(rep.unresolvedVars), rep.unresolvedVars, ResolvingVars(proj, proj.Keys))
  {
    services := map[];
    for i := 0 to |names|
      invariant services.Keys == ToSet(names[..i]) <= proj.Keys
      invariant forall n | n in services :: services[n] == ResolveProject(proj)[n]
      invariant Appended(old(rep.unresolvedVars), rep.unresolvedVars, ResolvingVars(proj, ToSet(names[..i])))
    {
      var n := names[i];
      assert n in ToSet(names);
      ghost var before, done := rep.unresolvedVars, ToSet(names[..i]);
      var svc := ResolveService(n, proj[n], rep);
      services := services[n := svc];
      AllRecords(n, proj[n], before, rep.unresolvedVars);
      AppendedTwice(old(rep.unresolvedVars), before, rep.unresolvedVars, ResolvingVars(proj, done),
                    ResolveVars(n, proj[n]));
      ToSetPrefix(names, i);
      ResolvingStep(proj, done, n);
    }
    assert names[..|names|] == names;
  }

  lemma ResolvingStep(proj: Project, done: set<string>, n: string)
    requires done <= proj.Keys && n in proj
    ensures ResolvingVars(proj, done + {n}) == ResolvingVars(proj, done) + ResolveVars(n, proj[n])
  {
  }

  method AddonRefs(services: Project, names: seq<string>, slugs: map<string, string>)
    returns (refs: map<string, AddonRef>)
    requires ToSet(names) == services.Keys <= slugs.Keys
    ensures RefsOf(services, slugs, services.Keys, refs)
  {
    refs := map[];
    for i := 0 to |names|
      invariant ToSet(names[..i]) <= services.Keys
      invariant RefsOf(services, slugs, ToSet(names[..i]), refs)
    {
      var n := names[i];
      assert n in ToSet(names);
      ToSetPrefix(names, i);
      var d := AddonKind(services[n]);
      if d.Some? {
        var creds := DatastoreCreds(d.value.kind, services[n].environment);
        var ref := AddonRef(slugs[n], d.value.kind, n, creds);
        assert RefOf(n, services[n], slugs[n], ref);
        refs := refs[n := ref];
      }
    }
    assert names[..|names|] == names;
  }

  method ConvertService(name: string, svc: ServiceConfig, slug: string, addons: seq<AddonRef>, rep: Report)
    returns (out: Service)
    modifies rep
    ensures out == ServiceOf(svc, slug, addons)
    ensures rep.unresolvedVars
         == old(rep.unresolvedVars) + MissingRecords(name, svc.environment, OrderedKeys(svc.environment.Keys))
    ensures rep.unresolvedEnvFiles == Noted(old(rep.unresolvedEnvFiles), svc.envFiles)
  {
    var runtime, image, buildArgs := FromDockerfile, None, map[];
    if svc.build.Some? {
      buildArgs := BuildArgsOf(svc.build);
    } else if svc.image != "" {
      var ref := ImageParts(svc.image);
      runtime := FromImage;
      image := Some(ref.(tag := if ref.tag == "" then "latest" else ref.tag));
    }
    var env := ConvertEnv(name, svc, addons, rep);
    var command := svc.command;
    if svc.entrypoint != [] {
      command := svc.entrypoint + svc.command;
    }
    out := Service(slug, runtime, image, command, env, buildArgs);
  }

  /** One turn of Convert's last loop: the service becomes an addon or a service, and never both. */
  method ConvertOne(n: string, svc: ServiceConfig, slug: string, addons: seq<AddonRef>, rep: Report)
    returns (apps: seq<Service>, managed: seq<Addon>)
    modifies rep
    ensures apps == AppOf(svc, slug, addons) && managed == AddonOf(svc, slug)
    ensures rep.unresolvedVars == old(rep.unresolvedVars) + AppRecords(n, svc)
    ensures rep.unresolvedEnvFiles == Noted(old(rep.unresolvedEnvFiles), AppPaths(svc))
  {
    var d := AddonKind(svc);
    if d.Some? {
      return [], [Addon(slug, d.value.kind, d.value.version)];
    }
    var out := ConvertService(n, svc, slug, addons, rep);
    return [out], [];
  }

  method ConvertAll(services: Project, names: seq<string>, slugs: map<string, string>, addons: seq<AddonRef>,
                    rep: Report)
    returns (serviceDocs: seq<Service>, addonDocs: seq<Addon>)
    requires Known(services, slugs, names)
    modifies rep
    ensures serviceDocs == ServiceDocs(services, slugs, addons, names) && addonDocs == AddonDocs(services, slugs, names)
    ensures rep.unresolvedVars == old(rep.unresolvedVars) + ConvertingRecords(services, names)
    ensures rep.unresolvedEnvFiles == ConvertingPaths(old(rep.unresolvedEnvFiles), services, names)
  {
    serviceDocs, addonDocs := [], [];
    ghost var vars, files := rep.unresolvedVars, rep.unresolvedEnvFiles;
    for i := 0 to |names|
      invariant Known(services, slugs, names[..i])
      invariant serviceDocs == ServiceDocs(services, slugs, addons, names[..i])
      invariant addonDocs == AddonDocs(services, slugs, names[..i])
      invariant rep.unresolvedVars == vars + ConvertingRecords(services, names[..i])
      invariant rep.unresolvedEnvFiles == ConvertingPaths(files, services, names[..i])
    {
      var n := names[i];
      var apps, managed := ConvertOne(n, services[n], slugs[n], addons, rep);
      serviceDocs := serviceDocs + apps;
      addonDocs := addonDocs + managed;
      Regroup(vars, ConvertingRecords(services, names[..i]), AppRecords(n, services[n]));
      assert names[..i + 1][..i] == names[..i];
    }
    assert names[..|names|] == names;
  }

  lemma ConvertingVarsStep(services: Project, done: set<string>, n: string)
    requires done <= services.Keys && n in services
    ensures ConvertingVars(services, done + {n}) == ConvertingVars(services, done) + AppVars(n, services[n])
  {
  }

  lemma ConvertingPathsStep(services: Project, done: set<string>, n: string)
    requires done <= services.Keys && n in services
    ensures EnvFilesOf(services, done + {n}) == EnvFilesOf(services, done) + AppFiles(services[n])
  {
  }

  /** As a set, the records are those of the services converted. */
  lemma {:induction false} ConvertingRecordsSet(services: Project, names: seq<string>)
    requires forall n | n in names :: n in services
    ensures ToSet(names) <= services.Keys
    ensures ToSet(ConvertingRecords(services, names)) == ConvertingVars(services, ToSet(names))
    decreases |names|
  {
    if names != [] {
      var init, n := names[..|names| - 1], names[|names| - 1];
      ConvertingRecordsSet(services, init);
      AppRecordsSet(n, services[n]);
      ToSetSum(ConvertingRecords(services, init), AppRecords(n, services[n]));
      ConvertingVarsStep(services, ToSet(init), n);
      ToSetLast(names);
    }
  }

  /** And so are the paths. */
  lemma {:induction false} ConvertingPathsSet(services: Project, names: seq<string>)
    requires forall n | n in names :: n in services
    ensures ToSet(names) <= services.Keys
    ensures ToSet(ConvertingPaths([], services, names)) == EnvFilesOf(services, ToSet(names))
    decreases |names|
  {
    if names != [] {
      var init, n := names[..|names| - 1], names[|names| - 1];
      ConvertingPathsSet(services, init);
      NotedSet(ConvertingPaths([], services, init), AppPaths(services[n]));
      ConvertingPathsStep(services, ToSet(init), n);
      ToSetLast(names);
    }
  }

  /** The report's values: some list with the resolving records, and then the converting ones in order. */
  ghost predicate Reported(vars: seq<Unresolved>, resolving: set<Unresolved>, converting: seq<Unresolved>) {
    && |converting| <= |vars| && vars[|vars| - |converting|..] == converting
    && ToSet(vars[..|vars| - |converting|]) == resolving
  }

  /** The slugs of the names, and the addons among the services. */
  method MakePlan(services: Project, names: seq<string>)
    returns (slugs: map<string, string>, addons: seq<AddonRef>, ghost plan: Plan)
    requires NamesOf(services.Keys, names)
    ensures plan.names == names && plan.slugs == slugs && plan.addons == addons
    ensures ValidPlan(services, plan) && Known(services, slugs, names)
  {
    slugs := DedupeSlugs(names);
    SlugsKnown(services, slugs, names);
    var refs := AddonRefs(services, names, slugs);
    RefsNamed(services, slugs, services.Keys, refs);
    addons := SortedAddons(refs);
    plan := Plan(names, slugs, refs, addons);
  }

  /** The conversion of services already resolved, appending to the report. */
  method ConvertResolved(services: Project, names: seq<string>, projectName: string, rep: Report)
    returns (doc: Doc, ghost plan: Plan)
    requires names == OrderedKeys(services.Keys)
    modifies rep
    ensures ValidPlan(services, plan) && Known(services, plan.slugs, plan.names)
    ensures doc == DocOf(services, projectName, plan)
    ensures rep.unresolvedVars == old(rep.unresolvedVars) + ConvertingRecords(services, plan.names)
    ensures rep.unresolvedEnvFiles == ConvertingPaths(old(rep.unresolvedEnvFiles), services, plan.names)
  {
    var project := Slugify(projectName);
    var slugs, addons;
    slugs, addons, plan := MakePlan(services, names);
    var serviceDocs, addonDocs := ConvertAll(services, names, slugs, addons, rep);
    doc := Doc(project, serviceDocs, addonDocs);
  }

  method Convert(proj: Project, projectName: string) returns (doc: Doc, rep: Report, ghost plan: Plan)
    ensures ValidPlan(ResolveProject(proj), plan) && Known(ResolveProject(proj), plan.slugs, plan.names)
    ensures doc == DocOf(ResolveProject(proj), projectName, plan)
    ensures fresh(rep)
    ensures Reported(rep.unresolvedVars, ResolvingVars(proj, proj.Keys),
                     ConvertingRecords(ResolveProject(proj), plan.names))
    ensures rep.unresolvedEnvFiles == ConvertingPaths([], ResolveProject(proj), plan.names)
  {
    rep := new Report();
    var names := SortedNames(proj.Keys);
    var services := ResolveAll(proj, names, rep);
    ghost var resolving := rep.unresolvedVars;
    AppendedToEmpty(resolving, ResolvingVars(proj, proj.Keys));
    doc, plan := ConvertResolved(services, names, projectName, rep);
    SplitAtEnd(resolving, ConvertingRecords(services, plan.names));
  }

  lemma SplitAtEnd(a: seq<Unresolved>, b: seq<Unresolved>)
    ensures Reported(a + b, ToSet(a), b)
  {
    assert (a + b)[|a|..] == b && (a + b)[..|a|] == a;
  }

  lemma SetOfParts<T>(list: seq<T>, n: nat)
    requires n <= |list|
    ensures ToSet(list) == ToSet(list[..n]) + ToSet(list[n..])
  {
    assert list == list[..n] + list[n..];
    ToSetSum(list[..n], list[n..]);
  }

  /** As sets: what a report holds, whatever the order. */
  lemma ReportedSets(proj: Project, services: Project, names: seq<string>, vars: seq<Unresolved>)
    requires services == ResolveProject(proj) && ToSet(names) == proj.Keys && forall n | n in names :: n in services
    requires Reported(vars, ResolvingVars(proj, proj.Keys), ConvertingRecords(services, names))
    ensures ToSet(vars) == ResolvingVars(proj, proj.Keys) + ConvertingVars(services, proj.Keys)
    ensures ToSet(ConvertingPaths([], services, names)) == EnvFilesOf(services, proj.Keys)
  {
    SetOfParts(vars, |vars| - |ConvertingRecords(services, names)|);
    ConvertingRecordsSet(services, names);
    ConvertingPathsSet(services, names);
  }

  lemma SlugsKnown(services: Project, slugs: map<string, string>, names: seq<string>)
    requires ToSet(names) == services.Keys && slugs == Assign(SlugOf, names).slugs
    ensures slugs.Keys == services.Keys && Known(services, slugs, names)
  {
    AssignInjective(SlugOf, names);
    forall n ensures n in names <==> n in services {
      assert n in ToSet(names) <==> n in names;
    }
  }
}
