/**
 compose/envref.go: which addon key, if any, an application variable should reference.
 The variable's name decides its role where it names one; otherwise its value's shape does.
 */
module EnvRef {
  import opened Wrappers
  import opened Strings
  import opened Classify

  datatype Role = Url | Host | Port | User | Password | Db | HostPort

  /** An empty key means the kind injects nothing for that role. */
  datatype Keys = Keys(url: string, urlAliases: seq<string>, host: string, port: string, user: string,
                       password: string, db: string, hostPort: string)
  {
    function ForRole(role: Role): string {
      match role
      case Url => url
      case Host => host
      case Port => port
      case User => user
      case Password => password
      case Db => db
      case HostPort => hostPort
    }

    /** Every non-empty key the kind's secret carries. */
    predicate Injects(key: string) {
      key != "" && (key in urlAliases || exists role: Role :: ForRole(role) == key)
    }
  }

  function KeyTable(kind: Kind): Option<Keys> {
    match kind
    case Postgres =>
      Some(Keys("DATABASE_URL", ["DIRECT_URL"], "POSTGRES_HOST", "POSTGRES_PORT",
                "POSTGRES_USER", "POSTGRES_PASSWORD", "POSTGRES_DB", ""))
    case Redis =>
      Some(Keys("REDIS_URL", [], "REDIS_HOST", "REDIS_PORT", "", "REDIS_PASSWORD", "", ""))
    case Valkey =>
      Some(Keys("VALKEY_URL", ["REDIS_URL"], "VALKEY_HOST", "VALKEY_PORT", "", "REDIS_PASSWORD", "", ""))
    case Mongodb =>
      Some(Keys("MONGO_URL", ["MONGODB_URI", "DATABASE_URL"], "MONGO_HOST", "MONGO_PORT",
                "MONGO_USER", "MONGO_PASSWORD", "MONGO_DB", ""))
    case Mysql =>
      Some(Keys("MYSQL_URL", ["DATABASE_URL"], "MYSQL_HOST", "MYSQL_PORT",
                "MYSQL_USER", "MYSQL_PASSWORD", "MYSQL_DB", ""))
    case Clickhouse =>
      Some(Keys("CLICKHOUSE_URL", ["CLICKHOUSE_NATIVE_URL"], "CLICKHOUSE_HOST", "",
                "CLICKHOUSE_USER", "CLICKHOUSE_PASSWORD", "CLICKHOUSE_DATABASE", ""))
    case Redpanda =>
      Some(Keys("REDPANDA_URL", [], "KAFKA_HOST", "KAFKA_PORT", "", "", "", "KAFKA_BROKERS"))
    case Rabbitmq =>
      Some(Keys("AMQP_URL", ["RABBITMQ_URL"], "RABBITMQ_HOST", "RABBITMQ_PORT",
                "RABBITMQ_USER", "RABBITMQ_PASSWORD", "", ""))
    case Other(_) => None
  }

  /** Every kind an image can be classified as has a table with a URL and a host key, and no key serves two ends. */
  lemma KeyTableFacts(kind: Kind)
    requires !kind.Other?
    ensures KeyTable(kind).Some?
    ensures var keys := KeyTable(kind).value;
            && keys.url != "" && keys.host != "" && "" !in keys.urlAliases
            && (forall role: Role | role != Url && keys.ForRole(role) != "" ::
                  keys.ForRole(role) != keys.url && keys.ForRole(role) !in keys.urlAliases)
  {
  }

  // ----- the role a name implies -----

  const LIBPQ: map<string, Role> :=
    map["PGHOST" := Host, "PGPORT" := Port, "PGUSER" := User, "PGPASSWORD" := Password, "PGDATABASE" := Db]

  const ROLE_SUFFIXES: seq<(string, Role)> := [
    ("_HOSTNAME", Host), ("_HOST", Host), ("_PORT", Port), ("_USERNAME", User), ("_USER", User),
    ("_PASSWORD", Password), ("_PASS", Password), ("_DATABASE", Db), ("_DB", Db), ("_NAME", Db),
    ("_BROKERS", HostPort), ("_URL", Url), ("_URI", Url), ("_DSN", Url)
  ]

  datatype NameRole = NameRole(role: Option<Role>, prefix: string)

  function SuffixRole(up: string, table: seq<(string, Role)>): NameRole {
    if table == [] then NameRole(None, up)
    else if HasSuffix(up, table[0].0) then NameRole(Some(table[0].1), TrimSuffix(up, table[0].0))
    else SuffixRole(up, table[1..])
  }

  function RoleOf(name: string): NameRole {
    var up := ToUpper(name);
    if up in LIBPQ then NameRole(Some(LIBPQ[up]), "PG") else SuffixRole(up, ROLE_SUFFIXES)
  }

  // ----- the shape of a value against one addon -----

  datatype AddonRef = AddonRef(slug: string, kind: Kind, composeName: string, creds: map<Role, string>)

  const DB_WORDS: set<string> := {
    "DB", "DATABASE", "SQL", "PG", "PGSQL", "POSTGRES", "POSTGRESQL", "MYSQL", "MARIADB", "MONGO", "MONGODB",
    "REDIS", "CACHE", "VALKEY", "CLICKHOUSE", "CH", "KAFKA", "REDPANDA"
  }

  function OwnName(composeName: string): string {
    ToUpper(seq(|composeName|, i requires 0 <= i < |composeName| =>
      if composeName[i] == '-' || composeName[i] == '.' then '_' else composeName[i]))
  }

  predicate CredPrefixOk(prefix: string, a: AddonRef) {
    var own := OwnName(a.composeName);
    || prefix == "" || prefix == own || HasSuffix(prefix, "_" + own)
    || exists tok | tok in SplitOn(prefix, '_') :: tok in DB_WORDS || tok == own
  }

  /** Where "://" first occurs. */
  function SchemeEnd(v: string, from: nat): (i: int)
    requires from <= |v|
    ensures i == -1 || (from <= i <= |v| - 3 && v[i..i + 3] == "://")
    decreases |v| - from
  {
    if |v| - from < 3 then -1 else if v[from..from + 3] == "://" then from else SchemeEnd(v, from + 1)
  }

  function HostOf(hostPort: string): string {
    var c := LastIndex(hostPort, ':');
    if c >= 0 then hostPort[..c] else hostPort
  }

  predicate EndsAuthority(c: char) {
    c == '/' || c == '?' || c == '#'
  }

  function AuthorityOf(rest: string): string {
    var end := IndexFrom(rest, EndsAuthority, 0);
    if end >= 0 then rest[..end] else rest
  }

  function HostList(list: string): seq<string> {
    var parts := SplitOn(list, ',');
    seq(|parts|, j requires 0 <= j < |parts| => HostOf(parts[j]))
  }

  function HostsAfterScheme(rest: string): seq<string> {
    var authority := AuthorityOf(rest);
    HostList(authority[LastIndex(authority, '@') + 1..])
  }

  /** The hosts of a URL-shaped value. */
  function UrlHosts(v: string): seq<string> {
    var i := SchemeEnd(v, 0);
    if i <= 0 then [] else HostsAfterScheme(v[i + 3..])
  }

  /** The class \s of Go's regular expressions. */
  predicate IsRegexSpace(c: char) {
    c == ' ' || c == '\t' || c == '\n' || c == '\U{0C}' || c == '\r'
  }

  /** The host of "host:1234"; one to five digits and nothing else. */
  function HostBeforePort(v: string): Option<string> {
    var c := Index(v, ':');
    if c > 0
       && (forall i | 0 <= i < c :: v[i] != '/' && v[i] != '@' && !IsRegexSpace(v[i]))
       && 1 <= |v| - c - 1 <= 5
       && (forall i | c < i < |v| :: '0' <= v[i] <= '9')
    then Some(v[..c]) else None
  }

  datatype Shape = Shape(url: bool, host: bool, hostPort: bool, credRole: Option<Role>) {
    predicate Any() {
      url || host || hostPort || credRole.Some?
    }
  }

  function ShapeFor(nr: NameRole, val: string, a: AddonRef): Shape {
    Shape(
      exists h | h in UrlHosts(val) :: EqualFold(h, a.composeName),
      EqualFold(val, a.composeName),
      HostBeforePort(val).Some? && EqualFold(HostBeforePort(val).value, a.composeName),
      if val != "" && nr.role.Some? && nr.role.value in a.creds && a.creds[nr.role.value] == val
         && CredPrefixOk(nr.prefix, a)
      then nr.role else None)
  }

  function Shapes(nr: NameRole, val: string, addons: seq<AddonRef>): seq<Shape> {
    seq(|addons|, i requires 0 <= i < |addons| => ShapeFor(nr, val, addons[i]))
  }

  // ----- the choice -----

  /** key == "" keeps the literal; flag asks the user to look at it. */
  datatype EnvChoice = NoMatch | Choice(addon: AddonRef, key: string, flag: bool)

  function RefText(slug: string, key: string): string {
    "${{ " + slug + "." + key + " }}"
  }

  /** What one addon whose shape matched makes of the variable; None passes it on to the next. */
  function ChooseFrom(up: string, role: Option<Role>, s: Shape, a: AddonRef): Option<EnvChoice> {
    var keep := Some(Choice(a, "", true));
    if KeyTable(a.kind).None? then keep
    else
      var keys := KeyTable(a.kind).value;
      if role.Some? && role.value != Url && role.value != HostPort then
        if (role.value == Host && s.host) || s.credRole == role then
          if keys.ForRole(role.value) == "" then keep else Some(Choice(a, keys.ForRole(role.value), false))
        else keep
      else if role == Some(HostPort) then
        if s.hostPort && keys.hostPort != "" then Some(Choice(a, keys.hostPort, false)) else keep
      else if s.url then
        if up in keys.urlAliases then Some(Choice(a, up, false)) else Some(Choice(a, keys.url, false))
      else if s.host then Some(Choice(a, keys.host, true))
      else if s.hostPort then
        if keys.hostPort != "" then Some(Choice(a, keys.hostPort, false)) else keep
      else None
  }

  function Choose(up: string, role: Option<Role>, shapes: seq<Shape>, addons: seq<AddonRef>): EnvChoice
    requires |shapes| == |addons|
  {
    if addons == [] then NoMatch
    else
      var first := if shapes[0].Any() then ChooseFrom(up, role, shapes[0], addons[0]) else None;
      if first.Some? then first.value else Choose(up, role, shapes[1..], addons[1..])
  }

  function ChooseAddonEnv(name: string, val: string, addons: seq<AddonRef>): EnvChoice {
    Choose(ToUpper(name), RoleOf(name).role, Shapes(RoleOf(name), val, addons), addons)
  }

  /** What Convert knows of its addons: a classified kind, and credentials only for user, password and database. */
  predicate ValidAddon(a: AddonRef) {
    !a.kind.Other? && a.creds.Keys <= {User, Password, Db}
  }

  ghost predicate ValidAddons(addons: seq<AddonRef>) {
    forall i | 0 <= i < |addons| :: ValidAddon(addons[i])
  }

  /** A credential can only match under the role its name implies. */
  ghost predicate ValidShapes(role: Option<Role>, shapes: seq<Shape>) {
    forall i | 0 <= i < |shapes| ::
      shapes[i].credRole.Some? ==> shapes[i].credRole == role && role.value in {User, Password, Db}
  }

  lemma ShapesValid(nr: NameRole, val: string, addons: seq<AddonRef>)
    requires ValidAddons(addons)
    ensures ValidShapes(nr.role, Shapes(nr, val, addons))
  {
    forall i | 0 <= i < |addons| && ShapeFor(nr, val, addons[i]).credRole.Some?
      ensures nr.role.value in {User, Password, Db}
    {
      assert ValidAddon(addons[i]);
    }
  }

  /** Which addon decides: the first with a matching shape, or none. */
  ghost predicate DecidesAt(shapes: seq<Shape>, i: nat) {
    i <= |shapes| && (forall j | 0 <= j < i :: !shapes[j].Any()) && (i < |shapes| ==> shapes[i].Any())
  }

  /** The outcome is that of the first addon at which the value points, and of no addon if it points at none. */
  lemma {:induction false} ChooseIsFirst(up: string, role: Option<Role>, shapes: seq<Shape>, addons: seq<AddonRef>,
                                         i: nat)
    requires |shapes| == |addons| && ValidAddons(addons) && ValidShapes(role, shapes) && DecidesAt(shapes, i)
    ensures if i == |addons| then Choose(up, role, shapes, addons) == NoMatch
            else ChooseFrom(up, role, shapes[i], addons[i]) == Some(Choose(up, role, shapes, addons))
    decreases i
  {
    if i == 0 {
      if addons != [] {
        assert ValidAddon(addons[0]);
        KeyTableFacts(addons[0].kind);
      }
    } else {
      assert forall j | 0 <= j < |addons| - 1 :: addons[1..][j] == addons[j + 1] && shapes[1..][j] == shapes[j + 1];
      ChooseIsFirst(up, role, shapes[1..], addons[1..], i - 1);
    }
  }

  lemma ChoiceIsFirst(name: string, val: string, addons: seq<AddonRef>, i: nat)
    requires ValidAddons(addons) && DecidesAt(Shapes(RoleOf(name), val, addons), i)
    ensures i == |addons| ==> ChooseAddonEnv(name, val, addons) == NoMatch
    ensures i < |addons| ==>
              Some(ChooseAddonEnv(name, val, addons))
              == ChooseFrom(ToUpper(name), RoleOf(name).role, ShapeFor(RoleOf(name), val, addons[i]), addons[i])
  {
    var nr := RoleOf(name);
    ShapesValid(nr, val, addons);
    ChooseIsFirst(ToUpper(name), nr.role, Shapes(nr, val, addons), addons, i);
  }

  lemma {:induction false} SomeoneDecides(shapes: seq<Shape>, from: nat) returns (i: nat)
    requires from <= |shapes| && forall j | 0 <= j < from :: !shapes[j].Any()
    ensures DecidesAt(shapes, i)
    decreases |shapes| - from
  {
    if from == |shapes| || shapes[from].Any() {
      i := from;
    } else {
      i := SomeoneDecides(shapes, from + 1);
    }
  }

  /** The key an addon offers is one its kind's secret really carries. */
  lemma ChosenKeyInjected(up: string, role: Option<Role>, s: Shape, a: AddonRef)
    requires ValidAddon(a)
    ensures var c := ChooseFrom(up, role, s, a);
            c.Some? ==> c.value.Choice? && c.value.addon == a
                        && (c.value.key != "" ==> KeyTable(a.kind).value.Injects(c.value.key))
  {
    KeyTableFacts(a.kind);
    var keys := KeyTable(a.kind).value;
    assert keys.ForRole(Url) == keys.url && keys.ForRole(Host) == keys.host && keys.ForRole(HostPort) == keys.hostPort;
  }

  /** Every reference the chooser produces is to one of the addons, by a key that addon injects. */
  lemma ReferenceResolves(name: string, val: string, addons: seq<AddonRef>)
    requires ValidAddons(addons)
    ensures var c := ChooseAddonEnv(name, val, addons);
            c.Choice? ==> c.addon in addons && ValidAddon(c.addon)
                          && (c.key != "" ==> KeyTable(c.addon.kind).value.Injects(c.key))
  {
    var i := SomeoneDecides(Shapes(RoleOf(name), val, addons), 0);
    ChoiceIsFirst(name, val, addons, i);
    if i < |addons| {
      assert ValidAddon(addons[i]);
      ChosenKeyInjected(ToUpper(name), RoleOf(name).role, ShapeFor(RoleOf(name), val, addons[i]), addons[i]);
    }
  }

  /**
   The answer for a variable whose name says `role` and whose value points at a: the role's own key, never a
   URL key, exactly if the value fits the role and the kind has such a key; otherwise the flagged literal.
   */
  ghost predicate AnswersRole(c: EnvChoice, role: Role, s: Shape, a: AddonRef)
    requires KeyTable(a.kind).Some?
  {
    var keys := KeyTable(a.kind).value;
    && c.Choice? && c.addon == a
    && (c.key != "" <==> ((role == Host && s.host) || s.credRole == Some(role)) && keys.ForRole(role) != "")
    && (c.flag <==> c.key == "")
    && (c.key != "" ==> c.key == keys.ForRole(role) && c.key != keys.url && c.key !in keys.urlAliases)
  }

  lemma RoleRespected(up: string, role: Role, s: Shape, a: AddonRef)
    requires ValidAddon(a) && role in {Host, Port, User, Password, Db}
    ensures KeyTable(a.kind).Some?
    ensures ChooseFrom(up, Some(role), s, a).Some? && AnswersRole(ChooseFrom(up, Some(role), s, a).value, role, s, a)
  {
    KeyTableFacts(a.kind);
  }

  /** A name that says host, port, user, password or database decides, at the first addon the value points at. */
  lemma NamedRoleRespected(name: string, val: string, addons: seq<AddonRef>, i: nat)
    requires ValidAddons(addons) && DecidesAt(Shapes(RoleOf(name), val, addons), i) && i < |addons|
    requires RoleOf(name).role.Some? && RoleOf(name).role.value in {Host, Port, User, Password, Db}
    ensures KeyTable(addons[i].kind).Some?
    ensures AnswersRole(ChooseAddonEnv(name, val, addons), RoleOf(name).role.value,
                        ShapeFor(RoleOf(name), val, addons[i]), addons[i])
  {
    assert ValidAddon(addons[i]);
    ChoiceIsFirst(name, val, addons, i);
    RoleRespected(ToUpper(name), RoleOf(name).role.value, ShapeFor(RoleOf(name), val, addons[i]), addons[i]);
  }
}
