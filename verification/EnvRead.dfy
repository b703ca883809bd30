/**
 compose/envref.go read from the texts: which name says what, which value points where, and which key answers.
 */
module EnvRead {
  import opened Wrappers
  import opened Strings
  import opened Classify
  import opened EnvRef
  import opened UrlRead

  // ----- names -----

  /** The words behind the last underscore that say a role. */
  predicate Says(word: string, role: Role) {
    match role
    case Url => word == "URL" || word == "URI" || word == "DSN"
    case Host => word == "HOST" || word == "HOSTNAME"
    case Port => word == "PORT"
    case User => word == "USER" || word == "USERNAME"
    case Password => word == "PASSWORD" || word == "PASS"
    case Db => word == "DB" || word == "DATABASE" || word == "NAME"
    case HostPort => word == "BROKERS"
  }

  /** The variables of PostgreSQL's own client library. */
  predicate LibpqSays(up: string, role: Role) {
    match role
    case Host => up == "PGHOST"
    case Port => up == "PGPORT"
    case User => up == "PGUSER"
    case Password => up == "PGPASSWORD"
    case Db => up == "PGDATABASE"
    case _ => false
  }

  /** Only the first character is an underscore. */
  predicate IsSuffix(t: string) {
    t != "" && t[0] == '_' && forall i | 0 < i < |t| :: t[i] != '_'
  }

  lemma SuffixesRead()
    ensures forall k | 0 <= k < |ROLE_SUFFIXES| ::
              IsSuffix(ROLE_SUFFIXES[k].0) && Says(ROLE_SUFFIXES[k].0[1..], ROLE_SUFFIXES[k].1)
  {
  }

  /** The k-th entry of the table says this role by this word. */
  predicate Lists(k: int, word: string, role: Role) {
    0 <= k < |ROLE_SUFFIXES| && ROLE_SUFFIXES[k].0 == "_" + word && ROLE_SUFFIXES[k].1 == role
  }

  lemma EntryWord(k: nat, word: string, role: Role)
    requires k < |ROLE_SUFFIXES| && ROLE_SUFFIXES[k].0[1..] == word && ROLE_SUFFIXES[k].1 == role
    ensures Lists(k, word, role)
  {
    SuffixesRead();
    var t := ROLE_SUFFIXES[k].0;
    assert t == [t[0]] + t[1..];
  }

  lemma HostListed(word: string)
    requires Says(word, Host)
    ensures exists k :: Lists(k, word, Host)
  {
    EntryWord(if word == "HOSTNAME" then 0 else 1, word, Host);
  }

  lemma UserListed(word: string)
    requires Says(word, User)
    ensures exists k :: Lists(k, word, User)
  {
    EntryWord(if word == "USERNAME" then 3 else 4, word, User);
  }

  lemma PasswordListed(word: string)
    requires Says(word, Password)
    ensures exists k :: Lists(k, word, Password)
  {
    EntryWord(if word == "PASSWORD" then 5 else 6, word, Password);
  }

  lemma DbListed(word: string)
    requires Says(word, Db)
    ensures exists k :: Lists(k, word, Db)
  {
    EntryWord(if word == "DATABASE" then 7 else if word == "DB" then 8 else 9, word, Db);
  }

  lemma UrlListed(word: string)
    requires Says(word, Url)
    ensures exists k :: Lists(k, word, Url)
  {
    EntryWord(if word == "URL" then 11 else if word == "URI" then 12 else 13, word, Url);
  }

  lemma SuffixListed(word: string, role: Role)
    requires Says(word, role)
    ensures exists k :: Lists(k, word, role)
  {
    match role {
      case Url => UrlListed(word);
      case Host => HostListed(word);
      case Port => EntryWord(2, word, role);
      case User => UserListed(word);
      case Password => PasswordListed(word);
      case Db => DbListed(word);
      case HostPort => EntryWord(10, word, role);
    }
  }

  // ----- the table, for any text -----

  lemma {:induction false} TableFound(up: string, table: seq<(string, Role)>, k: nat)
    requires k < |table| && HasSuffix(up, table[k].0) && forall j | 0 <= j < k :: !HasSuffix(up, table[j].0)
    ensures SuffixRole(up, table) == NameRole(Some(table[k].1), TrimSuffix(up, table[k].0))
    decreases k
  {
    if k > 0 {
      TableFound(up, table[1..], k - 1);
    }
  }

  lemma {:induction false} TableSilent(up: string, table: seq<(string, Role)>)
    requires forall j | 0 <= j < |table| :: !HasSuffix(up, table[j].0)
    ensures SuffixRole(up, table) == NameRole(None, up)
    decreases |table|
  {
    if table != [] {
      TableSilent(up, table[1..]);
    }
  }

  lemma {:induction false} FirstSuffix(up: string, table: seq<(string, Role)>, from: nat) returns (k: nat)
    requires from <= |table| && forall j | 0 <= j < from :: !HasSuffix(up, table[j].0)
    ensures k <= |table| && (forall j | 0 <= j < k :: !HasSuffix(up, table[j].0))
    ensures k < |table| ==> HasSuffix(up, table[k].0)
    decreases |table| - from
  {
    if from == |table| || HasSuffix(up, table[from].0) {
      k := from;
    } else {
      k := FirstSuffix(up, table, from + 1);
    }
  }

  /** A suffix with its underscore in front is what follows the text's last underscore. */
  lemma SuffixIsLastWord(stem: string, word: string, t: string)
    requires '_' !in word && IsSuffix(t)
    ensures HasSuffix(stem + ("_" + word), t) <==> t == "_" + word
  {
    var up := stem + ("_" + word);
    assert up[|stem|] == '_' && forall i | |stem| < i < |up| :: up[i] == word[i - |stem| - 1] != '_';
    if HasSuffix(up, t) {
      var n := |up| - |t|;
      assert up[n..] == t && up[n] == t[0] == '_';
      assert n <= |stem|;
      assert up[|stem|..] == "_" + word;
    } else {
      assert up[|stem|..] == "_" + word;
    }
  }

  lemma NoUnderscoreNoSuffix(up: string, t: string)
    requires '_' !in up && t != "" && t[0] == '_'
    ensures !HasSuffix(up, t)
  {
  }

  /** Two entries never give one word different roles. */
  lemma SaysOne(word: string, role: Role, other: Role)
    requires Says(word, role) && Says(word, other)
    ensures role == other
  {
  }

  lemma SuffixRead(stem: string, word: string)
    requires '_' !in word
    ensures forall role :: Says(word, role) ==>
              SuffixRole(stem + ("_" + word), ROLE_SUFFIXES) == NameRole(Some(role), stem)
    ensures (forall role :: !Says(word, role)) ==>
              SuffixRole(stem + ("_" + word), ROLE_SUFFIXES) == NameRole(None, stem + ("_" + word))
  {
    var up := stem + ("_" + word);
    SuffixesRead();
    var k := FirstSuffix(up, ROLE_SUFFIXES, 0);
    if k < |ROLE_SUFFIXES| {
      var t := ROLE_SUFFIXES[k].0;
      SuffixIsLastWord(stem, word, t);
      assert t[1..] == word;
      TableFound(up, ROLE_SUFFIXES, k);
      assert up[..|up| - |t|] == stem;
      forall role | Says(word, role) ensures role == ROLE_SUFFIXES[k].1 {
        SaysOne(word, role, ROLE_SUFFIXES[k].1);
      }
    } else {
      forall role ensures !Says(word, role) {
        if Says(word, role) {
          SuffixListed(word, role);
          var j :| Lists(j, word, role);
          SuffixIsLastWord(stem, word, ROLE_SUFFIXES[j].0);
        }
      }
      TableSilent(up, ROLE_SUFFIXES);
    }
  }

  lemma LibpqExact(up: string)
    ensures forall role :: up in LIBPQ && LIBPQ[up] == role <==> LibpqSays(up, role)
    ensures up in LIBPQ ==> '_' !in up
  {
  }

  /**
   The role of a name, in any letter case: libpq's variables apart, the word behind its last underscore says it,
   and a name without such a word has none.
   */
  lemma RoleRead(name: string, stem: string, word: string)
    requires ToUpper(name) == stem + ("_" + word) && '_' !in word
    ensures forall role :: Says(word, role) ==> RoleOf(name) == NameRole(Some(role), stem)
    ensures (forall role :: !Says(word, role)) ==> RoleOf(name) == NameRole(None, ToUpper(name))
  {
    assert ToUpper(name)[|stem|] == '_';
    LibpqExact(ToUpper(name));
    SuffixRead(stem, word);
  }

  lemma NoSuffixRead(up: string)
    requires '_' !in up
    ensures SuffixRole(up, ROLE_SUFFIXES) == NameRole(None, up)
  {
    SuffixesRead();
    forall k | 0 <= k < |ROLE_SUFFIXES| ensures !HasSuffix(up, ROLE_SUFFIXES[k].0) {
      NoUnderscoreNoSuffix(up, ROLE_SUFFIXES[k].0);
    }
    TableSilent(up, ROLE_SUFFIXES);
  }

  lemma LibpqRead(name: string, role: Role)
    requires LibpqSays(ToUpper(name), role)
    ensures RoleOf(name) == NameRole(Some(role), "PG")
  {
    LibpqExact(ToUpper(name));
  }

  lemma LibpqSaid(up: string)
    requires up in LIBPQ
    ensures exists role :: LibpqSays(up, role)
  {
    LibpqExact(up);
    assert LibpqSays(up, LIBPQ[up]);
  }

  lemma RolelessRead(name: string)
    requires '_' !in ToUpper(name) && forall role :: !LibpqSays(ToUpper(name), role)
    ensures RoleOf(name) == NameRole(None, ToUpper(name))
  {
    var up := ToUpper(name);
    if up in LIBPQ {
      LibpqSaid(up);
    }
    NoSuffixRead(up);
  }

  lemma PlainRoleRead(name: string)
    requires '_' !in ToUpper(name)
    ensures forall role :: LibpqSays(ToUpper(name), role) ==> RoleOf(name) == NameRole(Some(role), "PG")
    ensures (forall role :: !LibpqSays(ToUpper(name), role)) ==> RoleOf(name) == NameRole(None, ToUpper(name))
  {
    if role: Role :| LibpqSays(ToUpper(name), role) {
      forall role | LibpqSays(ToUpper(name), role) ensures RoleOf(name) == NameRole(Some(role), "PG") {
        LibpqRead(name, role);
      }
    } else {
      RolelessRead(name);
    }
  }

  // ----- keys -----

  function UrlKey(kind: Kind): string {
    match kind
    case Postgres => "DATABASE_URL"
    case Redis => "REDIS_URL"
    case Valkey => "VALKEY_URL"
    case Mongodb => "MONGO_URL"
    case Mysql => "MYSQL_URL"
    case Clickhouse => "CLICKHOUSE_URL"
    case Redpanda => "REDPANDA_URL"
    case Rabbitmq => "AMQP_URL"
    case Other(_) => ""
  }

  /** The other names under which a kind's secret carries its URL. */
  predicate UrlAlias(kind: Kind, key: string) {
    match kind
    case Postgres => key == "DIRECT_URL"
    case Valkey => key == "REDIS_URL"
    case Mongodb => key == "MONGODB_URI" || key == "DATABASE_URL"
    case Mysql => key == "DATABASE_URL"
    case Clickhouse => key == "CLICKHOUSE_NATIVE_URL"
    case Rabbitmq => key == "RABBITMQ_URL"
    case _ => false
  }

  /** How the names of a kind's other keys begin. */
  function KeyStem(kind: Kind): string {
    match kind
    case Postgres => "POSTGRES"
    case Redis => "REDIS"
    case Valkey => "VALKEY"
    case Mongodb => "MONGO"
    case Mysql => "MYSQL"
    case Clickhouse => "CLICKHOUSE"
    case Redpanda => "KAFKA"
    case Rabbitmq => "RABBITMQ"
    case Other(_) => ""
  }

  predicate HasUser(kind: Kind) {
    kind.Postgres? || kind.Mongodb? || kind.Mysql? || kind.Clickhouse? || kind.Rabbitmq?
  }

  /** What a role's key is called; "" where the kind's secret has none. */
  function KeyText(kind: Kind, role: Role): string {
    match role
    case Url => UrlKey(kind)
    case Host => KeyStem(kind) + "_HOST"
    case Port => if kind.Clickhouse? then "" else KeyStem(kind) + "_PORT"
    case User => if HasUser(kind) then KeyStem(kind) + "_USER" else ""
    case Password =>
      if kind.Redpanda? then "" else if kind.Valkey? then "REDIS_PASSWORD" else KeyStem(kind) + "_PASSWORD"
    case Db =>
      if kind.Clickhouse? then "CLICKHOUSE_DATABASE"
      else if kind.Postgres? || kind.Mongodb? || kind.Mysql? then KeyStem(kind) + "_DB"
      else ""
    case HostPort => if kind.Redpanda? then "KAFKA_BROKERS" else ""
  }

  /** The kind's table gives the role this key. */
  predicate Tabled(kind: Kind, role: Role, key: string) {
    KeyTable(kind).Some? && KeyTable(kind).value.ForRole(role) == key
  }

  lemma HostKeys(kind: Kind)
    requires !kind.Other?
    ensures Tabled(kind, Host, KeyStem(kind) + "_HOST")
  {
  }

  lemma PortKeys(kind: Kind)
    requires !kind.Other?
    ensures Tabled(kind, Port, if kind.Clickhouse? then "" else KeyStem(kind) + "_PORT")
  {
  }

  lemma UserKeys(kind: Kind)
    requires !kind.Other?
    ensures Tabled(kind, User, if HasUser(kind) then KeyStem(kind) + "_USER" else "")
  {
  }

  lemma StemPassword(kind: Kind)
    requires !kind.Other? && !kind.Redpanda? && !kind.Valkey?
    ensures Tabled(kind, Password, KeyStem(kind) + "_PASSWORD")
  {
    match kind {
      case Postgres => assert "POSTGRES" + "_PASSWORD" == "POSTGRES_PASSWORD";
      case Redis => assert "REDIS" + "_PASSWORD" == "REDIS_PASSWORD";
      case Mongodb => assert "MONGO" + "_PASSWORD" == "MONGO_PASSWORD";
      case Mysql => assert "MYSQL" + "_PASSWORD" == "MYSQL_PASSWORD";
      case Clickhouse => assert "CLICKHOUSE" + "_PASSWORD" == "CLICKHOUSE_PASSWORD";
      case Rabbitmq => assert "RABBITMQ" + "_PASSWORD" == "RABBITMQ_PASSWORD";
    }
  }

  lemma PasswordKeys(kind: Kind)
    requires !kind.Other?
    ensures Tabled(kind, Password, KeyText(kind, Password))
  {
    if !kind.Redpanda? && !kind.Valkey? {
      StemPassword(kind);
    }
  }

  lemma DbKeys(kind: Kind)
    requires !kind.Other?
    ensures Tabled(kind, Db, KeyText(kind, Db))
  {
  }

  lemma UrlKeys(kind: Kind)
    requires !kind.Other?
    ensures Tabled(kind, Url, UrlKey(kind)) && Tabled(kind, Role.HostPort, KeyText(kind, Role.HostPort))
  {
  }

  lemma KeyTexts(kind: Kind, role: Role)
    requires !kind.Other?
    ensures Tabled(kind, role, KeyText(kind, role))
  {
    match role {
      case Url => UrlKeys(kind);
      case Host => HostKeys(kind);
      case Port => PortKeys(kind);
      case User => UserKeys(kind);
      case Password => PasswordKeys(kind);
      case Db => DbKeys(kind);
      case HostPort => UrlKeys(kind);
    }
  }

  lemma AliasTexts(kind: Kind, key: string)
    requires !kind.Other?
    ensures KeyTable(kind).Some? && (key in KeyTable(kind).value.urlAliases <==> UrlAlias(kind, key))
  {
  }

  // ----- the answer of one addon -----

  predicate Decisive(role: Option<Role>) {
    role.Some? && role.value != Url && role.value != Role.HostPort
  }

  /** A reference, with or without a flag. */
  predicate Refers(c: EnvChoice, a: AddonRef, key: string, flag: bool) {
    c == Choice(a, key, flag) && key != ""
  }

  /** The literal stays and is flagged. */
  predicate KeepsLiteral(c: EnvChoice, a: AddonRef) {
    c == Choice(a, "", true)
  }

  /** What a name with a role of its own gets: that role's key, if the value fits and the kind has one. */
  ghost predicate AnswersName(c: EnvChoice, role: Role, s: Shape, a: AddonRef) {
    if ((role == Host && s.host) || s.credRole == Some(role)) && KeyText(a.kind, role) != ""
    then Refers(c, a, KeyText(a.kind, role), false)
    else KeepsLiteral(c, a)
  }

  /** What the value's shape decides where the name does not. */
  ghost predicate AnswersShape(c: EnvChoice, up: string, s: Shape, a: AddonRef) {
    if s.url then Refers(c, a, if UrlAlias(a.kind, up) then up else UrlKey(a.kind), false)
    else if s.host then Refers(c, a, KeyText(a.kind, Host), true)
    else if a.kind.Redpanda? then Refers(c, a, "KAFKA_BROKERS", false)
    else KeepsLiteral(c, a)
  }

  /** The answer of the addon that decides. */
  ghost predicate Answers(c: EnvChoice, up: string, role: Option<Role>, s: Shape, a: AddonRef) {
    if Decisive(role) then AnswersName(c, role.value, s, a)
    else if role == Some(Role.HostPort) then
      if s.hostPort && a.kind.Redpanda? then Refers(c, a, "KAFKA_BROKERS", false) else KeepsLiteral(c, a)
    else AnswersShape(c, up, s, a)
  }

  lemma StemKeys(kind: Kind)
    requires !kind.Other?
    ensures UrlKey(kind) != "" && KeyText(kind, Host) != ""
  {
  }

  lemma NameAnswered(up: string, role: Role, s: Shape, a: AddonRef)
    requires ValidAddon(a) && Decisive(Some(role))
    ensures ChooseFrom(up, Some(role), s, a).Some?
    ensures AnswersName(ChooseFrom(up, Some(role), s, a).value, role, s, a)
  {
    KeyTexts(a.kind, role);
  }

  lemma BrokersAnswered(up: string, s: Shape, a: AddonRef)
    requires ValidAddon(a)
    ensures ChooseFrom(up, Some(Role.HostPort), s, a).Some?
    ensures Answers(ChooseFrom(up, Some(Role.HostPort), s, a).value, up, Some(Role.HostPort), s, a)
  {
    KeyTexts(a.kind, Role.HostPort);
  }

  lemma ShapeAnswered(up: string, role: Option<Role>, s: Shape, a: AddonRef)
    requires ValidAddon(a) && (role == None || role == Some(Url)) && (s.url || s.host || s.hostPort)
    ensures ChooseFrom(up, role, s, a).Some? && AnswersShape(ChooseFrom(up, role, s, a).value, up, s, a)
  {
    StemKeys(a.kind);
    KeyTexts(a.kind, Url);
    KeyTexts(a.kind, Host);
    KeyTexts(a.kind, Role.HostPort);
    AliasTexts(a.kind, up);
    KeyTableFacts(a.kind);
  }

  /** Whatever the name and the value: the first addon that the value points at answers as Answers says. */
  lemma ChoiceAnswers(name: string, val: string, addons: seq<AddonRef>, i: nat)
    requires ValidAddons(addons) && DecidesAt(Shapes(RoleOf(name), val, addons), i) && i < |addons|
    ensures Answers(ChooseAddonEnv(name, val, addons), ToUpper(name), RoleOf(name).role,
                    ShapeFor(RoleOf(name), val, addons[i]), addons[i])
  {
    var nr := RoleOf(name);
    var s, a := ShapeFor(nr, val, addons[i]), addons[i];
    assert ValidAddon(a);
    ChoiceIsFirst(name, val, addons, i);
    ShapesValid(nr, val, addons);
    assert Shapes(nr, val, addons)[i] == s && s.Any();
    if Decisive(nr.role) {
      NameAnswered(ToUpper(name), nr.role.value, s, a);
    } else if nr.role == Some(Role.HostPort) {
      BrokersAnswered(ToUpper(name), s, a);
    } else {
      ShapeAnswered(ToUpper(name), nr.role, s, a);
    }
  }

  // ----- the shape of a value, from its text -----

  /** A service name as Compose allows it: letters, digits, dots, dashes and underscores, by their codes. */
  predicate IsServiceName(x: string) {
    x != "" && forall i | 0 <= i < |x| ::
      var c := x[i] as int; 48 <= c <= 57 || 65 <= c <= 90 || 97 <= c <= 122 || c == 45 || c == 46 || c == 95
  }

  predicate NamedLikeServices(addons: seq<AddonRef>) {
    forall i | 0 <= i < |addons| :: IsServiceName(addons[i].composeName)
  }

  /** Equal up to letter case. */
  predicate Same(x: string, y: string) {
    ToLower(x) == ToLower(y)
  }

  lemma NamesAscii(x: string)
    requires IsServiceName(x)
    ensures Ascii(x) && ':' !in x
  {
  }

  lemma ColonUnlike(v: string, x: string)
    requires ':' in v && IsServiceName(x)
    ensures !EqualFold(v, x)
  {
    var i :| 0 <= i < |v| && v[i] == ':';
    if |v| == |x| {
      CaseCodes(x[i]);
      assert FoldChar(v[i]) != FoldChar(x[i]);
    }
  }

  lemma {:induction false} NoScheme(v: string, from: nat)
    requires from <= |v| && forall i | 0 <= i < |v| && v[i] == ':' :: i + 1 >= |v| || v[i + 1] != '/'
    ensures SchemeEnd(v, from) == -1
    decreases |v| - from
  {
    if |v| - from >= 3 {
      var w := v[from..from + 3];
      assert w[0] == v[from] && w[1] == v[from + 1];
      NoScheme(v, from + 1);
    }
  }

  /** A text without a colon can only name an addon's service, as a host. */
  lemma HostShape(nr: NameRole, val: string, a: AddonRef)
    requires Ascii(val) && ':' !in val && IsServiceName(a.composeName)
    ensures var s := ShapeFor(nr, val, a);
            !s.url && !s.hostPort && (s.host <==> Same(val, a.composeName))
  {
    NamesAscii(a.composeName);
    FoldIsLower(val, a.composeName);
    assert Index(val, ':') == -1;
    NoScheme(val, 0);
  }

  lemma PortRead(host: string, port: string, val: string)
    requires IsServiceName(host) && val == host + (":" + port)
    requires 1 <= |port| <= 5 && forall i | 0 <= i < |port| :: '0' <= port[i] <= '9'
    ensures HostBeforePort(val) == Some(host)
  {
    var c := |host|;
    assert val[c] == ':' && forall i | 0 <= i < c :: val[i] == host[i];
    assert forall i | c < i < |val| :: val[i] == port[i - c - 1];
    assert Index(val, ':') == c && val[..c] == host;
  }

  lemma PortIsNoUrl(host: string, port: string, val: string)
    requires IsServiceName(host) && val == host + (":" + port)
    requires forall i | 0 <= i < |port| :: '0' <= port[i] <= '9'
    ensures UrlHosts(val) == [] && ':' in val
  {
    var c := |host|;
    assert val[c] == ':' && forall i | 0 <= i < c :: val[i] == host[i];
    assert forall i | c < i < |val| :: val[i] == port[i - c - 1];
    NoScheme(val, 0);
  }

  /** host:port points at the addon named host, as a host with a port and as nothing else. */
  lemma HostPortShape(nr: NameRole, host: string, port: string, val: string, a: AddonRef)
    requires IsServiceName(host) && IsServiceName(a.composeName) && val == host + (":" + port)
    requires 1 <= |port| <= 5 && forall i | 0 <= i < |port| :: '0' <= port[i] <= '9'
    ensures var s := ShapeFor(nr, val, a);
            !s.url && !s.host && (s.hostPort <==> Same(host, a.composeName))
  {
    NamesAscii(host);
    NamesAscii(a.composeName);
    FoldIsLower(host, a.composeName);
    PortRead(host, port, val);
    PortIsNoUrl(host, port, val);
    ColonUnlike(val, a.composeName);
  }

  /** One of the hosts is the addon's service. */
  predicate AmongHosts(hosts: seq<UrlRead.HostPort>, a: AddonRef) {
    exists j | 0 <= j < |hosts| :: Same(hosts[j].host, a.composeName)
  }

  predicate AllAscii(hosts: seq<UrlRead.HostPort>) {
    forall j | 0 <= j < |hosts| :: Ascii(hosts[j].host)
  }

  /** v is a URL over these hosts, as UrlHostsRead takes it. */
  ghost predicate IsUrl(v: string, scheme: string, user: string, hosts: seq<UrlRead.HostPort>, tail: string) {
    && scheme != "" && (forall i | 0 <= i < |scheme| :: scheme[i] != ':')
    && (user == "" || user[|user| - 1] == '@') && (forall i | 0 <= i < |user| :: !EndsAuthority(user[i]))
    && hosts != [] && CleanAll(hosts) && (tail != "" ==> EndsAuthority(tail[0]))
    && v == scheme + ("://" + ((user + Joined(hosts)) + tail))
  }

  lemma UrlIsNoHostPort(v: string, scheme: string, rest: string)
    requires forall i | 0 <= i < |scheme| :: scheme[i] != ':'
    requires v == scheme + ("://" + rest)
    ensures ':' in v && HostBeforePort(v).None?
  {
    var c := |scheme|;
    assert v[c] == ':' && v[c + 1] == '/';
    assert Index(v, ':') == c;
  }

  lemma AmongRead(list: seq<string>, hosts: seq<UrlRead.HostPort>, a: AddonRef)
    requires list == Hosts(hosts) && AllAscii(hosts) && Ascii(a.composeName)
    ensures (exists h | h in list :: EqualFold(h, a.composeName)) <==> AmongHosts(hosts, a)
  {
    forall j | 0 <= j < |hosts| ensures EqualFold(list[j], a.composeName) <==> Same(hosts[j].host, a.composeName) {
      FoldIsLower(hosts[j].host, a.composeName);
    }
    if AmongHosts(hosts, a) {
      var j :| 0 <= j < |hosts| && Same(hosts[j].host, a.composeName);
      assert list[j] in list;
    }
  }

  /** A URL points at the addons whose services are among its hosts, as a URL and as nothing else. */
  lemma UrlShape(nr: NameRole, v: string, scheme: string, user: string, hosts: seq<UrlRead.HostPort>, tail: string,
                 a: AddonRef)
    requires IsUrl(v, scheme, user, hosts, tail) && AllLegible(hosts) && AllAscii(hosts)
    requires IsServiceName(a.composeName)
    ensures var s := ShapeFor(nr, v, a); !s.host && !s.hostPort && (s.url <==> AmongHosts(hosts, a))
  {
    UrlHostsRead(scheme, user, hosts, tail, v);
    UrlIsNoHostPort(v, scheme, (user + Joined(hosts)) + tail);
    ColonUnlike(v, a.composeName);
    NamesAscii(a.composeName);
    AmongRead(UrlHosts(v), hosts, a);
  }

  /** Without a role that asks for one, no credential counts. */
  lemma NoCredential(nr: NameRole, val: string, a: AddonRef)
    requires ValidAddon(a) && !Decisive(nr.role)
    ensures ShapeFor(nr, val, a).credRole == None
  {
  }

  // ----- values under names that leave the choice to them -----

  /** The first addon of which this holds, or the length of the list. */
  ghost predicate IsFirst(addons: seq<AddonRef>, points: AddonRef -> bool, i: nat) {
    && i <= |addons| && (i < |addons| ==> points(addons[i]))
    && forall j | 0 <= j < i :: !points(addons[j])
  }

  lemma FirstDecides(nr: NameRole, val: string, addons: seq<AddonRef>, points: AddonRef -> bool, i: nat)
    requires IsFirst(addons, points, i)
    requires forall j | 0 <= j < |addons| :: ShapeFor(nr, val, addons[j]).Any() <==> points(addons[j])
    ensures DecidesAt(Shapes(nr, val, addons), i)
  {
    assert forall j | 0 <= j < |addons| :: Shapes(nr, val, addons)[j] == ShapeFor(nr, val, addons[j]);
  }

  /**
   A URL under a name that says URL or nothing becomes a reference to the first addon among its hosts: by the name
   itself where the kind's secret carries it, else by the kind's URL key.  With no addon among them it stays.
   */
  lemma UrlReferenced(name: string, v: string, scheme: string, user: string, hosts: seq<UrlRead.HostPort>,
                      tail: string, addons: seq<AddonRef>, i: nat)
    requires RoleOf(name).role == None || RoleOf(name).role == Some(Url)
    requires IsUrl(v, scheme, user, hosts, tail) && AllLegible(hosts) && AllAscii(hosts)
    requires ValidAddons(addons) && NamedLikeServices(addons) && IsFirst(addons, a => AmongHosts(hosts, a), i)
    ensures i == |addons| ==> ChooseAddonEnv(name, v, addons) == NoMatch
    ensures i < |addons| ==>
              var a, up := addons[i], ToUpper(name);
              Refers(ChooseAddonEnv(name, v, addons), a, if UrlAlias(a.kind, up) then up else UrlKey(a.kind), false)
  {
    var nr := RoleOf(name);
    forall j | 0 <= j < |addons|
      ensures ShapeFor(nr, v, addons[j]).Any() <==> AmongHosts(hosts, addons[j])
      ensures ShapeFor(nr, v, addons[j]).url <==> AmongHosts(hosts, addons[j])
    {
      assert ValidAddon(addons[j]);
      UrlShape(nr, v, scheme, user, hosts, tail, addons[j]);
      NoCredential(nr, v, addons[j]);
    }
    FirstDecides(nr, v, addons, a => AmongHosts(hosts, a), i);
    ChoiceIsFirst(name, v, addons, i);
    if i < |addons| {
      ChoiceAnswers(name, v, addons, i);
    }
  }

  /** A bare service name under such a name becomes a flagged reference to that addon's host key, never to its URL. */
  lemma HostReferenced(name: string, val: string, addons: seq<AddonRef>, i: nat)
    requires RoleOf(name).role == None || RoleOf(name).role == Some(Url)
    requires Ascii(val) && ':' !in val
    requires ValidAddons(addons) && NamedLikeServices(addons)
    requires IsFirst(addons, (a: AddonRef) => Same(val, a.composeName), i)
    ensures i == |addons| ==> ChooseAddonEnv(name, val, addons) == NoMatch
    ensures i < |addons| ==>
              Refers(ChooseAddonEnv(name, val, addons), addons[i], KeyStem(addons[i].kind) + "_HOST", true)
  {
    var nr := RoleOf(name);
    forall j | 0 <= j < |addons|
      ensures ShapeFor(nr, val, addons[j]).Any() <==> Same(val, addons[j].composeName)
      ensures !ShapeFor(nr, val, addons[j]).url
    {
      assert ValidAddon(addons[j]);
      HostShape(nr, val, addons[j]);
      NoCredential(nr, val, addons[j]);
    }
    FirstDecides(nr, val, addons, (a: AddonRef) => Same(val, a.composeName), i);
    ChoiceIsFirst(name, val, addons, i);
    if i < |addons| {
      ChoiceAnswers(name, val, addons, i);
      HostShape(nr, val, addons[i]);
    }
  }

  /** host:port, under such a name or one that says BROKERS, becomes Redpanda's bootstrap key; elsewhere it stays. */
  lemma HostPortReferenced(name: string, host: string, port: string, val: string, addons: seq<AddonRef>, i: nat)
    requires !Decisive(RoleOf(name).role)
    requires IsServiceName(host) && val == host + (":" + port)
    requires 1 <= |port| <= 5 && forall k | 0 <= k < |port| :: '0' <= port[k] <= '9'
    requires ValidAddons(addons) && NamedLikeServices(addons)
    requires IsFirst(addons, (a: AddonRef) => Same(host, a.composeName), i)
    ensures i == |addons| ==> ChooseAddonEnv(name, val, addons) == NoMatch
    ensures i < |addons| && addons[i].kind.Redpanda? ==>
              Refers(ChooseAddonEnv(name, val, addons), addons[i], "KAFKA_BROKERS", false)
    ensures i < |addons| && !addons[i].kind.Redpanda? ==> KeepsLiteral(ChooseAddonEnv(name, val, addons), addons[i])
  {
    var nr := RoleOf(name);
    forall j | 0 <= j < |addons|
      ensures ShapeFor(nr, val, addons[j]).Any() <==> Same(host, addons[j].composeName)
    {
      assert ValidAddon(addons[j]);
      HostPortShape(nr, host, port, val, addons[j]);
      NoCredential(nr, val, addons[j]);
    }
    FirstDecides(nr, val, addons, (a: AddonRef) => Same(host, a.composeName), i);
    ChoiceIsFirst(name, val, addons, i);
    if i < |addons| {
      ChoiceAnswers(name, val, addons, i);
      HostPortShape(nr, host, port, val, addons[i]);
    }
  }

  // ----- values under names that decide -----

  /** A name that says HOST gets the host key for a bare service name, without a flag. */
  lemma NamedHostReferenced(name: string, val: string, addons: seq<AddonRef>, i: nat)
    requires RoleOf(name).role == Some(Host) && Ascii(val) && ':' !in val
    requires ValidAddons(addons) && NamedLikeServices(addons)
    requires IsFirst(addons, (a: AddonRef) => Same(val, a.composeName), i)
    ensures i == |addons| ==> ChooseAddonEnv(name, val, addons) == NoMatch
    ensures i < |addons| ==>
              Refers(ChooseAddonEnv(name, val, addons), addons[i], KeyStem(addons[i].kind) + "_HOST", false)
  {
    var nr := RoleOf(name);
    forall j | 0 <= j < |addons| ensures ShapeFor(nr, val, addons[j]).Any() <==> Same(val, addons[j].composeName) {
      assert ValidAddon(addons[j]);
      HostShape(nr, val, addons[j]);
    }
    FirstDecides(nr, val, addons, (a: AddonRef) => Same(val, a.composeName), i);
    ChoiceIsFirst(name, val, addons, i);
    if i < |addons| {
      ChoiceAnswers(name, val, addons, i);
      HostShape(nr, val, addons[i]);
      StemKeys(addons[i].kind);
    }
  }

  /** A URL where the name expects a host or a port stays as it is, flagged: no URL key is offered. */
  lemma UrlUnderHostKept(name: string, v: string, scheme: string, user: string, hosts: seq<UrlRead.HostPort>,
                         tail: string, addons: seq<AddonRef>, i: nat)
    requires RoleOf(name).role == Some(Host) || RoleOf(name).role == Some(Port)
    requires IsUrl(v, scheme, user, hosts, tail) && AllLegible(hosts) && AllAscii(hosts)
    requires ValidAddons(addons) && NamedLikeServices(addons) && IsFirst(addons, a => AmongHosts(hosts, a), i)
    ensures i == |addons| ==> ChooseAddonEnv(name, v, addons) == NoMatch
    ensures i < |addons| ==> KeepsLiteral(ChooseAddonEnv(name, v, addons), addons[i])
  {
    var nr := RoleOf(name);
    forall j | 0 <= j < |addons|
      ensures ShapeFor(nr, v, addons[j]).Any() <==> AmongHosts(hosts, addons[j])
      ensures !ShapeFor(nr, v, addons[j]).host && ShapeFor(nr, v, addons[j]).credRole == None
    {
      assert ValidAddon(addons[j]);
      UrlShape(nr, v, scheme, user, hosts, tail, addons[j]);
    }
    FirstDecides(nr, v, addons, a => AmongHosts(hosts, a), i);
    ChoiceIsFirst(name, v, addons, i);
    if i < |addons| {
      ChoiceAnswers(name, v, addons, i);
    }
  }

  // ----- credentials -----

  /** The words that name some database, whichever it is. */
  predicate DbWord(w: string) {
    || w == "DB" || w == "DATABASE" || w == "SQL" || w == "PG" || w == "PGSQL" || w == "POSTGRES"
    || w == "POSTGRESQL" || w == "MYSQL" || w == "MARIADB" || w == "MONGO" || w == "MONGODB" || w == "REDIS"
    || w == "CACHE" || w == "VALKEY" || w == "CLICKHOUSE" || w == "CH" || w == "KAFKA" || w == "REDPANDA"
  }

  lemma DbWordsListed(w: string)
    ensures w in DB_WORDS <==> DbWord(w)
  {
  }

  function Underscored(words: seq<string>): string
    requires words != []
  {
    if |words| == 1 then words[0] else words[0] + ("_" + Underscored(words[1..]))
  }

  lemma FirstWord(w: string, rest: string)
    requires '_' !in w
    ensures SplitOn(w + ("_" + rest), '_') == [w] + SplitOn(rest, '_')
  {
    var s := w + ("_" + rest);
    assert s[|w|] == '_' && forall i | 0 <= i < |w| :: s[i] == w[i];
    assert Index(s, '_') == |w|;
    assert s[..|w|] == w && s[|w| + 1..] == rest;
  }

  lemma OneWordSplit(w: string)
    requires '_' !in w
    ensures SplitOn(w, '_') == [w]
  {
    assert Index(w, '_') == -1;
  }

  lemma {:induction false} WordsSplit(words: seq<string>)
    requires words != [] && forall w | w in words :: '_' !in w
    ensures SplitOn(Underscored(words), '_') == words
    decreases |words|
  {
    if |words| == 1 {
      OneWordSplit(words[0]);
    } else {
      FirstWord(words[0], Underscored(words[1..]));
      WordsSplit(words[1..]);
    }
  }

  /** The service's own name as a variable would spell it. */
  predicate IsOwnName(own: string, a: AddonRef) {
    |own| == |a.composeName| && forall i | 0 <= i < |own| ::
      own[i] == if a.composeName[i] in {'-', '.'} then '_' else UpperChar(a.composeName[i])
  }

  lemma OwnNameRead(a: AddonRef)
    ensures IsOwnName(OwnName(a.composeName), a)
  {
  }

  /** Whose credential the rest of the name, split at its underscores, can mean. */
  predicate MeansAddon(words: seq<string>, prefix: string, own: string) {
    || prefix == "" || prefix == own || HasSuffix(prefix, "_" + own)
    || exists w | w in words :: DbWord(w) || w == own
  }

  lemma PrefixRead(words: seq<string>, a: AddonRef)
    requires words != [] && forall w | w in words :: '_' !in w
    ensures CredPrefixOk(Underscored(words), a)
       <==> exists own :: IsOwnName(own, a) && MeansAddon(words, Underscored(words), own)
  {
    WordsSplit(words);
    OwnNameRead(a);
    forall own ensures IsOwnName(own, a) <==> own == OwnName(a.composeName) {
      if IsOwnName(own, a) {
        assert own == OwnName(a.composeName);
      }
    }
    forall w ensures w in DB_WORDS <==> DbWord(w) {
      DbWordsListed(w);
    }
  }

  /** The value is the credential of this role that the compose file gave the addon, under a name that can mean it. */
  predicate Knows(nr: NameRole, val: string, a: AddonRef) {
    && nr.role.Some? && nr.role.value in a.creds && a.creds[nr.role.value] == val != ""
    && CredPrefixOk(nr.prefix, a)
  }

  /**
   Under a name that says user, password or database, the first addon whose service or credential the value is gets
   the variable: by the role's key if it is the credential, and with the literal kept if it is not.
   */
  lemma CredentialReferenced(name: string, val: string, addons: seq<AddonRef>, i: nat)
    requires RoleOf(name).role in {Some(User), Some(Password), Some(Db)} && Ascii(val) && ':' !in val
    requires ValidAddons(addons) && NamedLikeServices(addons)
    requires IsFirst(addons, (a: AddonRef) => Same(val, a.composeName) || Knows(RoleOf(name), val, a), i)
    ensures i == |addons| ==> ChooseAddonEnv(name, val, addons) == NoMatch
    ensures i < |addons| ==>
              var c, a := ChooseAddonEnv(name, val, addons), addons[i];
              var key := KeyText(a.kind, RoleOf(name).role.value);
              if Knows(RoleOf(name), val, a) && key != "" then Refers(c, a, key, false) else KeepsLiteral(c, a)
  {
    var nr := RoleOf(name);
    forall j | 0 <= j < |addons|
      ensures ShapeFor(nr, val, addons[j]).Any() <==> Same(val, addons[j].composeName) || Knows(nr, val, addons[j])
    {
      HostShape(nr, val, addons[j]);
    }
    FirstDecides(nr, val, addons, (a: AddonRef) => Same(val, a.composeName) || Knows(nr, val, a), i);
    ChoiceIsFirst(name, val, addons, i);
    if i < |addons| {
      ChoiceAnswers(name, val, addons, i);
    }
  }

  lemma OneWordPrefix(name: string, stem: string, word: string, role: Role, a: AddonRef)
    requires ToUpper(name) == stem + ("_" + word) && '_' !in stem && '_' !in word && Says(word, role)
    ensures RoleOf(name) == NameRole(Some(role), stem)
    ensures CredPrefixOk(stem, a)
       <==> exists own :: IsOwnName(own, a) && (stem == "" || DbWord(stem) || stem == own || HasSuffix(stem, "_" + own))
  {
    RoleRead(name, stem, word);
    PrefixRead([stem], a);
  }

  /** DB_PASSWORD can be any addon's password. */
  lemma DbPasswordMeansAddon(name: string, a: AddonRef)
    requires name == "DB_PASSWORD"
    ensures RoleOf(name).role == Some(Password)
    ensures forall val :: Knows(RoleOf(name), val, a)
                     <==> Password in a.creds && a.creds[Password] == val != ""
  {
    assert ToUpper(name) == "DB" + ("_" + "PASSWORD");
    OwnNameRead(a);
    OneWordPrefix(name, "DB", "PASSWORD", Password, a);
  }

  lemma OwnNotApp(own: string, a: AddonRef)
    requires IsOwnName(own, a) && ToUpper(a.composeName) != "APP"
    ensures own != "APP" && !HasSuffix("APP", "_" + own)
  {
    NoUnderscoreNoSuffix("APP", "_" + own);
    assert '_' !in own ==> ToUpper(a.composeName) == own;
  }

  /** APP_NAME is no addon's database name, unless the service itself is called app. */
  lemma AppNameMeansNoAddon(name: string, val: string, a: AddonRef)
    requires name == "APP_NAME" && ToUpper(a.composeName) != "APP"
    ensures RoleOf(name).role == Some(Db) && !Knows(RoleOf(name), val, a)
  {
    assert ToUpper(name) == "APP" + ("_" + "NAME");
    OneWordPrefix(name, "APP", "NAME", Db, a);
    forall own | IsOwnName(own, a) ensures own != "APP" && !HasSuffix("APP", "_" + own) {
      OwnNotApp(own, a);
    }
  }
}
