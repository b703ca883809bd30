/** compose/classify.go read backwards: what an image reference of the usual shape is classified as. */
module ImageRead {
  import opened Wrappers
  import opened Strings
  import opened Classify

  predicate Unspaced(s: string) {
    forall i | 0 <= i < |s| :: !IsSpace(s[i])
  }

  /** A registry host, recognisable by its dot or its port. */
  predicate IsRegistry(host: string) {
    '/' !in host && ('.' in host || ':' in host)
  }

  /** A repository name without a registry in front of it. */
  predicate IsPlain(base: string) {
    && ':' !in base && !("docker.io/" <= base) && !("library/" <= base)
    && (Index(base, '/') >= 0 ==> '.' !in base[..Index(base, '/')])
  }

  function RepoText(registry: Option<string>, library: bool, base: string): string {
    (if registry.Some? then registry.value + "/" else "") + ((if library then "library/" else "") + base)
  }

  // ----- the repository -----

  lemma FirstSlash(host: string, rest: string)
    requires '/' !in host
    ensures var s := host + ("/" + rest); Index(s, '/') == |host| && s[..|host|] == host && s[|host| + 1..] == rest
  {
    var s := host + ("/" + rest);
    assert s[|host|] == '/';
    assert forall i | 0 <= i < |host| :: s[i] == host[i];
  }

  lemma LibraryCut(library: bool, base: string)
    requires !("library/" <= base)
    ensures TrimPrefix((if library then "library/" else "") + base, "library/") == base
  {
    if library {
      assert "library/" <= "library/" + base;
    } else {
      assert "" + base == base;
    }
  }

  /** A text that starts with a word and a slash has that word as its first segment. */
  lemma PrefixIsSegment(word: string, host: string, rest: string)
    requires '/' !in word && '/' !in host && word + "/" <= host + ("/" + rest)
    ensures word == host
  {
    var s := host + ("/" + rest);
    assert (word + "/")[|word|] == '/' == s[|word|];
    assert forall i | 0 <= i < |word| :: s[i] == (word + "/")[i] == word[i];
    assert s[|host|] == '/';
    assert s[..|word|] == word && s[..|host|] == host;
  }

  lemma PlainKept(base: string)
    requires IsPlain(base)
    ensures StripHost(base) == base && BaseImageName(base) == base
  {
  }

  lemma HostStripped(host: string, rest: string)
    requires IsRegistry(host)
    ensures StripHost(host + ("/" + rest)) == TrimPrefix(rest, "library/")
  {
    FirstSlash(host, rest);
  }

  lemma OtherKept(word: string, host: string, rest: string)
    requires '/' !in word && '/' !in host && word != host
    ensures TrimPrefix(host + ("/" + rest), word + "/") == host + ("/" + rest)
  {
    if word + "/" <= host + ("/" + rest) {
      PrefixIsSegment(word, host, rest);
    }
  }

  lemma HubCut(rest: string)
    ensures TrimPrefix("docker.io" + ("/" + rest), "docker.io/") == rest
  {
    var s := "docker.io" + ("/" + rest);
    assert "docker.io/" <= s && s[|"docker.io/"|..] == rest;
  }

  lemma RegistryCut(host: string, library: bool, base: string)
    requires IsRegistry(host) && IsPlain(base)
    ensures BaseImageName(host + ("/" + ((if library then "library/" else "") + base))) == base
  {
    var rest := (if library then "library/" else "") + base;
    var s := host + ("/" + rest);
    LibraryCut(library, base);
    if host == "docker.io" {
      HubCut(rest);
      PlainKept(base);
    } else {
      assert "docker.io" + "/" == "docker.io/" && "library" + "/" == "library/";
      OtherKept("docker.io", host, rest);
      OtherKept("library", host, rest);
      HostStripped(host, rest);
    }
  }

  /** The registry and Docker Hub's library prefix are stripped, and nothing else. */
  lemma BaseRead(registry: Option<string>, library: bool, base: string)
    requires (registry.Some? ==> IsRegistry(registry.value)) && IsPlain(base)
    ensures BaseImageName(RepoText(registry, library, base)) == base
  {
    if registry.Some? {
      var rest := (if library then "library/" else "") + base;
      assert RepoText(registry, library, base) == registry.value + ("/" + rest);
      RegistryCut(registry.value, library, base);
    } else {
      var s := (if library then "library/" else "") + base;
      assert RepoText(registry, library, base) == s;
      LibraryCut(library, base);
      if library {
        assert s[0] == 'l';
      }
      PlainKept(base);
    }
  }

  // ----- the whole reference -----

  function ReferenceText(repo: string, tag: Option<string>, digest: Option<string>): string {
    (repo + if tag.Some? then ":" + tag.value else "") + if digest.Some? then "@" + digest.value else ""
  }

  lemma DigestCut(plain: string, digest: Option<string>, image: string)
    requires '@' !in plain
    requires TrimSpace(image) == plain + if digest.Some? then "@" + digest.value else ""
    ensures Undigested(image) == plain
  {
    var trimmed := TrimSpace(image);
    if digest.Some? {
      assert trimmed[|plain|] == '@' && trimmed[..|plain|] == plain;
      assert forall i | 0 <= i < |plain| :: trimmed[i] == plain[i];
    } else {
      assert trimmed == plain;
    }
  }

  lemma Untrimmed(s: string)
    requires Unspaced(s)
    ensures TrimSpace(s) == s
  {
    assert s[0..] == s;
  }

  lemma ColonLast(repo: string, tag: string)
    requires ':' !in tag && '/' !in tag
    ensures var s := repo + (":" + tag);
            && LastIndex(s, ':') == |repo| && LastIndex(s, '/') < |repo|
            && s[..|repo|] == repo && s[|repo| + 1..] == tag
  {
    var s := repo + (":" + tag);
    assert s[|repo|] == ':';
    assert forall i | |repo| < i < |s| :: s[i] == tag[i - |repo| - 1];
  }

  /** The last colon is the tag's, unless it stands in front of a slash. */
  lemma TagCut(repo: string, tag: Option<string>)
    requires tag.None? ==> LastIndex(repo, ':') <= LastIndex(repo, '/')
    requires tag.Some? ==> ':' !in tag.value && '/' !in tag.value
    ensures SplitTag(repo + if tag.Some? then ":" + tag.value else "") == ImageRef(repo, tag.GetOr(""))
  {
    if tag.Some? {
      ColonLast(repo, tag.value);
    } else {
      assert repo + "" == repo;
    }
  }

  lemma PortBeforeSlash(registry: Option<string>, library: bool, base: string)
    requires ':' !in base
    ensures var repo := RepoText(registry, library, base); LastIndex(repo, ':') <= LastIndex(repo, '/')
  {
    var rest := (if library then "library/" else "") + base;
    assert ':' !in rest;
    var repo := RepoText(registry, library, base);
    if registry.Some? {
      var n := |registry.value|;
      assert repo[n] == '/';
      assert forall i | n < i < |repo| :: repo[i] == rest[i - n - 1];
    } else {
      assert repo == rest;
    }
  }

  /** The reference is this repository, with this tag and this digest if there are any. */
  predicate Reads(image: string, repo: string, tag: Option<string>, digest: Option<string>) {
    && '@' !in repo && (tag.None? ==> LastIndex(repo, ':') <= LastIndex(repo, '/'))
    && (tag.Some? ==> ':' !in tag.value && '/' !in tag.value && '@' !in tag.value)
    && TrimSpace(image) == ReferenceText(repo, tag, digest)
  }

  /** The reference gives its repository, in lower case, and its tag back. */
  lemma PartsRead(repo: string, tag: Option<string>, digest: Option<string>, image: string)
    requires Reads(image, repo, tag, digest)
    ensures ImageParts(image) == ImageRef(ToLower(repo), tag.GetOr(""))
  {
    var plain := repo + if tag.Some? then ":" + tag.value else "";
    assert '@' !in plain;
    DigestCut(plain, digest, image);
    TagCut(repo, tag);
  }

  lemma {:induction false} LowerKeepsLast(s: string, c: char)
    requires c == ':' || c == '/'
    ensures LastIndex(ToLower(s), c) == LastIndex(s, c)
    decreases |s|
  {
    if s != "" {
      var n := |s| - 1;
      assert ToLower(s)[..n] == ToLower(s[..n]);
      LowerKeepsLast(s[..n], c);
    }
  }

  /**
   Which addon an image becomes depends on the base name of its repository in lower case alone, and its version on
   the tag.
   */
  lemma ClassifyRead(repo: string, registry: Option<string>, library: bool, base: string, tag: Option<string>,
                     digest: Option<string>, image: string)
    requires (registry.Some? ==> IsRegistry(registry.value)) && IsPlain(base)
    requires ToLower(repo) == RepoText(registry, library, base) && '@' !in repo
    requires tag.Some? ==> ':' !in tag.value && '/' !in tag.value && '@' !in tag.value
    requires TrimSpace(image) == ReferenceText(repo, tag, digest)
    ensures ClassifyDatastore(image) == ClassifyName(base, tag.GetOr(""))
  {
    PortBeforeSlash(registry, library, base);
    LowerKeepsLast(repo, ':');
    LowerKeepsLast(repo, '/');
    PartsRead(repo, tag, digest, image);
    BaseRead(registry, library, base);
  }

  lemma DigitsRead(digits: string, rest: string)
    requires forall i | 0 <= i < |digits| :: IsDigit(digits[i])
    requires rest != "" ==> !IsDigit(rest[0])
    ensures LeadingDigits(digits + rest) == digits
  {
    var t := digits + rest;
    assert forall i | 0 <= i < |digits| :: t[i] == digits[i];
    if rest == "" {
      assert t == digits;
    } else {
      assert t[|digits|] == rest[0] && t[..|digits|] == digits;
    }
  }

  lemma TagUnspaced(digits: string, rest: string)
    requires (forall i | 0 <= i < |digits| :: IsDigit(digits[i])) && Unspaced(rest)
    ensures Unspaced(digits + rest)
  {
  }

  /** The version is the tag's leading number. */
  lemma MajorVersionRead(digits: string, rest: string)
    requires forall i | 0 <= i < |digits| :: IsDigit(digits[i])
    requires Unspaced(rest) && (rest != "" ==> !IsDigit(rest[0]))
    ensures MajorVersion(digits + rest) == digits
  {
    TagUnspaced(digits, rest);
    Untrimmed(digits + rest);
    DigitsRead(digits, rest);
    assert digits != "" ==> (digits + rest)[0] == digits[0];
  }

  // ----- which images are datastores, and in which version -----

  /** The repositories each addon kind is published under. */
  predicate PublishedAs(kind: Kind, base: string) {
    match kind
    case Postgres =>
      base == "postgres" || base == "postgresql" || base == "postgis/postgis" || base == "bitnami/postgresql"
    case Redis => base == "redis" || base == "bitnami/redis"
    case Clickhouse => base == "clickhouse" || base == "clickhouse/clickhouse-server"
    case Redpanda => base == "redpandadata/redpanda" || base == "vectorized/redpanda"
    case Mysql => base == "mysql" || base == "bitnami/mysql"
    case Mongodb => base == "mongo" || base == "mongodb" || base == "bitnami/mongodb"
    case Valkey => base == "valkey/valkey" || base == "bitnami/valkey"
    case Rabbitmq => base == "rabbitmq" || base == "bitnami/rabbitmq"
    case Other(_) => false
  }

  lemma PublishedFound(base: string, kind: Kind)
    requires PublishedAs(kind, base)
    ensures DatastoreImage(base) == Some(kind)
  {
  }

  lemma FoundPublished(base: string)
    requires DatastoreImage(base).Some?
    ensures PublishedAs(DatastoreImage(base).value, base)
  {
  }

  lemma PublishedExact(base: string, kind: Kind)
    ensures DatastoreImage(base) == Some(kind) <==> PublishedAs(kind, base)
  {
    if PublishedAs(kind, base) {
      PublishedFound(base, kind);
    }
    if DatastoreImage(base) == Some(kind) {
      FoundPublished(base);
    }
  }

  predicate Numeral(digits: string) {
    forall i | 0 <= i < |digits| :: 48 <= digits[i] as int <= 57
  }

  /** Redpanda's version is the whole tag, any other kind's the number it begins with; "latest" is none. */
  ghost predicate VersionIs(kind: Kind, tag: string, version: string) {
    if kind.Redpanda? && tag != "" && tag != "latest" then version == tag
    else exists rest :: TrimSpace(tag) == version + rest && Leads(version, rest)
  }

  predicate Leads(digits: string, rest: string) {
    Numeral(digits) && (rest != "" ==> !(48 <= rest[0] as int <= 57))
  }

  lemma LeadingExact(t: string, digits: string)
    ensures LeadingDigits(t) == digits <==> exists rest :: t == digits + rest && Leads(digits, rest)
  {
    if LeadingDigits(t) == digits {
      var rest := t[|digits|..];
      assert t == digits + rest && Leads(digits, rest);
    }
    if rest :| t == digits + rest && Leads(digits, rest) {
      DigitsRead(digits, rest);
    }
  }

  lemma MajorExact(tag: string, version: string)
    ensures MajorVersion(tag) == version <==> exists rest :: TrimSpace(tag) == version + rest && Leads(version, rest)
  {
    var t := TrimSpace(tag);
    LeadingExact(t, version);
    LeadingExact(t, LeadingDigits(t));
    assert t == "latest" ==> t[0] == 'l';
  }

  /** A repository becomes an addon of a kind and version exactly if that kind is published there, by its tag. */
  lemma NameExact(base: string, tag: string, kind: Kind, version: string)
    ensures ClassifyName(base, tag) == Some(Datastore(kind, version))
       <==> PublishedAs(kind, base) && VersionIs(kind, tag, version)
  {
    PublishedExact(base, kind);
    MajorExact(tag, version);
  }

  /** So does a whole reference, wherever it is pulled from. */
  lemma ImageExact(repo: string, registry: Option<string>, library: bool, base: string, tag: Option<string>,
                   digest: Option<string>, image: string, kind: Kind, version: string)
    requires (registry.Some? ==> IsRegistry(registry.value)) && IsPlain(base)
    requires ToLower(repo) == RepoText(registry, library, base) && '@' !in repo
    requires tag.Some? ==> ':' !in tag.value && '/' !in tag.value && '@' !in tag.value
    requires TrimSpace(image) == ReferenceText(repo, tag, digest)
    ensures ClassifyDatastore(image) == Some(Datastore(kind, version))
       <==> PublishedAs(kind, base) && VersionIs(kind, tag.GetOr(""), version)
  {
    ClassifyRead(repo, registry, library, base, tag, digest, image);
    NameExact(base, tag.GetOr(""), kind, version);
  }

  // ----- every reference has a reading -----

  /** The image a reference names: its repository in lower case, under its tag or else "latest". */
  ghost predicate Names(image: string, ref: ImageRef) {
    exists repo, tag, digest :: Reads(image, repo, tag, digest) && ref.repo == ToLower(repo)
                                && ref.tag == Latest(tag.GetOr(""))
  }

  function Latest(tag: string): string {
    if tag == "" then "latest" else tag
  }

  lemma IndexLeast(s: string, c: char)
    ensures forall i | 0 <= i < (if Index(s, c) < 0 then |s| else Index(s, c)) :: s[i] != c
  {
  }

  lemma CutAt(s: string, i: nat)
    requires i < |s|
    ensures s == s[..i] + ([s[i]] + s[i + 1..])
  {
  }

  lemma DigestSplit(image: string) returns (digest: Option<string>)
    ensures TrimSpace(image) == Undigested(image) + if digest.Some? then "@" + digest.value else ""
    ensures '@' !in Undigested(image)
  {
    var trimmed := TrimSpace(image);
    var at := Index(trimmed, '@');
    IndexLeast(trimmed, '@');
    if at < 0 {
      digest := None;
      assert trimmed + "" == trimmed;
    } else {
      digest := Some(trimmed[at + 1..]);
      CutAt(trimmed, at);
    }
  }

  lemma TagSplit(plain: string) returns (tag: Option<string>)
    ensures var ref := SplitTag(plain);
            && plain == ref.repo + (if tag.Some? then ":" + tag.value else "") && ref.tag == tag.GetOr("")
            && (tag.None? ==> LastIndex(ref.repo, ':') <= LastIndex(ref.repo, '/'))
  {
    var slash, colon := LastIndex(plain, '/'), LastIndex(plain, ':');
    tag := None;
    if colon > slash {
      tag := Some(plain[colon + 1..]);
      assert plain[colon..] == ":" + plain[colon + 1..];
      assert plain == plain[..colon] + plain[colon..];
    } else {
      assert plain + "" == plain;
    }
  }

  /** Every text has one reading as a reference, so the image it names is the one the parts give. */
  lemma NamesExact(image: string, ref: ImageRef)
    ensures Names(image, ref) <==> ref == ImageParts(image).(tag := Latest(ImageParts(image).tag))
  {
    var digest := DigestSplit(image);
    var plain := Undigested(image);
    var tag := TagSplit(plain);
    var repo := SplitTag(plain).repo;
    SplitTagExact(plain);
    assert Reads(image, repo, tag, digest);
    forall r, t, d | Reads(image, r, t, d) ensures ImageParts(image) == ImageRef(ToLower(r), t.GetOr("")) {
      PartsRead(r, t, d, image);
    }
  }
}
