/** compose/classify.go: which images become managed addons. */
module Classify {
  import opened Wrappers
  import opened Strings

  datatype ImageRef = ImageRef(repo: string, tag: string)

  /** The reference without white space around it and without a digest. */
  function Undigested(image: string): string {
    var trimmed := TrimSpace(image);
    var at := Index(trimmed, '@');
    if at >= 0 then trimmed[..at] else trimmed
  }

  /** A ':' separates a tag unless a '/' comes after it: then it belongs to the registry's port. */
  function SplitTag(plain: string): ImageRef {
    var slash, colon := LastIndex(plain, '/'), LastIndex(plain, ':');
    if colon > slash then ImageRef(plain[..colon], plain[colon + 1..]) else ImageRef(plain, "")
  }

  function ImageParts(image: string): ImageRef {
    var ref := SplitTag(Undigested(image));
    ref.(repo := ToLower(ref.repo))
  }

  ghost predicate Tagged(plain: string) {
    exists i | 0 <= i < |plain| :: plain[i] == ':' && forall j | i < j < |plain| :: plain[j] != '/'
  }

  /** The parts make up the reference again, and the tag holds no separator of its own. */
  lemma SplitTagExact(plain: string)
    ensures var ref := SplitTag(plain);
            && ':' !in ref.tag && '/' !in ref.tag
            && plain == (if Tagged(plain) then ref.repo + ":" + ref.tag else ref.repo)
            && (Tagged(plain) || ref.tag == "")
  {
    var slash, colon := LastIndex(plain, '/'), LastIndex(plain, ':');
    if colon > slash {
      assert plain[colon] == ':';
      assert plain == plain[..colon] + ":" + plain[colon + 1..];
    }
  }

  /** A first segment with a dot or a port is a registry host. */
  function StripHost(repo: string): string {
    var i := Index(repo, '/');
    if i >= 0 && ('.' in repo[..i] || ':' in repo[..i]) then TrimPrefix(repo[i + 1..], "library/") else repo
  }

  function BaseImageName(repo: string): string {
    StripHost(TrimPrefix(TrimPrefix(repo, "docker.io/"), "library/"))
  }

  /** The kinds the addon chart implements; Other stands for any name it does not know. */
  datatype Kind = Postgres | Redis | Clickhouse | Redpanda | Mysql | Mongodb | Valkey | Rabbitmq | Other(name: string)

  function DatastoreImage(base: string): (kind: Option<Kind>)
    ensures kind.Some? ==> !kind.value.Other?
  {
    if base == "postgres" || base == "postgresql" || base == "postgis/postgis" || base == "bitnami/postgresql" then
      Some(Postgres)
    else if base == "redis" || base == "bitnami/redis" then Some(Redis)
    else if base == "clickhouse/clickhouse-server" || base == "clickhouse" then Some(Clickhouse)
    else if base == "redpandadata/redpanda" || base == "vectorized/redpanda" then Some(Redpanda)
    else if base == "mysql" || base == "bitnami/mysql" then Some(Mysql)
    else if base == "mongo" || base == "mongodb" || base == "bitnami/mongodb" then Some(Mongodb)
    else if base == "valkey/valkey" || base == "bitnami/valkey" then Some(Valkey)
    else if base == "rabbitmq" || base == "bitnami/rabbitmq" then Some(Rabbitmq)
    else None
  }

  predicate IsDigit(c: char) {
    '0' <= c <= '9'
  }

  function LeadingDigits(t: string): string {
    var end := IndexFrom(t, c => !IsDigit(c), 0);
    if end < 0 then t else t[..end]
  }

  function MajorVersion(tag: string): string {
    var t := TrimSpace(tag);
    if t == "" || t == "latest" then "" else LeadingDigits(t)
  }

  datatype Datastore = Datastore(kind: Kind, version: string)

  /** Which addon a repository's base name becomes, and in which version. */
  function ClassifyName(base: string, tag: string): (d: Option<Datastore>)
    ensures d.Some? ==> !d.value.kind.Other?
  {
    var kind := DatastoreImage(base);
    if kind.None? then None
    else if kind == Some(Redpanda) && tag != "" && tag != "latest" then Some(Datastore(Redpanda, tag))
    else Some(Datastore(kind.value, MajorVersion(tag)))
  }

  function ClassifyDatastore(image: string): (d: Option<Datastore>)
    ensures d.Some? ==> !d.value.kind.Other?
  {
    var ref := ImageParts(image);
    ClassifyName(BaseImageName(ref.repo), ref.tag)
  }
}
