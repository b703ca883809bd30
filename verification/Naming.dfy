/**
 Service names for a Coolify migration: cli/cmd/kusoCli/migrate.go (assignServiceSlugs)
 over coolify/mapping.go (ServiceSlugFromApp).
 */
module Naming {
  import opened Wrappers
  import opened Strings
  import opened Slug
  import opened SlugAlloc
  import opened Sorting

  /** `ref` is the pointer the source keys its result by: equal values are one and the same application. */
  datatype App = App(ref: int, uuid: string, name: string, gitRepository: string)

  /** An inventory item that is no application carries None. */
  type Item = Option<App>

  function AfterSlash(repository: string): string {
    repository[LastIndex(repository, '/') + 1..]
  }

  function BeforeColon(segment: string): string {
    var colon := Index(segment, ':');
    if colon >= 0 then segment[..colon] else segment
  }

  function RepoName(repository: string): string {
    TrimSuffix(BeforeColon(AfterSlash(repository)), ".git")
  }

  lemma LastSegmentRead(prefix: string, segment: string)
    requires (prefix == "" || prefix[|prefix| - 1] == '/') && '/' !in segment
    ensures AfterSlash(prefix + segment) == segment
  {
    var s := prefix + segment;
    assert prefix != "" ==> s[|prefix| - 1] == '/';
    assert forall i | |prefix| <= i < |s| :: s[i] == segment[i - |prefix|];
    assert LastIndex(s, '/') == |prefix| - 1;
  }

  lemma BranchCut(head: string, branch: string)
    requires ':' !in head && (branch != "" ==> branch[0] == ':')
    ensures BeforeColon(head + branch) == head
  {
    var s := head + branch;
    if branch == "" {
      assert s == head;
    } else {
      assert s[|head|] == ':';
    }
  }

  lemma GitCut(base: string, git: bool)
    requires git || !HasSuffix(base, ".git")
    ensures TrimSuffix(base + if git then ".git" else "", ".git") == base
  {
    if git {
      assert (base + ".git")[|base|..] == ".git";
    } else {
      assert base + "" == base;
    }
  }

  /** owner/base, with ".git" or without, with a ":branch" or without, names base. */
  lemma RepoNameRead(owner: string, base: string, git: bool, branch: string)
    requires owner == "" || owner[|owner| - 1] == '/'
    requires '/' !in base && ':' !in base && (git || !HasSuffix(base, ".git"))
    requires (branch != "" ==> branch[0] == ':') && '/' !in branch
    ensures RepoName(owner + ((base + if git then ".git" else "") + branch)) == base
  {
    var head := base + if git then ".git" else "";
    assert '/' !in head && ':' !in head;
    assert '/' !in head + branch;
    LastSegmentRead(owner, head + branch);
    BranchCut(head, branch);
    GitCut(base, git);
  }

  lemma LastSegmentOfTail(head: string, tail: string)
    requires '/' in tail
    ensures AfterSlash(head + tail) == AfterSlash(tail)
  {
    var s, i := head + tail, LastIndex(tail, '/');
    assert i >= 0;
    assert s[|head| + i] == '/';
    assert forall j | |head| <= j < |s| :: s[j] == tail[j - |head|];
    assert LastIndex(s, '/') == |head| + i;
  }

  /** The name is read right exactly if the branch holds no '/', or happens to end in the same name. */
  lemma RepoNameExact(owner: string, base: string, git: bool, branch: string)
    requires owner == "" || owner[|owner| - 1] == '/'
    requires '/' !in base && ':' !in base && (git || !HasSuffix(base, ".git"))
    requires branch != "" ==> branch[0] == ':'
    ensures RepoName(owner + ((base + if git then ".git" else "") + branch)) == base
       <==> '/' !in branch || RepoName(branch) == base
  {
    if '/' in branch {
      var head := base + if git then ".git" else "";
      LastSegmentOfTail(head, branch);
      assert '/' in head + branch;
      LastSegmentOfTail(owner, head + branch);
    } else {
      RepoNameRead(owner, base, git, branch);
    }
  }

  /** A branch that holds a '/' is taken for the repository: only what follows the last '/' counts. */
  lemma BranchSlashMisread(repository: string, branchEnd: string)
    requires '/' !in branchEnd
    ensures RepoName(repository + "/" + branchEnd) == RepoName(branchEnd)
  {
    LastSegmentRead(repository + "/", branchEnd);
    LastSegmentRead("", branchEnd);
    assert "" + branchEnd == branchEnd;
  }

  lemma PlainNameRead(name: string)
    requires '/' !in name && ':' !in name && !HasSuffix(name, ".git")
    ensures RepoName(name) == name
  {
    assert LastIndex(name, '/') == -1 && name[0..] == name;
    assert Index(name, ':') == -1;
  }

  lemma NameBehindSlash(repository: string, owner: string, name: string)
    requires '/' !in name && ':' !in name && !HasSuffix(name, ".git") && repository == owner + "/" + name
    ensures RepoName(repository) == name
  {
    BranchSlashMisread(owner, name);
    PlainNameRead(name);
  }

  lemma LoginPlain(name: string)
    requires name == "login"
    ensures '/' !in name && ':' !in name && !HasSuffix(name, ".git")
  {
    assert name[|name| - 4..][0] == 'o';
  }

  /** One such misreading: the repository is acme/api, on the branch feature/login. */
  lemma FeatureBranchMisread(repository: string, name: string)
    requires repository == "acme/api:feature/login" && name == "login"
    ensures RepoName(repository) == name
  {
    LoginPlain(name);
    assert repository == "acme/api:feature" + "/" + name;
    NameBehindSlash(repository, "acme/api:feature", name);
  }

  /** The repository's slug where the repository yields one, else the application's. */
  function ServiceSlugFromApp(a: App): (slug: string)
    ensures Normal(slug)
    ensures slug == SlugOf(if a.gitRepository != "" && SlugOf(RepoName(a.gitRepository)) != UNNAMED
                           then RepoName(a.gitRepository) else a.name)
  {
    SlugNormal(RepoName(a.gitRepository));
    SlugNormal(a.name);
    SlugIsJoin(RepoName(a.gitRepository));
    SlugIsJoin(a.name);
    if a.gitRepository != "" && SlugOfName(RepoName(a.gitRepository)) != UNNAMED
    then SlugOfName(RepoName(a.gitRepository))
    else SlugOfName(a.name)
  }

  // ----- assignServiceSlugs -----

  function Uuid(a: App): string {
    a.uuid
  }

  function Apps(items: seq<Item>): seq<App> {
    if items == [] then []
    else Apps(items[..|items| - 1]) + (match items[|items| - 1] case Some(a) => [a] case None => [])
  }

  method CollectApps(items: seq<Item>) returns (apps: seq<App>)
    ensures apps == Apps(items)
  {
    apps := [];
    for i := 0 to |items|
      invariant apps == Apps(items[..i])
    {
      assert items[..i + 1][..i] == items[..i];
      if items[i].Some? {
        apps := apps + [items[i].value];
      }
    }
    assert items[..|items|] == items;
  }

  /** The naming loop, for any way of deriving a name. */
  method NameInOrder(slugOf: App -> string, apps: seq<App>) returns (out: map<App, string>)
    ensures out == AssignEach(slugOf, apps).slugs
  {
    out := map[];
    var taken := new Taken();
    for i := 0 to |apps|
      invariant fresh(taken)
      invariant AssignEach(slugOf, apps[..i]) == Assigned(out, taken.names)
    {
      assert apps[..i + 1][..i] == apps[..i];
      var slug := taken.UniqueSlug(slugOf(apps[i]));
      out := out[apps[i] := slug];
    }
    assert apps[..|apps|] == apps;
  }

  method AssignServiceSlugs(items: seq<Item>) returns (out: map<App, string>)
    ensures out == AppNames(items)
  {
    var apps := CollectApps(items);
    out := NameInOrder(ServiceSlugFromApp, SortBy(Uuid, apps));
  }

  function AppNames(items: seq<Item>): map<App, string> {
    AssignEach(ServiceSlugFromApp, SortBy(Uuid, Apps(items))).slugs
  }

  /** Every application gets a name, and no two share one, whatever their UUIDs. */
  lemma NamesDistinct(items: seq<Item>)
    ensures forall a :: a in AppNames(items) <==> a in Apps(items)
    ensures forall a, b | a in AppNames(items) && b in AppNames(items) && a != b ::
              AppNames(items)[a] != AppNames(items)[b]
  {
    var s := SortBy(Uuid, Apps(items));
    AssignEachInjective(ServiceSlugFromApp, s);
    SameMembers(s, Apps(items));
  }

  /** Whatever order the inventory lists the applications in, each gets the same name. */
  lemma NamingOrderIndependent(items: seq<Item>, reordered: seq<Item>)
    requires multiset(Apps(items)) == multiset(Apps(reordered)) && DistinctKeys(Uuid, Apps(items))
    ensures AppNames(items) == AppNames(reordered)
  {
    SortOrderIndependent(Uuid, Apps(items), Apps(reordered));
  }

  predicate AllDistinct(apps: seq<App>) {
    forall i, j | 0 <= i < j < |apps| :: apps[i] != apps[j]
  }

  lemma OneMore(names: map<App, string>, a: App, slug: string)
    requires a !in names
    ensures names[a := slug].Values == names.Values + {slug}
  {
    var now := names[a := slug];
    forall x ensures x in now.Values <==> x in names.Values || x == slug {
      if x in names.Values {
        var b :| b in names && names[b] == x;
        assert b in now && now[b] == x;
      }
      assert a in now && now[a] == slug;
    }
  }

  /** What is taken are the names handed out. */
  lemma {:induction false} TakenAreNames(slugOf: App -> string, apps: seq<App>)
    requires AllDistinct(apps)
    ensures AssignEach(slugOf, apps).taken == AssignEach(slugOf, apps).slugs.Values
    decreases |apps|
  {
    if apps != [] {
      var init, last := apps[..|apps| - 1], apps[|apps| - 1];
      TakenAreNames(slugOf, init);
      AssignEachInjective(slugOf, init);
      var before := AssignEach(slugOf, init);
      OneMore(before.slugs, last, FirstFree(slugOf(last), before.taken));
    }
  }

  /** Later turns leave earlier names as they are. */
  lemma {:induction false} EarlierKept(slugOf: App -> string, apps: seq<App>, i: nat)
    requires i <= |apps| && AllDistinct(apps)
    ensures var before, now := AssignEach(slugOf, apps[..i]).slugs, AssignEach(slugOf, apps).slugs;
            forall a | a in before :: a in now && now[a] == before[a]
    decreases |apps|
  {
    if i == |apps| {
      assert apps[..i] == apps;
    } else {
      var init, last := apps[..|apps| - 1], apps[|apps| - 1];
      EarlierKept(slugOf, init, i);
      assert init[..i] == apps[..i];
      AssignEachInjective(slugOf, init);
      AssignEachInjective(slugOf, apps[..i]);
    }
  }

  lemma EarlierKeptAt(slugOf: App -> string, apps: seq<App>, i: nat, a: App)
    requires i <= |apps| && AllDistinct(apps) && a in AssignEach(slugOf, apps[..i]).slugs
    ensures a in AssignEach(slugOf, apps).slugs
    ensures AssignEach(slugOf, apps).slugs[a] == AssignEach(slugOf, apps[..i]).slugs[a]
  {
    EarlierKept(slugOf, apps, i);
  }

  lemma TurnExact(slugOf: App -> string, apps: seq<App>, i: nat)
    requires i < |apps| && AllDistinct(apps)
    ensures apps[i] in AssignEach(slugOf, apps).slugs
    ensures AssignEach(slugOf, apps).slugs[apps[i]]
         == FirstFree(slugOf(apps[i]), AssignEach(slugOf, apps[..i]).slugs.Values)
  {
    var head := apps[..i + 1];
    assert head[..i] == apps[..i] && head[i] == apps[i];
    EarlierKept(slugOf, apps, i + 1);
    TakenAreNames(slugOf, apps[..i]);
  }

  /** The names of the applications with smaller UUIDs. */
  function NamesBefore(names: map<App, string>, a: App): set<string> {
    set b | b in names && Less(b.uuid, a.uuid) :: names[b]
  }

  lemma NamesOfSmaller(before: map<App, string>, now: map<App, string>, a: App)
    requires forall b :: b in before <==> b in now && Less(b.uuid, a.uuid)
    requires forall b | b in before :: now[b] == before[b]
    ensures NamesBefore(now, a) == before.Values
  {
    forall x | x in before.Values ensures x in NamesBefore(now, a) {
      var b :| b in before && before[b] == x;
      assert b in now && now[b] == x;
    }
  }

  lemma Named(slugOf: App -> string, apps: seq<App>, b: App)
    ensures b in AssignEach(slugOf, apps).slugs <==> b in apps
  {
    AssignEachInjective(slugOf, apps);
  }

  lemma BeforeTurn(slugOf: App -> string, apps: seq<App>, i: nat)
    requires i < |apps| && AllDistinct(apps) && Sorted(Uuid, apps) && DistinctKeys(Uuid, apps)
    ensures NamesBefore(AssignEach(slugOf, apps).slugs, apps[i]) == AssignEach(slugOf, apps[..i]).slugs.Values
  {
    var before, now := AssignEach(slugOf, apps[..i]).slugs, AssignEach(slugOf, apps).slugs;
    forall b ensures b in before <==> b in now && Less(b.uuid, apps[i].uuid) {
      Named(slugOf, apps[..i], b);
      Named(slugOf, apps, b);
      SmallerBefore(apps, i, b);
    }
    forall b | b in before ensures now[b] == before[b] {
      EarlierKeptAt(slugOf, apps, i, b);
    }
    NamesOfSmaller(before, now, apps[i]);
  }

  /** An application's name is the first free one of its slug's, after the applications with smaller UUIDs. */
  lemma NamedByUuid(items: seq<Item>, a: App)
    requires DistinctKeys(Uuid, Apps(items)) && a in Apps(items)
    ensures a in AppNames(items)
    ensures AppNames(items)[a] == FirstFree(ServiceSlugFromApp(a), NamesBefore(AppNames(items), a))
  {
    var s := SortBy(Uuid, Apps(items));
    SortSorts(Uuid, Apps(items));
    PermutedDistinct(Uuid, Apps(items), s);
    SameMembers(s, Apps(items));
    var i :| 0 <= i < |s| && s[i] == a;
    forall j, k | 0 <= j < k < |s| ensures s[j] != s[k] {
      assert Uuid(s[j]) != Uuid(s[k]);
    }
    TurnExact(ServiceSlugFromApp, s, i);
    BeforeTurn(ServiceSlugFromApp, s, i);
  }

  lemma SmallerBefore(s: seq<App>, i: nat, b: App)
    requires i < |s| && Sorted(Uuid, s) && DistinctKeys(Uuid, s)
    ensures b in s[..i] <==> b in s && Less(b.uuid, s[i].uuid)
  {
    if b in s {
      var j :| 0 <= j < |s| && s[j] == b;
      LessOrders(Uuid(b), Uuid(s[i]), Uuid(b));
      if j < i {
        assert !Less(Uuid(s[i]), Uuid(s[j])) && Uuid(s[j]) != Uuid(s[i]);
      } else if i < j {
        assert !Less(Uuid(s[j]), Uuid(s[i]));
      }
    }
  }
}
