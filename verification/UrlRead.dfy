/** compose/envref.go: urlHosts reads the hosts off every URL of the shape its comment gives. */
module UrlRead {
  import opened Wrappers
  import opened Strings
  import opened EnvRef

  datatype HostPort = HostPort(host: string, port: Option<string>) {
    function Text(): string {
      if port.Some? then host + (":" + port.value) else host
    }

    /** Neither part holds a character that ends or splits the list, and the port holds no colon. */
    predicate Clean() {
      Whole(host) && (port.Some? ==> Whole(port.value) && ':' !in port.value)
    }

    /** A host may hold colons only in front of a port: its last colon is taken for the port's. */
    predicate Legible() {
      port.Some? || ':' !in host
    }
  }

  predicate Whole(s: string) {
    forall i | 0 <= i < |s| :: !EndsAuthority(s[i]) && s[i] != ',' && s[i] != '@'
  }

  predicate CleanAll(hosts: seq<HostPort>) {
    forall i | 0 <= i < |hosts| :: hosts[i].Clean()
  }

  predicate AllLegible(hosts: seq<HostPort>) {
    forall i | 0 <= i < |hosts| :: hosts[i].Legible()
  }

  function Joined(hosts: seq<HostPort>): string
    requires hosts != []
  {
    if |hosts| == 1 then hosts[0].Text() else hosts[0].Text() + ("," + Joined(hosts[1..]))
  }

  function Texts(hosts: seq<HostPort>): seq<string> {
    seq(|hosts|, i requires 0 <= i < |hosts| => hosts[i].Text())
  }

  function Hosts(hosts: seq<HostPort>): seq<string> {
    seq(|hosts|, i requires 0 <= i < |hosts| => hosts[i].host)
  }

  // ----- the pieces -----

  lemma {:induction false} SchemeEndAt(v: string, i: nat, n: nat)
    requires i <= n <= |v| - 3 && v[n..n + 3] == "://" && forall k | i <= k < n :: v[k] != ':'
    ensures SchemeEnd(v, i) == n
    decreases n - i
  {
    if i < n {
      assert v[i..i + 3][0] == v[i];
      SchemeEndAt(v, i + 1, n);
    }
  }

  lemma TextClean(h: HostPort)
    requires h.Clean()
    ensures forall i | 0 <= i < |h.Text()| :: !EndsAuthority(h.Text()[i]) && h.Text()[i] != ',' && h.Text()[i] != '@'
  {
  }

  lemma PortCut(host: string, port: string)
    requires ':' !in port
    ensures HostOf(host + (":" + port)) == host
  {
    var s := host + (":" + port);
    assert s[|host|] == ':';
    assert forall i | |host| < i < |s| :: s[i] == port[i - |host| - 1];
    assert LastIndex(s, ':') == |host|;
  }

  lemma HostRead(h: HostPort)
    requires h.Clean()
    ensures HostOf(h.Text()) == h.host <==> h.Legible()
  {
    if h.port.Some? {
      PortCut(h.host, h.port.value);
    }
  }

  /** A bracketed address without a port loses its end. */
  lemma BareAddressCut()
    ensures HostOf("[::1]") == "[:"
  {
    PortCut("[:", "1]");
    assert "[:" + (":" + "1]") == "[::1]";
  }

  lemma {:induction false} JoinedClean(hosts: seq<HostPort>)
    requires hosts != [] && CleanAll(hosts)
    ensures forall i | 0 <= i < |Joined(hosts)| :: !EndsAuthority(Joined(hosts)[i]) && Joined(hosts)[i] != '@'
  {
    TextClean(hosts[0]);
    if |hosts| > 1 {
      JoinedClean(hosts[1..]);
    }
  }

  lemma SplitAt(s: string, n: nat)
    requires n < |s| && s[n] == ',' && forall i | 0 <= i < n :: s[i] != ','
    ensures SplitOn(s, ',') == [s[..n]] + SplitOn(s[n + 1..], ',')
  {
    assert Index(s, ',') == n;
  }

  lemma JoinedAt(first: string, rest: string)
    requires ',' !in first
    ensures var s := first + ("," + rest);
            && s[|first|] == ',' && s[..|first|] == first && s[|first| + 1..] == rest
            && forall i | 0 <= i < |first| :: s[i] != ','
  {
  }

  lemma SplitFirst(first: string, rest: string)
    requires ',' !in first
    ensures SplitOn(first + ("," + rest), ',') == [first] + SplitOn(rest, ',')
  {
    JoinedAt(first, rest);
    SplitAt(first + ("," + rest), |first|);
  }

  lemma SplitNone(s: string)
    requires ',' !in s
    ensures SplitOn(s, ',') == [s]
  {
    assert Index(s, ',') == -1;
  }

  lemma TextsStep(hosts: seq<HostPort>)
    requires hosts != []
    ensures Texts(hosts) == [hosts[0].Text()] + Texts(hosts[1..])
  {
  }

  lemma {:induction false} SplitJoined(hosts: seq<HostPort>)
    requires hosts != [] && CleanAll(hosts)
    ensures SplitOn(Joined(hosts), ',') == Texts(hosts)
  {
    TextClean(hosts[0]);
    TextsStep(hosts);
    if |hosts| == 1 {
      SplitNone(hosts[0].Text());
    } else {
      SplitFirst(hosts[0].Text(), Joined(hosts[1..]));
      SplitJoined(hosts[1..]);
    }
  }

  /** The authority ends where the path, query or fragment starts. */
  lemma AuthorityRead(authority: string, tail: string)
    requires forall i | 0 <= i < |authority| :: !EndsAuthority(authority[i])
    requires tail != "" ==> EndsAuthority(tail[0])
    ensures AuthorityOf(authority + tail) == authority
  {
    var rest := authority + tail;
    if tail == "" {
      assert rest == authority;
    } else {
      assert EndsAuthority(rest[|authority|]);
      assert rest[..|authority|] == authority;
    }
  }

  lemma UserinfoDropped(user: string, hosts: string)
    requires forall i | 0 <= i < |hosts| :: hosts[i] != '@'
    requires user == "" || user[|user| - 1] == '@'
    ensures var a := user + hosts; a[LastIndex(a, '@') + 1..] == hosts
  {
    var a := user + hosts;
    assert user != "" ==> a[|user| - 1] == '@';
    assert LastIndex(a, '@') == |user| - 1;
  }

  lemma HostListRead(hosts: seq<HostPort>)
    requires hosts != [] && CleanAll(hosts)
    ensures HostList(Joined(hosts)) == Hosts(hosts) <==> AllLegible(hosts)
  {
    SplitJoined(hosts);
    var list := HostList(Joined(hosts));
    assert |list| == |hosts|;
    forall i | 0 <= i < |hosts| ensures list[i] == Hosts(hosts)[i] <==> hosts[i].Legible() {
      assert list[i] == HostOf(Texts(hosts)[i]);
      HostRead(hosts[i]);
    }
    if AllLegible(hosts) {
      assert list == Hosts(hosts);
    }
  }

  lemma SchemeRead(scheme: string, rest: string, v: string)
    requires scheme != "" && forall i | 0 <= i < |scheme| :: scheme[i] != ':'
    requires v == scheme + ("://" + rest)
    ensures UrlHosts(v) == HostsAfterScheme(rest)
  {
    assert v[|scheme|..|scheme| + 3] == "://" && v[|scheme| + 3..] == rest;
    SchemeEndAt(v, 0, |scheme|);
  }

  lemma RestRead(user: string, hosts: seq<HostPort>, tail: string)
    requires (user == "" || user[|user| - 1] == '@') && forall i | 0 <= i < |user| :: !EndsAuthority(user[i])
    requires hosts != [] && CleanAll(hosts)
    requires tail != "" ==> EndsAuthority(tail[0])
    ensures HostsAfterScheme((user + Joined(hosts)) + tail) == Hosts(hosts) <==> AllLegible(hosts)
  {
    JoinedClean(hosts);
    AuthorityRead(user + Joined(hosts), tail);
    UserinfoDropped(user, Joined(hosts));
    HostListRead(hosts);
  }

  // ----- the whole -----

  /** scheme://[userinfo@]host[:port][,host...] with anything behind it gives its hosts exactly if each is legible. */
  lemma UrlHostsRead(scheme: string, user: string, hosts: seq<HostPort>, tail: string, v: string)
    requires scheme != "" && forall i | 0 <= i < |scheme| :: scheme[i] != ':'
    requires (user == "" || user[|user| - 1] == '@') && forall i | 0 <= i < |user| :: !EndsAuthority(user[i])
    requires hosts != [] && CleanAll(hosts)
    requires tail != "" ==> EndsAuthority(tail[0])
    requires v == scheme + ("://" + ((user + Joined(hosts)) + tail))
    ensures UrlHosts(v) == Hosts(hosts) <==> AllLegible(hosts)
  {
    SchemeRead(scheme, (user + Joined(hosts)) + tail, v);
    RestRead(user, hosts, tail);
  }
}
