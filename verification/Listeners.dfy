/** The listeners of a deploy's Gateway and the HTTP/3 policy over them. Lower-casing and the content
    hash are parameters; of the hash only its form is used, eight hexadecimal digits. */
module Listeners {
  import opened SortedStrings

  type Hash = string -> string

  ghost predicate Digest(hash: Hash) {
    forall h :: |hash(h)| == 8 && forall i :: 0 <= i < 8 ==> ('0' <= hash(h)[i] <= '9' || 'a' <= hash(h)[i] <= 'f')
  }

  ghost predicate InjectiveOn(hash: Hash, hosts: seq<string>) {
    forall a, b :: a in hosts && b in hosts && hash(a) == hash(b) ==> a == b
  }

  datatype Protocol = Http | Https

  function Prefix(p: Protocol): string {
    if p.Http? then "http" else "https"
  }

  function PortOf(p: Protocol): nat {
    if p.Http? then 80 else 443
  }

  datatype Listener = Listener(name: string, host: string, protocol: Protocol, port: nat)

  // ----- names

  predicate Alnum(c: char) {
    'a' <= c <= 'z' || '0' <= c <= '9'
  }

  predicate Label(s: string) {
    forall i :: 0 <= i < |s| ==> Alnum(s[i]) || s[i] == '-'
  }

  /** Each run of other characters becomes one dash. */
  function Dashed(s: string, inRun: bool): string {
    if s == "" then ""
    else if Alnum(s[0]) then [s[0]] + Dashed(s[1..], false)
    else if inRun then Dashed(s[1..], true)
    else "-" + Dashed(s[1..], true)
  }

  function TrimLeft(s: string): string {
    if s != "" && s[0] == '-' then TrimLeft(s[1..]) else s
  }

  function TrimRight(s: string): string {
    if s != "" && s[|s| - 1] == '-' then TrimRight(s[..|s| - 1]) else s
  }

  function Normalized(host: string, lower: string -> string): string {
    var s := TrimRight(TrimLeft(Dashed(lower(if host == "" then "host" else host), false)));
    if s == "" then "host" else s
  }

  /** What is left of the hostname once the name has to fit in 63 characters. */
  function Clipped(p: Protocol, host: string, lower: string -> string): string {
    var s, n := Normalized(host, lower), 63 - |Prefix(p)| - 8 - 2;
    TrimRight(if |s| <= n then s else s[..n])
  }

  function ListenerName(p: Protocol, host: string, lower: string -> string, hash: Hash): string {
    Prefix(p) + "-" + Clipped(p, host, lower) + "-" + hash(host)
  }

  // ----- the Gateway and the policy

  function NonEmpty(hosts: seq<string>): seq<string> {
    if hosts == [] then [] else (if hosts[0] == "" then [] else [hosts[0]]) + NonEmpty(hosts[1..])
  }

  function ListenersOf(hosts: seq<string>, tls: bool, lower: string -> string, hash: Hash): seq<Listener> {
    if hosts == [] then [] else
    [Listener(ListenerName(Http, hosts[0], lower, hash), hosts[0], Http, PortOf(Http))]
    + (if tls then [Listener(ListenerName(Https, hosts[0], lower, hash), hosts[0], Https, PortOf(Https))] else [])
    + ListenersOf(hosts[1..], tls, lower, hash)
  }

  function GatewayListeners(hosts: seq<string>, tls: bool, lower: string -> string, hash: Hash): seq<Listener> {
    ListenersOf(SortedDistinct(NonEmpty(hosts)), tls, lower, hash)
  }

  function SectionNames(hosts: seq<string>, lower: string -> string, hash: Hash): seq<string> {
    if hosts == [] then [] else [ListenerName(Https, hosts[0], lower, hash)] + SectionNames(hosts[1..], lower, hash)
  }

  /** The listeners the policy names; none when there is no policy. */
  function PolicyTargets(hosts: seq<string>, tls: bool, http3: bool, lower: string -> string, hash: Hash): set<string> {
    if tls && http3 then SetOf(SectionNames(hosts, lower, hash)) else {}
  }

  ghost predicate HttpsListener(ls: seq<Listener>, name: string) {
    exists l :: l in ls && l.protocol.Https? && l.name == name
  }

  // ----- a name is a label

  lemma {:induction false} DashedLabel(s: string, inRun: bool)
    ensures Label(Dashed(s, inRun))
  {
    if s != "" { DashedLabel(s[1..], !Alnum(s[0])); }
  }

  lemma {:induction false} TrimLeftLabel(s: string)
    requires Label(s)
    ensures Label(TrimLeft(s)) && (TrimLeft(s) != "" ==> Alnum(TrimLeft(s)[0]))
  {
    if s != "" && s[0] == '-' { TrimLeftLabel(s[1..]); }
  }

  /** Only dashes go: what starts with a letter or digit keeps its start. */
  lemma {:induction false} TrimRightLabel(s: string)
    requires Label(s)
    ensures Label(TrimRight(s)) && TrimRight(s) <= s
    ensures TrimRight(s) != "" ==> Alnum(TrimRight(s)[|TrimRight(s)| - 1])
    ensures s != "" && Alnum(s[0]) ==> TrimRight(s) != ""
  {
    if s != "" && s[|s| - 1] == '-' { TrimRightLabel(s[..|s| - 1]); }
  }

  lemma {:induction false} NormalizedLabel(host: string, lower: string -> string)
    ensures var s := Normalized(host, lower); s != "" && Label(s) && Alnum(s[0])
  {
    var low := lower(if host == "" then "host" else host);
    DashedLabel(low, false);
    TrimLeftLabel(Dashed(low, false));
    TrimRightLabel(TrimLeft(Dashed(low, false)));
  }

  lemma {:induction false} ClippedLabel(p: Protocol, host: string, lower: string -> string)
    ensures var s := Clipped(p, host, lower);
      s != "" && Label(s) && Alnum(s[0]) && Alnum(s[|s| - 1]) && |s| <= 63 - |Prefix(p)| - 8 - 2
  {
    NormalizedLabel(host, lower);
    var s, n := Normalized(host, lower), 63 - |Prefix(p)| - 8 - 2;
    TrimRightLabel(if |s| <= n then s else s[..n]);
  }

  /** Whatever the hostname holds, its listener's name is a DNS label: at most 63 characters, letters,
      digits and dashes, a letter or digit at both ends. */
  lemma {:induction false} NameIsLabel(p: Protocol, host: string, lower: string -> string, hash: Hash)
    requires Digest(hash)
    ensures var s := ListenerName(p, host, lower, hash);
      0 < |s| <= 63 && Label(s) && Alnum(s[0]) && Alnum(s[|s| - 1])
  {
    ClippedLabel(p, host, lower);
    var s, h := ListenerName(p, host, lower, hash), hash(host);
    var head := Prefix(p) + "-" + Clipped(p, host, lower) + "-";
    assert s == head + h;
    assert Label(Prefix(p)) && Label(head);
    assert forall i :: |head| <= i < |s| ==> s[i] == h[i - |head|];
  }

  /** The parts can be read off a name. */
  lemma {:induction false} Parts(p: Protocol, c: string, h: string)
    requires |h| == 8
    ensures var s, n := Prefix(p) + "-" + c + "-" + h, |Prefix(p)| + 1;
      |s| == n + |c| + 9 && s[4] == (if p.Http? then '-' else 's') && s[n..n + |c|] == c && s[|s| - 8..] == h
  {
    var s, head := Prefix(p) + "-" + c + "-" + h, Prefix(p) + "-";
    assert s == head + (c + ("-" + h));
    assert head[4] == if p.Http? then '-' else 's';
  }

  /** Two names are the same exactly when protocol, digest and clipped hostname are. */
  lemma {:induction false} NamesEqualExactly(p: Protocol, a: string, q: Protocol, b: string, lower: string -> string, hash: Hash)
    requires Digest(hash)
    ensures ListenerName(p, a, lower, hash) == ListenerName(q, b, lower, hash)
      <==> p == q && hash(a) == hash(b) && Clipped(p, a, lower) == Clipped(q, b, lower)
  {
    Parts(p, Clipped(p, a, lower), hash(a));
    Parts(q, Clipped(q, b, lower), hash(b));
  }

  // ----- what a name keeps of the hostname

  /** A lower-case letter or a digit; every other character is replaced. */
  predicate Kept(c: char) {
    !(c < '0' || '9' < c) || !(c < 'a' || 'z' < c)
  }

  predicate Word(s: string) {
    forall i :: 0 <= i < |s| ==> Kept(s[i])
  }

  predicate Junk(s: string) {
    forall i :: 0 <= i < |s| ==> !Kept(s[i])
  }

  lemma {:induction false} DashedJunk(junk: string, rest: string, inRun: bool)
    requires Junk(junk) && (rest == "" || Kept(rest[0]))
    ensures Dashed(junk + rest, inRun) == (if junk == "" || inRun then "" else "-") + Dashed(rest, false)
    decreases |junk|
  {
    if junk == "" {
      assert junk + rest == rest;
    } else {
      assert (junk + rest)[0] == junk[0] && (junk + rest)[1..] == junk[1..] + rest;
      DashedJunk(junk[1..], rest, true);
    }
  }

  /** A word stays as it is, and a run of other characters between it and the rest is one dash. Every string
      falls into such pieces. */
  lemma {:induction false} DashedExactly(word: string, junk: string, rest: string)
    requires Word(word) && Junk(junk) && (rest == "" || Kept(rest[0]))
    ensures Dashed(word + junk + rest, false) == word + (if junk == "" then "" else "-") + Dashed(rest, false)
    decreases |word|
  {
    if word == "" {
      assert word + junk + rest == junk + rest;
      DashedJunk(junk, rest, false);
    } else {
      var s := word + junk + rest;
      assert s[0] == word[0] && s[1..] == word[1..] + junk + rest;
      DashedExactly(word[1..], junk, rest);
      assert word == [word[0]] + word[1..];
    }
  }

  lemma {:induction false} DashedConcat(a: string, b: string, inRun: bool)
    requires a != "" && Kept(a[|a| - 1])
    ensures Dashed(a + b, inRun) == Dashed(a, inRun) + Dashed(b, false)
    ensures var d := Dashed(a, inRun); d != "" && d[|d| - 1] == a[|a| - 1] && (Kept(a[0]) ==> d[0] == a[0])
    decreases |a|
  {
    assert (a + b)[0] == a[0] && (a + b)[1..] == a[1..] + b;
    if |a| == 1 {
      assert a[1..] == "" && a[1..] + b == b;
      var none: string := "";
      assert Dashed(none, false) == "";
    } else {
      DashedConcat(a[1..], b, !Alnum(a[0]));
    }
  }

  lemma {:induction false} TrimLeftStops(s: string)
    requires s != "" && s[0] != '-'
    ensures TrimLeft(s) == s && TrimLeft("-" + s) == s
  {
    assert ("-" + s)[1..] == s;
  }

  lemma {:induction false} TrimRightStops(s: string)
    requires s != "" && s[|s| - 1] != '-'
    ensures TrimRight(s) == s && TrimRight(s + "-") == s
  {
    assert (s + "-")[..|s|] == s;
  }

  /** What is around the first and the last letter or digit goes, what is between is dashed; a hostname
      without any is named `host`. */
  lemma {:induction false} NormalizedExactly(host: string, lower: string -> string, before: string, core: string, after: string)
    requires lower(if host == "" then "host" else host) == before + core + after && Junk(before) && Junk(after)
    requires if core == "" then true else Kept(core[0]) && Kept(core[|core| - 1])
    ensures Normalized(host, lower) == if core == "" then "host" else Dashed(core, false)
  {
    hide Dashed;
    var s := before + core + after;
    var none: string := "";
    NoneDashed();
    if core == "" {
      assert s == (before + after) + none;
      DashedJunk(before + after, none, false);
      assert TrimLeft("-") == TrimLeft("") == "" by { assert "-"[1..] == ""; }
    } else {
      assert s == before + (core + after) && after == after + none;
      DashedJunk(before, core + after, false);
      DashedConcat(core, after, false);
      DashedJunk(after, none, false);
      var d, tail := Dashed(core, false), if after == "" then "" else "-";
      assert Dashed(s, false) == (if before == "" then "" else "-") + (d + tail);
      assert d + "" == d && "" + (d + tail) == d + tail;
      TrimLeftStops(d + tail);
      TrimRightStops(d);
    }
  }

  lemma {:induction false} NoneDashed()
    ensures Dashed("", false) == ""
  {
  }

  /** A name keeps the whole normalized hostname if it fits, in 49 characters after `http` and 48 after
      `https`, and otherwise that many of its first characters less the dashes they end in. */
  lemma {:induction false} ClippedExactly(p: Protocol, host: string, lower: string -> string)
    ensures var s, c, n := Normalized(host, lower), Clipped(p, host, lower), if p == Http then 49 else 48;
      && (|s| <= n ==> c == s)
      && (|s| > n ==> c <= s[..n] && forall i :: |c| <= i < n ==> s[i] == '-')
  {
    var s, n := Normalized(host, lower), if p == Http then 49 else 48;
    assert |Prefix(p)| == if p == Http then 4 else 5;
    NormalizedEnds(host, lower);
    if |s| <= n { TrimRightStops(s); } else { TrimmedRight(s[..n]); }
  }

  lemma {:induction false} NormalizedEnds(host: string, lower: string -> string)
    ensures var s := Normalized(host, lower); s != "" && s[|s| - 1] != '-'
  {
    var low := lower(if host == "" then "host" else host);
    DashedLabel(low, false);
    TrimLeftLabel(Dashed(low, false));
    TrimRightLabel(TrimLeft(Dashed(low, false)));
  }

  lemma {:induction false} TrimmedRight(s: string)
    ensures TrimRight(s) <= s && forall i :: |TrimRight(s)| <= i < |s| ==> s[i] == '-'
  {
    if s != "" && s[|s| - 1] == '-' { TrimmedRight(s[..|s| - 1]); }
  }

  /** The parts in their order, with the protocol spelled out. */
  lemma {:induction false} NameExactly(p: Protocol, host: string, lower: string -> string, hash: Hash)
    ensures ListenerName(p, host, lower, hash)
      == (if p == Http then "http-" else "https-") + (Clipped(p, host, lower) + ("-" + hash(host)))
  {
    assert Prefix(Http) + "-" == "http-" && Prefix(Https) + "-" == "https-";
  }

  // ----- no two listeners collide

  lemma {:induction false} ListenersExactly(hosts: seq<string>, tls: bool, lower: string -> string, hash: Hash, l: Listener)
    ensures l in ListenersOf(hosts, tls, lower, hash) <==>
      l.host in hosts && (tls || l.protocol.Http?) && l.port == PortOf(l.protocol) && l.name == ListenerName(l.protocol, l.host, lower, hash)
  {
    if hosts != [] {
      ListenersExactly(hosts[1..], tls, lower, hash, l);
      assert l.host in hosts <==> l.host == hosts[0] || l.host in hosts[1..];
      assert l.protocol == Http || l.protocol == Https;
    }
  }

  ghost predicate DistinctTriples(ls: seq<Listener>) {
    forall i, j :: 0 <= i < j < |ls| ==>
      (ls[i].port, ls[i].protocol, ls[i].host) != (ls[j].port, ls[j].protocol, ls[j].host)
  }

  lemma {:induction false} DistinctHostsDistinctTriples(hosts: seq<string>, tls: bool, lower: string -> string, hash: Hash)
    requires StrictlySorted(hosts)
    ensures DistinctTriples(ListenersOf(hosts, tls, lower, hash))
  {
    if hosts != [] {
      DistinctHostsDistinctTriples(hosts[1..], tls, lower, hash);
      var rest := ListenersOf(hosts[1..], tls, lower, hash);
      forall j | 0 <= j < |rest| ensures rest[j].host != hosts[0] {
        ListenersExactly(hosts[1..], tls, lower, hash, rest[j]);
        var k :| 0 <= k < |hosts[1..]| && hosts[1..][k] == rest[j].host;
        assert Less(hosts[0], hosts[k + 1]);
        LessTotal(hosts[0], rest[j].host);
      }
    }
  }

  lemma {:induction false} NonEmptyExactly(hosts: seq<string>, h: string)
    ensures h in NonEmpty(hosts) <==> h in hosts && h != ""
  {
    if hosts != [] {
      NonEmptyExactly(hosts[1..], h);
      assert h in hosts <==> h == hosts[0] || h in hosts[1..];
    }
  }

  /** What stands in a Gateway: cleartext on 80, and with TLS also on 443, for each named host. */
  lemma {:induction false} GatewayListenersExactly(hosts: seq<string>, tls: bool, lower: string -> string, hash: Hash, l: Listener)
    ensures l in GatewayListeners(hosts, tls, lower, hash) <==>
      && l.host in hosts && l.host != "" && (tls || l.protocol == Http)
      && l.port == (if l.protocol == Http then 80 else 443)
      && l.name == ListenerName(l.protocol, l.host, lower, hash)
  {
    ListenersExactly(SortedDistinct(NonEmpty(hosts)), tls, lower, hash, l);
    Named(hosts, l.host);
  }

  /** Hosts in their order, each with the cleartext listener first. */
  lemma {:induction false} ListenersInOrder(hosts: seq<string>, tls: bool, lower: string -> string, hash: Hash, i: nat, j: nat)
    requires StrictlySorted(hosts) && i < j < |ListenersOf(hosts, tls, lower, hash)|
    ensures var a, b := ListenersOf(hosts, tls, lower, hash)[i], ListenersOf(hosts, tls, lower, hash)[j];
      Less(a.host, b.host) || (a.host == b.host && a.protocol == Http && b.protocol == Https)
  {
    var rest, here := ListenersOf(hosts[1..], tls, lower, hash), if tls then 2 else 1;
    if i >= here {
      ListenersInOrder(hosts[1..], tls, lower, hash, i - here, j - here);
    } else if j >= here {
      ListenersExactly(hosts[1..], tls, lower, hash, rest[j - here]);
      var k :| 0 <= k < |hosts[1..]| && hosts[1..][k] == rest[j - here].host;
      assert Less(hosts[0], hosts[k + 1]);
    }
  }

  ghost predicate Serves(ls: seq<Listener>, host: string, p: Protocol) {
    exists l :: l in ls && l.host == host && l.protocol == p
  }

  /** For any host list, repeated and empty entries included: a host has its listeners exactly when it
      is named and not empty, and no two listeners share port, protocol and hostname. */
  lemma {:induction false} MergedListenersNeverCollide(hosts: seq<string>, tls: bool, lower: string -> string, hash: Hash)
    ensures DistinctTriples(GatewayListeners(hosts, tls, lower, hash))
    ensures forall h, p :: Serves(GatewayListeners(hosts, tls, lower, hash), h, p) <==> h in hosts && h != "" && (tls || p.Http?)
  {
    SortedDistinctSorts(NonEmpty(hosts));
    var unique := SortedDistinct(NonEmpty(hosts));
    DistinctHostsDistinctTriples(unique, tls, lower, hash);
    forall h, p ensures Serves(GatewayListeners(hosts, tls, lower, hash), h, p) <==> h in hosts && h != "" && (tls || p.Http?) {
      ServesExactly(hosts, tls, lower, hash, h, p);
    }
  }

  lemma {:induction false} ServesExactly(hosts: seq<string>, tls: bool, lower: string -> string, hash: Hash, h: string, p: Protocol)
    ensures Serves(GatewayListeners(hosts, tls, lower, hash), h, p) <==> h in hosts && h != "" && (tls || p.Http?)
  {
    var unique := SortedDistinct(NonEmpty(hosts));
    Named(hosts, h);
    ListenersExactly(unique, tls, lower, hash, Listener(ListenerName(p, h, lower, hash), h, p, PortOf(p)));
    forall l | l in GatewayListeners(hosts, tls, lower, hash) && l.host == h && l.protocol == p ensures h in unique && (tls || p.Http?) {
      ListenersExactly(unique, tls, lower, hash, l);
    }
  }

  /** Names are distinct too when the digest tells the hosts apart. */
  lemma {:induction false} NamesAreDistinct(hosts: seq<string>, tls: bool, lower: string -> string, hash: Hash, l: Listener, m: Listener)
    requires Digest(hash) && InjectiveOn(hash, hosts)
    requires l in GatewayListeners(hosts, tls, lower, hash) && m in GatewayListeners(hosts, tls, lower, hash) && l != m
    ensures l.name != m.name
  {
    var unique := SortedDistinct(NonEmpty(hosts));
    ListenersExactly(unique, tls, lower, hash, l);
    ListenersExactly(unique, tls, lower, hash, m);
    NamesEqualExactly(l.protocol, l.host, m.protocol, m.host, lower, hash);
    Named(hosts, l.host);
    Named(hosts, m.host);
  }

  lemma {:induction false} Named(hosts: seq<string>, h: string)
    ensures h in SortedDistinct(NonEmpty(hosts)) <==> h in hosts && h != ""
  {
    SortedDistinctSorts(NonEmpty(hosts));
    NonEmptyExactly(hosts, h);
    assert h in SortedDistinct(NonEmpty(hosts)) <==> h in SetOf(SortedDistinct(NonEmpty(hosts)));
    assert h in NonEmpty(hosts) <==> h in SetOf(NonEmpty(hosts));
  }

  // ----- the policy

  lemma {:induction false} SectionNamesExactly(hosts: seq<string>, lower: string -> string, hash: Hash, name: string)
    ensures name in SetOf(SectionNames(hosts, lower, hash)) <==> exists h :: h in hosts && name == ListenerName(Https, h, lower, hash)
  {
    if hosts != [] {
      SectionNamesExactly(hosts[1..], lower, hash, name);
      assert forall h :: h in hosts <==> h == hosts[0] || h in hosts[1..];
      assert name in SectionNames(hosts, lower, hash) <==>
        name == ListenerName(Https, hosts[0], lower, hash) || name in SectionNames(hosts[1..], lower, hash);
      assert name in SectionNames(hosts[1..], lower, hash) <==> name in SetOf(SectionNames(hosts[1..], lower, hash));
    }
  }

  lemma {:induction false} HttpsNamesExactly(hosts: seq<string>, tls: bool, lower: string -> string, hash: Hash, name: string)
    ensures HttpsListener(GatewayListeners(hosts, tls, lower, hash), name)
      <==> tls && exists h :: h in hosts && h != "" && name == ListenerName(Https, h, lower, hash)
  {
    var unique := SortedDistinct(NonEmpty(hosts));
    if HttpsListener(GatewayListeners(hosts, tls, lower, hash), name) {
      var l :| l in GatewayListeners(hosts, tls, lower, hash) && l.protocol.Https? && l.name == name;
      ListenersExactly(unique, tls, lower, hash, l);
      Named(hosts, l.host);
    }
    if h :| tls && h in hosts && h != "" && name == ListenerName(Https, h, lower, hash) {
      Named(hosts, h);
      ListenersExactly(unique, tls, lower, hash, Listener(name, h, Https, PortOf(Https)));
    }
  }

  /** With HTTP/3 on, the policy targets exactly the emitted HTTPS listeners when no host is the empty
      string, which the Gateway leaves out and the policy does not. It never targets a cleartext one. */
  lemma {:induction false} PolicyTargetsExactly(hosts: seq<string>, tls: bool, lower: string -> string, hash: Hash)
    requires Digest(hash) && InjectiveOn(hash, hosts)
    ensures (forall name :: name in PolicyTargets(hosts, tls, true, lower, hash) <==>
        HttpsListener(GatewayListeners(hosts, tls, lower, hash), name))
      <==> !tls || "" !in hosts
    ensures forall l :: (l in GatewayListeners(hosts, tls, lower, hash) && l.protocol.Http?
      ==> l.name !in PolicyTargets(hosts, tls, true, lower, hash))
    ensures PolicyTargets(hosts, tls, false, lower, hash) == {}
  {
    forall name ensures name in PolicyTargets(hosts, tls, true, lower, hash) <==>
        tls && exists h :: h in hosts && name == ListenerName(Https, h, lower, hash)
    {
      SectionNamesExactly(hosts, lower, hash, name);
    }
    forall name ensures HttpsListener(GatewayListeners(hosts, tls, lower, hash), name)
        <==> tls && exists h :: h in hosts && h != "" && name == ListenerName(Https, h, lower, hash)
    {
      HttpsNamesExactly(hosts, tls, lower, hash, name);
    }
    if tls && "" in hosts {
      var name := ListenerName(Https, "", lower, hash);
      forall h | h in hosts && name == ListenerName(Https, h, lower, hash) ensures h == "" {
        NamesEqualExactly(Https, h, Https, "", lower, hash);
      }
      assert name in PolicyTargets(hosts, tls, true, lower, hash);
    }
    forall l | l in GatewayListeners(hosts, tls, lower, hash) && l.protocol.Http?
      ensures l.name !in PolicyTargets(hosts, tls, true, lower, hash)
    {
      ListenersExactly(SortedDistinct(NonEmpty(hosts)), tls, lower, hash, l);
      forall h ensures l.name != ListenerName(Https, h, lower, hash) {
        NamesEqualExactly(Http, l.host, Https, h, lower, hash);
      }
    }
  }
}
