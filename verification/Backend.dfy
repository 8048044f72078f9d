/** The in-memory store and the queries on it. */
module Backend {
  import opened Wrappers
  import opened Text
  import opened Address
  import opened Collect
  import opened Maps

  datatype DNSBackend = DNSBackend(
    ipMappings: map<Ip, seq<string>>,
    nameMappings: map<string, map<string, seq<Ip>>>,
    reverseMappings: map<string, map<Ip, seq<string>>>,
    ctrDnsServer: map<Ip, Option<seq<Ip>>>,
    networkDnsServer: map<string, seq<Ip>>,
    networkIsInternal: map<string, bool>,
    searchDomain: string)

  /** The search domain as stored: ending in a dot unless it is empty. */
  function Terminated(domain: string): string
  {
    if domain != "" && domain[|domain| - 1] != '.' then domain + "." else domain
  }

  method New(
    containers: map<Ip, seq<string>>,
    networks: map<string, map<string, seq<Ip>>>,
    reverse: map<string, map<Ip, seq<string>>>,
    ctrDnsServer: map<Ip, Option<seq<Ip>>>,
    networkDnsServer: map<string, seq<Ip>>,
    networkIsInternal: map<string, bool>,
    filterSearchDomain: string)
    returns (b: DNSBackend)
    ensures b == DNSBackend(containers, networks, reverse, ctrDnsServer, networkDnsServer,
                            networkIsInternal, Terminated(filterSearchDomain))
  {
    var searchDomain := filterSearchDomain;
    if |searchDomain| > 0 {
      var c := searchDomain[|searchDomain| - 1];
      if c != '.' {
        searchDomain := searchDomain + ".";
      }
    }
    b := DNSBackend(containers, networks, reverse, ctrDnsServer, networkDnsServer, networkIsInternal, searchDomain);
  }

  /** It is the domain, with one dot more where that does not end in one. */
  lemma TerminatedExactly(domain: string)
    ensures Terminated(domain) == if domain == "" || EndsWith(domain, ".") then domain else domain + "."
  {
    LastDot(domain);
  }

  // ------------------------------------------------------- what queries mean

  /** The key a queried name is looked up by: lower case, without the search
      domain, without a final dot. */
  function Normalise(searchDomain: string, query: string): string
  {
    var name := Lower(query);
    var local := if EndsWith(name, searchDomain) then DropLast(name, |searchDomain|) else name;
    if EndsWith(local, ".") then DropLast(local, 1) else local
  }

  /** The networks a requester sees; one that is not a container sees the
      network it reached the server on. */
  function NetsOf(b: DNSBackend, requester: Ip, networkName: string): seq<string>
  {
    if requester in b.ipMappings then b.ipMappings[requester] else [networkName]
  }

  function AddrCell(b: DNSBackend, name: string): string -> seq<Ip>
  {
    (net: string) => Get(Inner(b.nameMappings, net), name)
  }

  function Addresses(b: DNSBackend, requester: Ip, networkName: string, query: string): seq<Ip>
  {
    Gather(NetsOf(b, requester, networkName), AddrCell(b, Normalise(b.searchDomain, query)))
  }

  function Present<T>(items: seq<T>): Option<seq<T>>
  {
    if items == [] then None else Some(items)
  }

  function ResolverCell(b: DNSBackend): string -> seq<Ip>
  {
    (net: string) => Get(b.networkDnsServer, net)
  }

  function Resolvers(b: DNSBackend, requester: Ip): Option<seq<Ip>>
  {
    if requester in b.ipMappings
    then Some(Gather(b.ipMappings[requester], ResolverCell(b)))
    else None
  }

  predicate IsInternal(b: DNSBackend, requester: Ip)
  {
    && requester in b.ipMappings
    && forall n | n in b.ipMappings[requester] :: n in b.networkIsInternal ==> b.networkIsInternal[n]
  }

  /** What each network lists for the address. */
  function ListingCell(b: DNSBackend, ip: Ip): string -> Option<seq<string>>
  {
    (net: string) => Find(Inner(b.reverseMappings, net), ip)
  }

  /** The names under the first of the requester's networks that lists the
      address. */
  function Names(b: DNSBackend, requester: Ip, ip: Ip): Option<seq<string>>
  {
    First(Get(b.ipMappings, requester), ListingCell(b, ip))
  }

  // ---------------------------------------------------------------- queries

  method NormaliseQuery(searchDomain: string, query: string) returns (name: string)
    ensures name == Normalise(searchDomain, query)
  {
    name := Lower(query);
    if EndsWith(name, searchDomain) {
      name := DropLast(name, |searchDomain|);
    }
    if EndsWith(name, ".") {
      name := DropLast(name, 1);
    }
  }

  method Lookup(b: DNSBackend, requester: Ip, networkName: string, query: string)
    returns (r: Option<seq<Ip>>)
    ensures r == Present(Addresses(b, requester, networkName, query))
  {
    var name := NormaliseQuery(b.searchDomain, query);
    var nets := [networkName];
    if requester in b.ipMappings {
      nets := b.ipMappings[requester];
    }
    var results: seq<Ip> := [];
    for i := 0 to |nets|
      invariant results == Gather(nets[..i], AddrCell(b, name))
    {
      assert nets[..i + 1][..i] == nets[..i];
      if nets[i] !in b.nameMappings {
        continue;
      }
      var netNames := b.nameMappings[nets[i]];
      if name in netNames {
        results := results + netNames[name];
      }
    }
    assert nets[..|nets|] == nets;
    if results == [] {
      return None;
    }
    return Some(results);
  }

  method GetNetworkScopedResolvers(b: DNSBackend, requester: Ip) returns (r: Option<seq<Ip>>)
    ensures r == Resolvers(b, requester)
  {
    if requester !in b.ipMappings {
      return None;
    }
    var nets, results := b.ipMappings[requester], [];
    for i := 0 to |nets|
      invariant results == Gather(nets[..i], ResolverCell(b))
    {
      assert nets[..i + 1][..i] == nets[..i];
      if nets[i] !in b.networkDnsServer {
        continue;
      }
      results := results + b.networkDnsServer[nets[i]];
    }
    assert nets[..|nets|] == nets;
    return Some(results);
  }

  method CtrIsInternal(b: DNSBackend, requester: Ip) returns (r: bool)
    ensures r == IsInternal(b, requester)
  {
    if requester !in b.ipMappings {
      return false;
    }
    var nets := b.ipMappings[requester];
    for i := 0 to |nets|
      invariant forall n | n in nets[..i] :: n in b.networkIsInternal ==> b.networkIsInternal[n]
    {
      if nets[i] in b.networkIsInternal && !b.networkIsInternal[nets[i]] {
        return false;
      }
      assert nets[..i + 1] == nets[..i] + [nets[i]];
    }
    assert nets[..|nets|] == nets;
    return true;
  }

  method ReverseLookup(b: DNSBackend, requester: Ip, ip: Ip) returns (r: Option<seq<string>>)
    ensures r == Names(b, requester, ip)
  {
    if requester !in b.ipMappings {
      return None;
    }
    var nets := b.ipMappings[requester];
    for i := 0 to |nets|
      invariant First(nets, ListingCell(b, ip)) == First(nets[i..], ListingCell(b, ip))
    {
      if nets[i] in b.reverseMappings {
        var ips := b.reverseMappings[nets[i]];
        if ip in ips {
          return Some(ips[ip]);
        }
      }
    }
    return None;
  }

  /** A reverse answer is the listing of some network of the requester, and
      there is none exactly when no such network lists the address. */
  lemma FirstListing(b: DNSBackend, requester: Ip, ip: Ip)
    ensures Names(b, requester, ip).Some? ==>
              exists n :: n in Get(b.ipMappings, requester) && ip in Inner(b.reverseMappings, n) &&
                          Names(b, requester, ip) == Some(Inner(b.reverseMappings, n)[ip])
    ensures Names(b, requester, ip).None? <==>
            forall n :: n in Get(b.ipMappings, requester) ==> ip !in Inner(b.reverseMappings, n)
  {
    FirstMember(Get(b.ipMappings, requester), ListingCell(b, ip));
    if Names(b, requester, ip).Some? {
      var n :| n in Get(b.ipMappings, requester) && ListingCell(b, ip)(n) == Names(b, requester, ip);
      assert ip in Inner(b.reverseMappings, n);
    }
    forall n | n in Get(b.ipMappings, requester)
      ensures ListingCell(b, ip)(n).Some? <==> ip in Inner(b.reverseMappings, n)
    {
    }
  }

  // ---------------------------------------------------------- normalisation

  /** What a query is looked up by: of its lower-case form, what precedes the
      search domain if that is its end, and of this all but a final dot. */
  lemma NormaliseExactly(d: string, query: string, key: string)
    ensures Normalise(d, query) == key <==>
            var name := Lower(query);
            if EndsWith(name, d) then name == key + "." + d || (name == key + d && !EndsWith(key, "."))
            else name == key + "." || (name == key && !EndsWith(key, "."))
  {
    var name := Lower(query);
    if EndsWith(name, d) {
      var local := DropLast(name, |d|);
      assert name == local + d;
      Undotted(local, key);
      assert name == key + "." + d <==> local == key + "." by { SameEnd(local, key + ".", d); }
      assert name == key + d <==> local == key by { SameEnd(local, key, d); }
    } else {
      Undotted(name, key);
    }
  }

  lemma Undotted(local: string, key: string)
    ensures (if EndsWith(local, ".") then DropLast(local, 1) else local) == key <==>
            local == key + "." || (local == key && !EndsWith(key, "."))
  {
    EndsWithConcat(key, ".");
    if EndsWith(local, ".") {
      assert local == DropLast(local, 1) + ".";
    }
  }

  lemma SameEnd(a: string, b: string, d: string)
    ensures a + d == b + d <==> a == b
  {
    if a + d == b + d {
      assert |a| == |b|;
      assert (a + d)[..|a|] == a && (b + d)[..|b|] == b;
    }
  }

  /** Only the lower-case form of a query matters. */
  lemma NormaliseLower(d: string, p: string, q: string)
    requires Lower(p) == Lower(q)
    ensures Normalise(d, p) == Normalise(d, q)
  {
  }

  lemma EndsWithConcat(a: string, d: string)
    ensures EndsWith(a + d, d) && DropLast(a + d, |d|) == a
  {
    assert (a + d)[|a|..] == d;
    assert (a + d)[..|a|] == a;
  }

  lemma TerminatedLower(domain: string)
    ensures IsLower(domain) <==> IsLower(Terminated(domain))
    ensures Terminated(domain) == "" || EndsWith(Terminated(domain), ".")
  {
    var d := Terminated(domain);
    LowerLaws(domain, ".");
    assert Lower(".") == ".";
    LastDot(d);
  }

  lemma LastDot(s: string)
    ensures EndsWith(s, ".") <==> s != "" && s[|s| - 1] == '.'
  {
    if s != "" {
      assert s[|s| - 1..] == [s[|s| - 1]];
    }
  }

  lemma NormalisePlain(d: string, a: string)
    requires !EndsWith(a, ".") && (d == "" || EndsWith(d, "."))
    ensures Normalise(d, a) == Lower(a)
  {
    var n := Lower(a);
    NoFinalDot(a);
    if d != "" {
      LastDot(d);
      SuffixChar(n, d, |d| - 1);
      LastDot(n);
    }
  }

  lemma NormaliseSuffixed(d: string, a: string)
    requires !EndsWith(a, ".") && IsLower(d)
    ensures Normalise(d, a + d) == Lower(a)
  {
    LowerLaws(a, d);
    EndsWithConcat(Lower(a), d);
    NoFinalDot(a);
  }

  lemma NormaliseDotted(d: string, a: string)
    requires IsLower(d)
    ensures Normalise(d, a + "." + d) == Lower(a)
  {
    LowerLaws(a, ".");
    LowerLaws(a + ".", d);
    assert Lower(".") == ".";
    EndsWithConcat(Lower(a) + ".", d);
    EndsWithConcat(Lower(a), ".");
  }

  /** A search domain with an upper-case letter is as good as none, because only
      the query is lower-cased. */
  lemma DomainIgnored(d: string, query: string)
    requires !IsLower(d)
    ensures Normalise(d, query) == Normalise("", query)
    ensures |Normalise(d, query)| >= |query| - 1
  {
    var name := Lower(query);
    LowerLaws(query, "");
    if EndsWith(name, d) {
      SuffixLower(name, d);
    }
    assert name[|name|..] == "";
    assert DropLast(name, 0) == name;
  }

  lemma SuffixLower(s: string, d: string)
    requires IsLower(s) && EndsWith(s, d)
    ensures IsLower(d)
  {
    forall i | 0 <= i < |d|
      ensures LowerChar(d[i]) == d[i]
    {
      SuffixChar(s, d, i);
    }
  }

  /** A name is looked up by itself, and so is the name followed by the search
      domain (with or without a dot between) exactly when the domain is in lower
      case. */
  lemma NormaliseDomain(domain: string, a: string)
    requires !EndsWith(a, ".")
    ensures Normalise(Terminated(domain), a) == Lower(a)
    ensures Normalise(Terminated(domain), a + Terminated(domain)) == Lower(a) <==> IsLower(domain)
    ensures Normalise(Terminated(domain), a + "." + Terminated(domain)) == Lower(a) <==> IsLower(domain)
  {
    var d := Terminated(domain);
    TerminatedLower(domain);
    NormalisePlain(d, a);
    if IsLower(domain) {
      NormaliseSuffixed(d, a);
      NormaliseDotted(d, a);
    } else {
      UpperIsLong(domain);
      DomainIgnored(d, a + d);
      DomainIgnored(d, a + "." + d);
    }
  }

  lemma UpperIsLong(domain: string)
    requires !IsLower(domain)
    ensures |Terminated(domain)| >= 2
  {
    assert domain != "" && domain != ".";
  }

  /** With search domain `DNS`, not even `web.DNS.` is looked up by `web`. */
  lemma UpperDomain(a: string)
    requires a == "web"
    ensures Normalise(Terminated("DNS"), a + "." + Terminated("DNS")) != Lower(a)
  {
    LastDot(a);
    NormaliseDomain("DNS", a);
    assert Lower("DNS")[0] == 'd';
  }

  lemma NoFinalDot(a: string)
    ensures EndsWith(a, ".") <==> EndsWith(Lower(a), ".")
  {
    LastDot(a);
    LastDot(Lower(a));
  }

  lemma AbsoluteOutside(d: string, p: string, n: string)
    requires Lower(p) == n + "." && !EndsWith(n, ".")
    requires d == "" || d == "." || !EndsWith(n + ".", d)
    ensures Normalise(d, p) == n
  {
    EndsWithConcat(n, ".");
    if d == "" {
      assert DropLast(n + ".", 0) == n + ".";
    }
  }

  /** Taking off a longer domain leaves less than the name. */
  lemma AbsoluteInside(d: string, p: string, n: string)
    requires Lower(p) == n + "." && EndsWith(n + ".", d) && |d| > 1
    ensures |Normalise(d, p)| < |n|
  {
  }

  lemma OneDot(n: string, d: string)
    requires EndsWith(n + ".", d) && |d| == 1
    ensures d == "."
  {
    SuffixChar(n + ".", d, 0);
  }

  /** The absolute form of a name, with a final dot, is looked up by the name
      exactly when it does not itself end in the search domain; a domain of at
      most one character never gets in the way. */
  lemma NormaliseAbsolute(d: string, a: string)
    requires !EndsWith(a, ".")
    ensures Normalise(d, a + ".") == Lower(a) <==> d == "" || d == "." || !EndsWith(Lower(a) + ".", d)
  {
    LowerLaws(a, ".");
    assert Lower(".") == ".";
    NoFinalDot(a);
    if d == "" || d == "." || !EndsWith(Lower(a) + ".", d) {
      AbsoluteOutside(d, a + ".", Lower(a));
    } else if |d| == 1 {
      OneDot(Lower(a), d);
    } else {
      AbsoluteInside(d, a + ".", Lower(a));
    }
  }
}
