/** What the decisions guarantee on a backend built from files: forward-confirmed
    reverse names, spellings of a name, and what is forwarded at all. */
module Answers {
  import opened Wrappers
  import opened Text
  import opened Address
  import opened ReverseName
  import opened Collect
  import opened Config
  import opened ConfigText
  import opened Maps
  import opened Rows
  import opened Index
  import opened Backend
  import opened Builder
  import opened Queries
  import opened FileOrder
  import opened CoreDns

  // --------------------------------------------- forward-confirmed reverse

  function FamilyType(ip: Ip): RecordType
  {
    if ip.V4? then A else AAAA
  }

  function AddressRecord(owner: string, ip: Ip): Record
  {
    match ip
    case V4(o) => Record(owner, AData(o))
    case V6(g) => Record(owner, AaaaData(g))
  }

  /** If the reverse name of an address is answered with a name, asking for
      the name gives the address exactly when what the name is looked up by is
      listed for the address too. */
  lemma ConfirmedExactly(
    b: DNSBackend, files: seq<NetworkFile>, domain: string, s: Listener, requester: Ip, ip: Ip, name: string,
    hosts: seq<SocketAddr>)
    requires Built(b, files, domain)
    requires var ptr := Decide(b, s, Query(requester, ArpaName(ip), PTR), [], hosts);
             ptr.Reply? && Record(ArpaName(ip), PtrData(name + ".")) in ptr.answers
    ensures var addr := Decide(b, s, Query(requester, name + ".", FamilyType(ip)), [], hosts);
            addr.Reply? && AddressRecord(name + ".", ip) in addr.answers <==>
            ReverseLists(b, requester, ip, Normalise(b.searchDomain, name + "."))
  {
    var q := Query(requester, name + ".", FamilyType(ip));
    PtrMeansListed(b, s, requester, ip, name, hosts);
    ForwardIsReverse(b, files, domain, requester, s.networkName, q.name, ip);
    AddressFromRecord(b, s, q, ip);
    ReplyIsLocal(b, s, q, hosts);
  }

  lemma ReplyIsLocal(b: DNSBackend, s: Listener, q: Query, hosts: seq<SocketAddr>)
    ensures Decide(b, s, q, [], hosts).Reply? <==> LocalAnswer(b, s, q).Some?
    ensures Decide(b, s, q, [], hosts).Reply? ==> Decide(b, s, q, [], hosts).answers == LocalAnswer(b, s, q).value
  {
    if LocalAnswer(b, s, q).Some? {
      assert [] + LocalAnswer(b, s, q).value == LocalAnswer(b, s, q).value;
    }
  }

  lemma PtrMeansListed(b: DNSBackend, s: Listener, requester: Ip, ip: Ip, name: string, hosts: seq<SocketAddr>)
    requires var ptr := Decide(b, s, Query(requester, ArpaName(ip), PTR), [], hosts);
             ptr.Reply? && Record(ArpaName(ip), PtrData(name + ".")) in ptr.answers
    ensures Names(b, requester, ip).Some? && name in Names(b, requester, ip).value
    ensures ReverseLists(b, requester, ip, name)
  {
    var p := Query(requester, ArpaName(ip), PTR);
    ReverseRoundTrip(ip);
    assert PtrNames(b, p) == Names(b, requester, ip);
    NameFromRecord(b, s, p, name);
    ReverseListed(b, requester, ip, name);
  }

  /** So a name that is looked up by itself is confirmed, whatever answers the
      request already holds. */
  lemma ForwardConfirmed(
    b: DNSBackend, files: seq<NetworkFile>, domain: string, s: Listener, requester: Ip, ip: Ip, name: string,
    before: seq<Record>, hosts: seq<SocketAddr>)
    requires Built(b, files, domain)
    requires Normalise(b.searchDomain, name + ".") == name
    requires var ptr := Decide(b, s, Query(requester, ArpaName(ip), PTR), [], hosts);
             ptr.Reply? && Record(ArpaName(ip), PtrData(name + ".")) in ptr.answers
    ensures var addr := Decide(b, s, Query(requester, name + ".", FamilyType(ip)), before, hosts);
            addr.Reply? && AddressRecord(name + ".", ip) in addr.answers
  {
    PtrMeansListed(b, s, requester, ip, name, hosts);
    ForwardIsReverse(b, files, domain, requester, s.networkName, name + ".", ip);
    AddressFromRecord(b, s, Query(requester, name + ".", FamilyType(ip)), ip);
  }

  /** A record of an address stands in the answer exactly for the addresses found. */
  lemma AddressFromRecord(b: DNSBackend, s: Listener, q: Query, ip: Ip)
    requires q.rtype == FamilyType(ip)
    ensures ip in Addresses(b, q.source, s.networkName, q.name) <==>
            LocalAnswer(b, s, q).Some? && AddressRecord(q.name, ip) in LocalAnswer(b, s, q).value
  {
    var cell, record := IpCell(q.name, q.rtype), AddressRecord(q.name, ip);
    GatherMember(Addresses(b, q.source, s.networkName, q.name), cell, record);
    assert forall x :: record in cell(x) <==> x == ip;
  }

  lemma NameFromRecord(b: DNSBackend, s: Listener, p: Query, name: string)
    requires p.rtype == PTR && LocalAnswer(b, s, p).Some?
    requires Record(p.name, PtrData(name + ".")) in LocalAnswer(b, s, p).value
    ensures PtrNames(b, p).Some? && name in PtrNames(b, p).value
  {
    PtrRecordName(PtrNames(b, p).value, p.name, s.isName, name);
  }

  lemma PtrRecordName(names: seq<string>, owner: string, isName: string -> bool, name: string)
    requires Record(owner, PtrData(name + ".")) in Gather(names, PtrCell(owner, isName))
    ensures name in names
  {
    GatherMember(names, PtrCell(owner, isName), Record(owner, PtrData(name + ".")));
    var n :| n in names && Record(owner, PtrData(name + ".")) in PtrCell(owner, isName)(n);
    assert (n + ".")[..|n|] == n && (name + ".")[..|name|] == name;
  }

  ghost predicate ParsedFiles(files: seq<NetworkFile>)
  {
    forall f | f in files :: WellFormed(f.config)
  }

  /** Files that were loaded were parsed. */
  lemma LoadedAreParsed(dir: seq<DirEntry>)
    ensures ParsedFiles(LoadAll(dir))
  {
    forall f | f in LoadAll(dir)
      ensures WellFormed(f.config)
    {
      GatherMember(dir, Loaded, f);
      var entry :| entry in dir && f in Loaded(entry);
      ParsedIsWellFormed(entry.content.value);
    }
  }

  lemma RowFromEntry(files: seq<NetworkFile>, e: Row)
    requires ParsedFiles(files) && e in AllRows(files)
    ensures e.dns.Some? ==> e.dns.value != []
    ensures forall name | name in e.aliases :: IsLower(name)
  {
    GatherMember(files, FileRows, e);
    var f :| f in files && e in FileRows(f);
    var i :| 0 <= i < |f.config.entries| && FileRows(f)[i] == e;
    assert WellFormedEntry(f.config.entries[i]);
  }

  lemma ReverseNamesLower(
    b: DNSBackend, files: seq<NetworkFile>, domain: string, requester: Ip, ip: Ip, name: string)
    requires Built(b, files, domain) && ParsedFiles(files)
    requires Names(b, requester, ip).Some? && name in Names(b, requester, ip).value
    ensures IsLower(name)
  {
    FirstListing(b, requester, ip);
    var n :| ip in Inner(b.reverseMappings, n) &&
             Names(b, requester, ip) == Some(Inner(b.reverseMappings, n)[ip]);
    assert ReverseAt(b.reverseMappings, AllRows(files), n, ip);
    GatherMember(AllRows(files), ReverseCell(n, ip), name);
    var e :| e in AllRows(files) && name in ReverseCell(n, ip)(e);
    ScatterMember(e.ips, ip, e.aliases, name);
    RowFromEntry(files, e);
  }

  /** On a parsed directory every reverse answer without a final dot that does
      not end in the search domain is confirmed. */
  lemma ParsedForwardConfirmed(
    b: DNSBackend, dir: seq<DirEntry>, domain: string, s: Listener, requester: Ip, ip: Ip, name: string,
    before: seq<Record>, hosts: seq<SocketAddr>)
    requires Built(b, LoadAll(dir), domain)
    requires !EndsWith(name, ".")
    requires !EndsWith(name + ".", b.searchDomain) || b.searchDomain == "" || b.searchDomain == "."
    requires var ptr := Decide(b, s, Query(requester, ArpaName(ip), PTR), [], hosts);
             ptr.Reply? && Record(ArpaName(ip), PtrData(name + ".")) in ptr.answers
    ensures var addr := Decide(b, s, Query(requester, name + ".", FamilyType(ip)), before, hosts);
            addr.Reply? && AddressRecord(name + ".", ip) in addr.answers
  {
    LoadedAreParsed(dir);
    PtrMeansListed(b, s, requester, ip, name, hosts);
    ReverseNamesLower(b, LoadAll(dir), domain, requester, ip, name);
    NormaliseAbsolute(b.searchDomain, name);
    ForwardConfirmed(b, LoadAll(dir), domain, s, requester, ip, name, before, hosts);
  }

  /** The condition is needed: with search domain `dns`, the name `web.dns` is
      given in reverse, but asking for `web.dns.` looks for `web`. */
  lemma SearchDomainShadows(
    b: DNSBackend, f: NetworkFile, row: Row, ip: Ip, networkName: string)
    requires FileRows(f) == [row] && row.ips == [ip] && row.aliases == ["web.dns"]
    requires Built(b, [f], "dns")
    ensures Names(b, ip, ip) == Some(["web.dns"])
    ensures ip !in Addresses(b, ip, networkName, "web.dns.")
  {
    ShadowTarget();
    assert "web" !in row.aliases;
    Shadowed(b, f, row, ip, "dns", networkName, "web.dns.");
  }

  lemma Shadowed(
    b: DNSBackend, f: NetworkFile, row: Row, ip: Ip, domain: string, networkName: string, query: string)
    requires FileRows(f) == [row] && row.ips == [ip]
    requires Built(b, [f], domain) && Normalise(Terminated(domain), query) !in row.aliases
    ensures Names(b, ip, ip) == Some(row.aliases)
    ensures ip !in Addresses(b, ip, networkName, query)
  {
    OneRow(f, row);
    assert row in [row] && ip in row.ips;
    OwnNames(b, f, row, ip, domain);
    Unnamed(b, [f], domain, ip, networkName, query, ip);
  }

  lemma Unnamed(
    b: DNSBackend, files: seq<NetworkFile>, domain: string, requester: Ip, networkName: string, query: string, x: Ip)
    requires Built(b, files, domain) && Known(AllRows(files), requester)
    requires forall e | e in AllRows(files) :: Normalise(Terminated(domain), query) !in e.aliases
    ensures x !in Addresses(b, requester, networkName, query)
  {
    LookupJoin(b, files, domain, requester, networkName, query, x);
  }

  lemma ShadowTarget()
    ensures Normalise(Terminated("dns"), "web.dns.") == "web"
  {
    var d := Terminated("dns");
    assert d == "dns.";
    assert "web" + "." + d == "web.dns.";
    assert IsLower(d) && IsLower("web");
    NormaliseDotted(d, "web");
  }

  lemma OneNetwork(b: DNSBackend, f: NetworkFile, row: Row, ip: Ip, domain: string)
    requires FileRows(f) == [row] && row.ips == [ip]
    requires Built(b, [f], domain)
    ensures ip in b.ipMappings && b.ipMappings[ip] != [] && b.ipMappings[ip][0] == row.net
  {
    OneRow(f, row);
    assert row in [row] && ip in row.ips;
    MappedMember(b, [f], domain, ip, row.net);
    assert b.ipMappings[ip][0] in b.ipMappings[ip];
    MappedMember(b, [f], domain, ip, b.ipMappings[ip][0]);
  }

  /** A container alone in its only network gets its own names in reverse. */
  lemma OwnNames(b: DNSBackend, f: NetworkFile, row: Row, ip: Ip, domain: string)
    requires FileRows(f) == [row] && row.ips == [ip]
    requires Built(b, [f], domain)
    ensures Names(b, ip, ip) == Some(row.aliases)
  {
    OneNetwork(b, f, row, ip, domain);
    OneRow(f, row);
    OneListing(row, ip);
    assert ReverseAt(b.reverseMappings, [row], row.net, ip);
    assert row in [row] && ip in row.ips;
    assert Addressed([row], row.net, ip);
  }

  /** A name, the name with a final dot, in lower case, and with a search domain
      in lower case are answered alike. */
  lemma SpellingsAgree(
    b: DNSBackend, files: seq<NetworkFile>, domain: string, requester: Ip, networkName: string, a: string)
    requires Built(b, files, domain) && !EndsWith(a, ".")
    requires domain == "" || domain == "." || !EndsWith(Lower(a) + ".", Terminated(domain))
    ensures Addresses(b, requester, networkName, a + ".") == Addresses(b, requester, networkName, a)
    ensures IsLower(domain) ==>
              Addresses(b, requester, networkName, a + Terminated(domain)) == Addresses(b, requester, networkName, a)
    ensures Addresses(b, requester, networkName, Lower(a)) == Addresses(b, requester, networkName, a)
  {
    NormaliseDomain(domain, a);
    NormaliseAbsolute(Terminated(domain), a);
    LowerLaws(a, "");
    NormaliseLower(Terminated(domain), Lower(a), a);
  }

  // ---------------------------------------------- the test for local names

  lemma AbsoluteEnds(q: string, d: string)
    requires EndsWith(q, ".")
    ensures d == "" || d == "." ==> EndsWith(q, d)
  {
    assert q[|q|..] == "";
  }

  /** From whom anything is ever forwarded: from a source that may use the
      host's servers, unless the search domain is empty, which every name ends
      in, or, for names with a final dot, is a dot. */
  lemma ForwardingExactly(b: DNSBackend, s: Listener, source: Ip, answers: seq<Record>, hosts: seq<SocketAddr>)
    ensures (exists q: Query :: q.source == source && Decide(b, s, q, answers, hosts).Forward?) <==>
            !s.noProxy && !IsInternal(b, source) && b.searchDomain != ""
    ensures (exists q: Query :: q.source == source && EndsWith(q.name, ".") &&
                                Decide(b, s, q, answers, hosts).Forward?) <==>
            !s.noProxy && !IsInternal(b, source) && b.searchDomain != "" && b.searchDomain != "."
  {
    var d := b.searchDomain;
    forall q: Query | Decide(b, s, q, answers, hosts).Forward?
      ensures d != ""
      ensures EndsWith(q.name, ".") ==> d != "."
    {
      assert q.name[|q.name|..] == "";
      if EndsWith(q.name, ".") { AbsoluteEnds(q.name, d); }
    }
    if !s.noProxy && !IsInternal(b, source) && d != "" {
      var relative := Query(source, "", Other(0));
      assert Decide(b, s, relative, answers, hosts).Forward?;
    }
    if !s.noProxy && !IsInternal(b, source) && d != "" && d != "." {
      var root := Query(source, ".", Other(0));
      assert !EndsWith(".", d);
      assert EndsWith(root.name, ".") && Decide(b, s, root, answers, hosts).Forward?;
    }
  }

  /** Names are looked up in lower case but tested against the search domain as
      received. So, of a name without answer, this spelling and the lower-case
      one are each decided by the spelling, and they part exactly when only one
      of them ends in the search domain. */
  lemma SpellingDecides(b: DNSBackend, s: Listener, q: Query, answers: seq<Record>, hosts: seq<SocketAddr>)
    requires q.rtype != PTR && LocalAnswer(b, s, q).None?
    requires !s.noProxy && !IsInternal(b, q.source)
    ensures var o, p := Decide(b, s, q, answers, hosts), Decide(b, s, q.(name := Lower(q.name)), answers, hosts);
            && (o == NxDomain <==> EndsWith(q.name, b.searchDomain))
            && (p == NxDomain <==> EndsWith(Lower(q.name), b.searchDomain))
            && (o == NxDomain || o.Forward?) && (p == NxDomain || p.Forward?)
            && (o != p <==> EndsWith(q.name, b.searchDomain) != EndsWith(Lower(q.name), b.searchDomain))
  {
    var lower := q.(name := Lower(q.name));
    LowerLaws(q.name, "");
    NormaliseLower(b.searchDomain, q.name, Lower(q.name));
    assert LocalAnswer(b, s, lower).None?;
  }

  /** With search domain `dns` and a network without containers, `Web.DNS.` is
      forwarded, and `web.dns.` is not. */
  lemma CaseEscapesDomain(b: DNSBackend, s: Listener, source: Ip, answers: seq<Record>, hosts: seq<SocketAddr>)
    requires Built(b, [NetworkFile("podman", false, NetworkConfig([V4([10, 0, 0, 1])], [], []))], "dns")
    requires !s.noProxy
    ensures Decide(b, s, Query(source, "Web.DNS.", A), answers, hosts).Forward?
    ensures Decide(b, s, Query(source, "web.dns.", A), answers, hosts) == NxDomain
  {
    var files := [NetworkFile("podman", false, NetworkConfig([V4([10, 0, 0, 1])], [], []))];
    GatherNone(files, FileRows);
    TwoSpellings();
    NothingLocal(b, files, "dns", s, Query(source, "Web.DNS.", A), answers, hosts);
  }

  lemma NothingLocal(
    b: DNSBackend, files: seq<NetworkFile>, domain: string, s: Listener, q: Query,
    answers: seq<Record>, hosts: seq<SocketAddr>)
    requires Built(b, files, domain) && AllRows(files) == []
    requires q.rtype == A && !s.noProxy
    requires !EndsWith(q.name, Terminated(domain)) && EndsWith(Lower(q.name), Terminated(domain))
    ensures Decide(b, s, q, answers, hosts).Forward?
    ensures Decide(b, s, Query(q.source, Lower(q.name), A), answers, hosts) == NxDomain
  {
    NothingKnown(b, files, domain, q.source, s.networkName, q.name);
    SpellingDecides(b, s, q, answers, hosts);
    assert q.(name := Lower(q.name)) == Query(q.source, Lower(q.name), A);
  }

  lemma TwoSpellings()
    ensures Terminated("dns") == "dns." && Lower("Web.DNS.") == "web.dns."
    ensures !EndsWith("Web.DNS.", "dns.") && EndsWith("web.dns.", "dns.")
  {
    assert "Web.DNS."[4..] == "DNS." && "DNS."[0] != "dns."[0];
    assert "web.dns."[4..] == "dns.";
  }

  lemma NothingKnown(
    b: DNSBackend, files: seq<NetworkFile>, domain: string, source: Ip, networkName: string, query: string)
    requires Built(b, files, domain) && AllRows(files) == []
    ensures source !in b.ipMappings && Addresses(b, source, networkName, query) == []
  {
    assert MappedAt(b.ipMappings, [], source, networkName);
    assert NamesAt(b.nameMappings, [], networkName, Normalise(b.searchDomain, query));
    GatherNone([networkName], AddrCell(b, Normalise(b.searchDomain, query)));
  }
}
