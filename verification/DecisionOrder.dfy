/** How far the decision on a query depends on the order in which the files were
    read and their containers joined. */
module DecisionOrder {
  import opened Address
  import opened ReverseName
  import opened Collect
  import opened Maps
  import opened Rows
  import opened Backend
  import opened Builder
  import opened FileOrder
  import opened PtrOrder
  import opened CoreDns

  /** The reverse answer of the query does not depend on the order. */
  ghost predicate StableQuery(rows: seq<Row>, q: Query)
  {
    q.rtype == PTR ==>
      match ReverseAddress(q.name)
      case Some(ip) => SameListings(rows, q.source, ip)
      case None => true
  }

  lemma AddressAnswerOrder(
    b: DNSBackend, c: DNSBackend, f: seq<NetworkFile>, g: seq<NetworkFile>, domain: string, s: Listener, q: Query)
    requires Built(b, f, domain) && Built(c, g, domain) && SameFiles(f, g)
    requires q.rtype == A || q.rtype == AAAA
    ensures LocalAnswer(b, s, q).Some? <==> LocalAnswer(c, s, q).Some?
    ensures LocalAnswer(b, s, q).Some? ==> multiset(LocalAnswer(b, s, q).value) == multiset(LocalAnswer(c, s, q).value)
  {
    LookupOrder(b, c, f, g, domain, q.source, s.networkName, q.name);
    var p, r := Addresses(b, q.source, s.networkName, q.name), Addresses(c, q.source, s.networkName, q.name);
    assert |multiset(p)| == |multiset(r)|;
    GatherPermutation(p, r, IpCell(q.name, q.rtype));
  }

  lemma PtrNamesOrder(
    b: DNSBackend, c: DNSBackend, f: seq<NetworkFile>, g: seq<NetworkFile>, domain: string, q: Query)
    requires Built(b, f, domain) && Built(c, g, domain) && SameFiles(f, g) && DistinctNames(f)
    ensures PtrNames(b, q).Some? <==> PtrNames(c, q).Some?
    ensures q.rtype == PTR && StableQuery(AllRows(f), q) ==> PtrNames(b, q) == PtrNames(c, q)
  {
    match ReverseAddress(q.name)
    case Some(ip) => ReverseAnswerOrder(b, c, f, g, domain, q.source, ip);
    case None =>
  }

  lemma PtrAnswerOrder(
    b: DNSBackend, c: DNSBackend, f: seq<NetworkFile>, g: seq<NetworkFile>, domain: string, s: Listener, q: Query)
    requires Built(b, f, domain) && Built(c, g, domain) && SameFiles(f, g) && DistinctNames(f)
    requires q.rtype == PTR
    ensures LocalAnswer(b, s, q).Some? <==> LocalAnswer(c, s, q).Some?
    ensures StableQuery(AllRows(f), q) ==> LocalAnswer(b, s, q) == LocalAnswer(c, s, q)
  {
    PtrNamesOrder(b, c, f, g, domain, q);
    SamePtrNames(b, c, s, q);
  }

  lemma SamePtrNames(b: DNSBackend, c: DNSBackend, s: Listener, q: Query)
    requires q.rtype == PTR
    ensures LocalAnswer(b, s, q).Some? <==> PtrNames(b, q).Some?
    ensures LocalAnswer(c, s, q).Some? <==> PtrNames(c, q).Some?
    ensures PtrNames(b, q) == PtrNames(c, q) ==> LocalAnswer(b, s, q) == LocalAnswer(c, s, q)
  {
  }

  lemma LocalAnswerOrder(
    b: DNSBackend, c: DNSBackend, f: seq<NetworkFile>, g: seq<NetworkFile>, domain: string, s: Listener, q: Query)
    requires Built(b, f, domain) && Built(c, g, domain) && SameFiles(f, g) && DistinctNames(f)
    ensures LocalAnswer(b, s, q).Some? <==> LocalAnswer(c, s, q).Some?
    ensures LocalAnswer(b, s, q).Some? && StableQuery(AllRows(f), q) ==>
              multiset(LocalAnswer(b, s, q).value) == multiset(LocalAnswer(c, s, q).value)
  {
    match q.rtype
    case PTR => PtrAnswerOrder(b, c, f, g, domain, s, q);
    case Other(_) =>
    case _ => AddressAnswerOrder(b, c, f, g, domain, s, q);
  }

  function SocketCell(): Ip -> seq<SocketAddr>
  {
    (ip: Ip) => [SocketAddr(ip, DNS_PORT, 0)]
  }

  lemma {:induction false} SocketsGathered(ips: seq<Ip>)
    ensures Sockets(ips) == Gather(ips, SocketCell())
  {
    if ips != [] {
      SocketsGathered(ips[..|ips| - 1]);
    }
  }

  lemma SocketsOrder(a: seq<Ip>, b: seq<Ip>)
    requires multiset(a) == multiset(b)
    ensures multiset(Sockets(a)) == multiset(Sockets(b))
    ensures a == [] <==> b == []
  {
    SocketsGathered(a);
    SocketsGathered(b);
    GatherPermutation(a, b, SocketCell());
    assert |multiset(a)| == |multiset(b)|;
  }

  lemma CustomServersOrder(
    b: DNSBackend, c: DNSBackend, f: seq<NetworkFile>, g: seq<NetworkFile>, domain: string, source: Ip)
    requires Built(b, f, domain) && Built(c, g, domain) && SameFiles(f, g) && DistinctNames(f)
    requires Agree(f, FileSays(DnsCell(source)))
    ensures multiset(CustomServers(b, source)) == multiset(CustomServers(c, source))
  {
    CtrDnsOrder(b, c, f, g, domain, source);
    ResolversOrder(b, c, f, g, domain, source);
    assert Find(b.ctrDnsServer, source) == Find(c.ctrDnsServer, source);
  }

  /** With distinct network names, a query is answered, refused or forwarded
      alike for every order; the records are the same up to order, for a PTR
      query if its networks list the same names; and so are the servers asked,
      if files agree on the servers of the source. */
  lemma DecisionUpToOrder(
    b: DNSBackend, c: DNSBackend, f: seq<NetworkFile>, g: seq<NetworkFile>, domain: string, s: Listener, q: Query,
    answers: seq<Record>, hosts: seq<SocketAddr>)
    requires Built(b, f, domain) && Built(c, g, domain) && SameFiles(f, g) && DistinctNames(f)
    ensures var o, p := Decide(b, s, q, answers, hosts), Decide(c, s, q, answers, hosts);
            && (o.Reply? <==> p.Reply?) && (o.NxDomain? <==> p.NxDomain?)
            && (o.Reply? && StableQuery(AllRows(f), q) ==> multiset(o.answers) == multiset(p.answers))
            && (o.Forward? && Agree(f, FileSays(DnsCell(q.source))) ==> multiset(o.servers) == multiset(p.servers))
  {
    LocalAnswerOrder(b, c, f, g, domain, s, q);
    InternalOrder(b, c, f, g, domain, q.source);
    if Agree(f, FileSays(DnsCell(q.source))) {
      CustomServersOrder(b, c, f, g, domain, q.source);
      SocketsOrder(CustomServers(b, q.source), CustomServers(c, q.source));
    }
    SameDecision(b, c, s, q, answers, hosts);
  }

  function ServersAsked(custom: seq<Ip>, hosts: seq<SocketAddr>): seq<SocketAddr>
  {
    if custom == [] then hosts else Sockets(custom)
  }

  lemma SameDecision(
    b: DNSBackend, c: DNSBackend, s: Listener, q: Query, answers: seq<Record>, hosts: seq<SocketAddr>)
    requires LocalAnswer(b, s, q).Some? <==> LocalAnswer(c, s, q).Some?
    requires MayForward(b, s, q) <==> MayForward(c, s, q)
    ensures var o, p := Decide(b, s, q, answers, hosts), Decide(c, s, q, answers, hosts);
            && (o.Reply? <==> p.Reply?) && (o.NxDomain? <==> p.NxDomain?)
            && (o.Reply? ==> LocalAnswer(b, s, q).Some? && LocalAnswer(c, s, q).Some? &&
                             o.answers == answers + LocalAnswer(b, s, q).value &&
                             p.answers == answers + LocalAnswer(c, s, q).value)
            && (o.Forward? ==>
                o.servers == ServersAsked(CustomServers(b, q.source), hosts) &&
                p.servers == ServersAsked(CustomServers(c, q.source), hosts))
  {
  }
}
