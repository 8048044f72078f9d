/** What keeps internal containers from other servers, and which servers the
    others are sent to. */
module Isolation {
  import opened Wrappers
  import opened Address
  import opened Collect
  import opened Config
  import opened Maps
  import opened Rows
  import opened Index
  import opened Backend
  import opened Builder
  import opened Queries
  import opened FileOrder
  import opened CoreDns
  import opened Answers

  // ------------------------------------------------------- who is internal

  /** Some row has the address, and every container with it has joined only
      networks that are internal. */
  ghost predicate OnlyInternal(rows: seq<Row>, ip: Ip)
  {
    && Known(rows, ip)
    && forall e1, e2 | e1 in rows && ip in e1.ips && e2 in rows && e2.id == e1.id :: e2.internal
  }

  lemma KindKnown(b: DNSBackend, files: seq<NetworkFile>, domain: string, e: Row)
    requires Built(b, files, domain) && e in AllRows(files)
    ensures e.net in b.networkIsInternal
    ensures Last(AllRows(files), InternalCell(e.net)) == Some(b.networkIsInternal[e.net])
  {
    assert LastAt(b.networkIsInternal, AllRows(files), e.net, InternalCell);
    LastMember(AllRows(files), InternalCell(e.net));
    assert InternalCell(e.net)(e).Some?;
  }

  /** Every container with the address has joined only networks whose last row
      is internal. */
  ghost predicate LastInternal(rows: seq<Row>, ip: Ip)
  {
    && Known(rows, ip)
    && forall e1, e2 | e1 in rows && ip in e1.ips && e2 in rows && e2.id == e1.id ::
         Last(rows, InternalCell(e2.net)) == Some(true)
  }

  /** In general the kind of a network is that of the last row read for it. */
  lemma InternalExact(b: DNSBackend, files: seq<NetworkFile>, domain: string, ip: Ip)
    requires Built(b, files, domain)
    ensures IsInternal(b, ip) <==> LastInternal(AllRows(files), ip)
  {
    assert MappedAt(b.ipMappings, AllRows(files), ip, "");
    if IsInternal(b, ip) {
      InternalGives(b, files, domain, ip);
    }
    if LastInternal(AllRows(files), ip) {
      forall n | n in b.ipMappings[ip] && n in b.networkIsInternal
        ensures b.networkIsInternal[n]
      {
        MappedMember(b, files, domain, ip, n);
        var e1, e2 :| e1 in AllRows(files) && ip in e1.ips && e2 in AllRows(files) && e2.id == e1.id && e2.net == n;
        KindKnown(b, files, domain, e2);
      }
    }
  }

  lemma InternalGives(b: DNSBackend, files: seq<NetworkFile>, domain: string, ip: Ip)
    requires Built(b, files, domain) && IsInternal(b, ip)
    ensures LastInternal(AllRows(files), ip)
  {
    var rows := AllRows(files);
    assert MappedAt(b.ipMappings, rows, ip, "");
    forall e1, e2 | e1 in rows && ip in e1.ips && e2 in rows && e2.id == e1.id
      ensures Last(rows, InternalCell(e2.net)) == Some(true)
    {
      MappedMember(b, files, domain, ip, e2.net);
      KindKnown(b, files, domain, e2);
    }
  }

  lemma KindOfRow(files: seq<NetworkFile>, e: Row)
    requires DistinctNames(files) && e in AllRows(files)
    ensures Last(AllRows(files), InternalCell(e.net)) == Some(e.internal)
  {
    var rows := AllRows(files);
    LastMember(rows, InternalCell(e.net));
    assert InternalCell(e.net)(e).Some?;
    var d :| d in rows && InternalCell(e.net)(d) == Last(rows, InternalCell(e.net));
    SameNetSameKind(files, d, e);
  }

  /** With distinct network names, a requester counts as internal exactly when
      it is known and has joined internal networks only. */
  lemma InternalMeans(b: DNSBackend, files: seq<NetworkFile>, domain: string, ip: Ip)
    requires Built(b, files, domain) && DistinctNames(files)
    ensures IsInternal(b, ip) <==> OnlyInternal(AllRows(files), ip)
  {
    InternalExact(b, files, domain, ip);
    forall e | e in AllRows(files)
      ensures Last(AllRows(files), InternalCell(e.net)) == Some(e.internal)
    {
      KindOfRow(files, e);
    }
  }

  /** An address has DNS servers of its own, possibly none, exactly when some
      row off the internal networks has it. */
  lemma CtrDnsExact(b: DNSBackend, files: seq<NetworkFile>, domain: string, ip: Ip)
    requires Built(b, files, domain)
    ensures ip in b.ctrDnsServer <==> exists e :: e in AllRows(files) && !e.internal && ip in e.ips
  {
    assert LastAt(b.ctrDnsServer, AllRows(files), ip, DnsCell);
    LastMember(AllRows(files), DnsCell(ip));
    forall e | e in AllRows(files)
      ensures DnsCell(ip)(e).Some? <==> !e.internal && ip in e.ips
    {
    }
  }

  // -------------------------------------------------------------- isolation

  /** No row off the internal networks has the address. */
  ghost predicate NoOpenRow(rows: seq<Row>, ip: Ip)
  {
    forall e | e in rows && !e.internal :: ip !in e.ips
  }

  /** The last file to set the servers of a network sets none, for every network
      that a container with the address has joined. */
  ghost predicate NoNetworkServers(files: seq<NetworkFile>, ip: Ip)
  {
    forall n | Links(AllRows(files), ip, n) ::
      var last := Last(files, NetworkDnsCell(n)); last.Some? ==> last.value == []
  }

  lemma ServersOf(b: DNSBackend, files: seq<NetworkFile>, domain: string, n: string)
    requires Built(b, files, domain)
    ensures var last := Last(files, NetworkDnsCell(n)); ResolverCell(b)(n) == if last.Some? then last.value else []
  {
    assert LastAt(b.networkDnsServer, files, n, NetworkDnsCell);
  }

  lemma ResolversExactly(b: DNSBackend, files: seq<NetworkFile>, domain: string, ip: Ip)
    requires Built(b, files, domain) && ip in b.ipMappings
    ensures Resolvers(b, ip) == Some([]) <==> NoNetworkServers(files, ip)
  {
    var nets := b.ipMappings[ip];
    forall n
      ensures n in nets <==> Links(AllRows(files), ip, n)
    {
      MappedMember(b, files, domain, ip, n);
      ServersOf(b, files, domain, n);
    }
    if NoNetworkServers(files, ip) {
      forall n | n in nets
        ensures ResolverCell(b)(n) == []
      {
        ServersOf(b, files, domain, n);
      }
      GatherNone(nets, ResolverCell(b));
    } else {
      var n :| Links(AllRows(files), ip, n) && Last(files, NetworkDnsCell(n)).Some? &&
               Last(files, NetworkDnsCell(n)).value != [];
      ServersOf(b, files, domain, n);
      var x := ResolverCell(b)(n)[0];
      assert n in nets && x in ResolverCell(b)(n);
      GatherMember(nets, ResolverCell(b), x);
    }
  }

  /** Nothing that a requester counted as internal asks is ever forwarded. It
      has no DNS servers, its own or its networks', exactly when no row off the
      internal networks has its address and, of each of its networks, no file
      has the last word with servers. */
  lemma IsolationExactly(
    b: DNSBackend, files: seq<NetworkFile>, domain: string, s: Listener, q: Query,
    answers: seq<Record>, hosts: seq<SocketAddr>)
    requires Built(b, files, domain) && IsInternal(b, q.source)
    ensures !Decide(b, s, q, answers, hosts).Forward?
    ensures q.source !in b.ctrDnsServer && Resolvers(b, q.source) == Some([]) <==>
            NoOpenRow(AllRows(files), q.source) && NoNetworkServers(files, q.source)
  {
    CtrDnsExact(b, files, domain, q.source);
    ResolversExactly(b, files, domain, q.source);
  }

  lemma InternalNetworkHasNoServers(files: seq<NetworkFile>, e: Row)
    requires DistinctNames(files) && e in AllRows(files) && e.internal
    ensures Last(files, NetworkDnsCell(e.net)) == Some([])
  {
    GatherMember(files, FileRows, e);
    var f :| f in files && e in FileRows(f);
    LastMember(files, NetworkDnsCell(e.net));
    assert NetworkDnsCell(e.net)(f) == Some([]);
    var g :| g in files && NetworkDnsCell(e.net)(g) == Last(files, NetworkDnsCell(e.net));
    DistinctOnce(files, f);
  }

  /** With distinct network names that is always so. */
  lemma InternalIsolation(
    b: DNSBackend, files: seq<NetworkFile>, domain: string, s: Listener, q: Query,
    answers: seq<Record>, hosts: seq<SocketAddr>)
    requires Built(b, files, domain) && DistinctNames(files)
    requires IsInternal(b, q.source)
    ensures q.source !in b.ctrDnsServer
    ensures Resolvers(b, q.source) == Some([])
    ensures !Decide(b, s, q, answers, hosts).Forward?
  {
    var rows, ip := AllRows(files), q.source;
    InternalMeans(b, files, domain, ip);
    IsolationExactly(b, files, domain, s, q, answers, hosts);
    forall n | Links(rows, ip, n)
      ensures Last(files, NetworkDnsCell(n)) == Some([])
    {
      var e1, e2 :| e1 in rows && ip in e1.ips && e2 in rows && e2.id == e1.id && e2.net == n;
      InternalNetworkHasNoServers(files, e2);
    }
  }

  /** Without distinct names either half can fail: files `podman` and
      `podman%int` describe one network, whose kind is that of the row read
      last, so a container of the first, with DNS servers of its own, counts as
      internal. */
  lemma CollapsedNames(b: DNSBackend, domain: string)
    requires var open := NetworkConfig([V4([10, 0, 0, 1])],
               [CtrEntry("a", Some([[10, 0, 0, 2]]), None, ["web"], Some([V4([8, 8, 8, 8])]))], []);
             var closed := NetworkConfig([V4([10, 0, 0, 1])],
               [CtrEntry("b", Some([[10, 0, 0, 3]]), None, ["db"], None)], []);
             Built(b, [NetworkFile("podman", false, open), NetworkFile("podman", true, closed)], domain)
    ensures IsInternal(b, V4([10, 0, 0, 2]))
    ensures V4([10, 0, 0, 2]) in b.ctrDnsServer
  {
    var open := NetworkConfig([V4([10, 0, 0, 1])],
      [CtrEntry("a", Some([[10, 0, 0, 2]]), None, ["web"], Some([V4([8, 8, 8, 8])]))], []);
    var closed := NetworkConfig([V4([10, 0, 0, 1])],
      [CtrEntry("b", Some([[10, 0, 0, 3]]), None, ["db"], None)], []);
    var f, g := NetworkFile("podman", false, open), NetworkFile("podman", true, closed);
    var d, e := RowOf("podman", false, open.entries[0]), RowOf("podman", true, closed.entries[0]);
    TwoRows(f, g, d, e);
    var rows := AllRows([f, g]);
    assert d.ips == [V4([10, 0, 0, 2])];
    assert d in rows;
    InternalExact(b, [f, g], domain, V4([10, 0, 0, 2]));
    CtrDnsExact(b, [f, g], domain, V4([10, 0, 0, 2]));
    LastSnoc([d], e, InternalCell("podman"));
    assert [d] + [e] == rows;
  }

  /** And when `podman%int` is read first and `podman`, without containers but
      with servers in its header, second, a container of the first counts as
      internal but has those servers. */
  lemma CollapsedServers(b: DNSBackend, domain: string)
    requires var closed := NetworkConfig([V4([10, 0, 0, 1])],
               [CtrEntry("b", Some([[10, 0, 0, 3]]), None, ["db"], None)], []);
             var open := NetworkConfig([V4([10, 0, 0, 1])], [], [V4([8, 8, 8, 8])]);
             Built(b, [NetworkFile("podman", true, closed), NetworkFile("podman", false, open)], domain)
    ensures IsInternal(b, V4([10, 0, 0, 3]))
    ensures V4([10, 0, 0, 3]) !in b.ctrDnsServer
    ensures Resolvers(b, V4([10, 0, 0, 3])) != Some([])
  {
    var closed := NetworkConfig([V4([10, 0, 0, 1])],
      [CtrEntry("b", Some([[10, 0, 0, 3]]), None, ["db"], None)], []);
    var open := NetworkConfig([V4([10, 0, 0, 1])], [], [V4([8, 8, 8, 8])]);
    var f, g, ip := NetworkFile("podman", true, closed), NetworkFile("podman", false, open), V4([10, 0, 0, 3]);
    var e := RowOf("podman", true, closed.entries[0]);
    OneFileOfRows(f, g, e);
    assert e.ips == [ip];
    LastSnoc([f], g, NetworkDnsCell("podman"));
    assert [f] + [g] == [f, g];
    LaterServers(b, [f, g], domain, e, ip);
  }

  lemma LaterServers(b: DNSBackend, files: seq<NetworkFile>, domain: string, e: Row, ip: Ip)
    requires Built(b, files, domain) && AllRows(files) == [e] && e.internal && e.ips == [ip]
    requires Last(files, NetworkDnsCell(e.net)).Some? && Last(files, NetworkDnsCell(e.net)).value != []
    ensures IsInternal(b, ip) && ip !in b.ctrDnsServer && Resolvers(b, ip) != Some([])
  {
    assert e in [e] && ip in e.ips;
    assert Links([e], ip, e.net);
    LastSnoc([], e, InternalCell(e.net));
    assert [] + [e] == [e];
    InternalExact(b, files, domain, ip);
    CtrDnsExact(b, files, domain, ip);
    ResolversExactly(b, files, domain, ip);
  }

  lemma OneFileOfRows(f: NetworkFile, g: NetworkFile, e: Row)
    requires FileRows(f) == [e] && FileRows(g) == []
    ensures AllRows([f, g]) == [e]
  {
    OneRow(f, e);
    GatherSnoc([f], g, FileRows);
    assert [f, g] == [f] + [g];
  }

  // ------------------------------------------------------ resolver precedence

  lemma CtrServersPresent(b: DNSBackend, files: seq<NetworkFile>, domain: string, ip: Ip)
    requires Built(b, files, domain) && ParsedFiles(files)
    ensures ip in b.ctrDnsServer && b.ctrDnsServer[ip].Some? ==> b.ctrDnsServer[ip].value != []
  {
    var rows := AllRows(files);
    assert LastAt(b.ctrDnsServer, rows, ip, DnsCell);
    LastMember(rows, DnsCell(ip));
    if ip in b.ctrDnsServer && b.ctrDnsServer[ip].Some? {
      var e :| e in rows && DnsCell(ip)(e) == Last(rows, DnsCell(ip));
      RowFromEntry(files, e);
    }
  }

  /** A forwarded query goes to the container's servers if it has any; else to
      those of its networks, in the order of the networks, if there are any;
      else to the host's. A container configured with servers never falls
      through, because parsing yields no empty list. */
  lemma ResolverPrecedence(
    b: DNSBackend, dir: seq<DirEntry>, domain: string, s: Listener, q: Query,
    answers: seq<Record>, hosts: seq<SocketAddr>)
    requires Built(b, LoadAll(dir), domain)
    requires Decide(b, s, q, answers, hosts).Forward?
    ensures var own := Last(AllRows(LoadAll(dir)), DnsCell(q.source));
            var scoped := Gather(Get(b.ipMappings, q.source), ResolverCell(b));
            Decide(b, s, q, answers, hosts).servers ==
            if own.Some? && own.value.Some? then Sockets(own.value.value)
            else if scoped != [] then Sockets(scoped)
            else hosts
  {
    LoadedAreParsed(dir);
    CtrServersPresent(b, LoadAll(dir), domain, q.source);
    assert LastAt(b.ctrDnsServer, AllRows(LoadAll(dir)), q.source, DnsCell);
  }
}
