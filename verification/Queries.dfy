/** What the queries answer on a backend built from files: the same as naive
    scans of the rows. */
module Queries {
  import opened Wrappers
  import opened Address
  import opened Collect
  import opened Maps
  import opened Rows
  import opened Index
  import opened Backend
  import opened Builder

  // ---------------------------------------------- lookup is a counted join

  function RowNet(): Row -> string
  {
    (e: Row) => e.net
  }

  /** How often row `e` lists `x` under `name`. */
  ghost function AnswerWeight(name: string, x: Ip): Row -> nat
  {
    (e: Row) => Count(e.aliases, name) * Count(e.ips, x)
  }

  function Times(m: nat, n: nat): nat
  {
    m * n
  }

  /** How often row `e` contributes `x` to the answer for a known requester:
      once for every way in which the requester is a member of its network. */
  ghost function JoinWeight(rows: seq<Row>, requester: Ip, name: string, x: Ip): Row -> nat
  {
    (e: Row) => Times(Sum(rows, LinkCell(rows, requester, e.net)), AnswerWeight(name, x)(e))
  }

  lemma {:induction false} NameCount(rows: seq<Row>, n: string, name: string, x: Ip)
    ensures Count(Gather(rows, NameCell(n, name)), x) ==
            Sum(rows, Matching(RowNet(), AnswerWeight(name, x), n))
  {
    if rows != [] {
      var e := rows[|rows| - 1];
      NameCount(rows[..|rows| - 1], n, name, x);
      ScatterCount(e.aliases, name, e.ips, x);
    }
  }

  /** The answer counts each row once per occurrence of its network. */
  lemma AnswerCount(b: DNSBackend, files: seq<NetworkFile>, domain: string, nets: seq<string>, name: string, x: Ip)
    requires Built(b, files, domain)
    ensures Count(Gather(nets, AddrCell(b, name)), x) ==
            Sum(AllRows(files), Weighted(nets, RowNet(), AnswerWeight(name, x)))
  {
    var rows, w := AllRows(files), AnswerWeight(name, x);
    GatherCount(nets, AddrCell(b, name), x);
    forall n
      ensures CountIn(AddrCell(b, name), x)(n) == SumMatching(rows, RowNet(), w)(n)
    {
      assert NamesAt(b.nameMappings, rows, n, name);
      NameCount(rows, n, name, x);
    }
    SumSame(nets, CountIn(AddrCell(b, name), x), SumMatching(rows, RowNet(), w));
    Exchange(nets, rows, RowNet(), w);
  }

  /** A known requester gets `x` as often as there are ways to join a row with
      the requester's address, a membership of that row's container, and a row
      of that network listing `x` under the name. */
  lemma LookupCountKnown(
    b: DNSBackend, files: seq<NetworkFile>, domain: string, requester: Ip, networkName: string, query: string, x: Ip)
    requires Built(b, files, domain) && Known(AllRows(files), requester)
    ensures Count(Addresses(b, requester, networkName, query), x) ==
            Sum(AllRows(files), JoinWeight(AllRows(files), requester, Normalise(Terminated(domain), query), x))
  {
    var rows, name := AllRows(files), Normalise(b.searchDomain, query);
    assert MappedAt(b.ipMappings, rows, requester, networkName);
    var nets := b.ipMappings[requester];
    AnswerCount(b, files, domain, nets, name, x);
    forall e | e in rows
      ensures Weighted(nets, RowNet(), AnswerWeight(name, x))(e) == JoinWeight(rows, requester, name, x)(e)
    {
      assert MappedAt(b.ipMappings, rows, requester, e.net);
    }
    SumSame(rows, Weighted(nets, RowNet(), AnswerWeight(name, x)), JoinWeight(rows, requester, name, x));
  }

  /** An unknown requester gets exactly the rows of the listener's network. */
  lemma LookupCountUnknown(
    b: DNSBackend, files: seq<NetworkFile>, domain: string, requester: Ip, networkName: string, query: string, x: Ip)
    requires Built(b, files, domain) && !Known(AllRows(files), requester)
    ensures var name := Normalise(Terminated(domain), query);
            Count(Addresses(b, requester, networkName, query), x) ==
            Sum(AllRows(files), Matching(RowNet(), AnswerWeight(name, x), networkName))
  {
    var rows, name := AllRows(files), Normalise(b.searchDomain, query);
    assert MappedAt(b.ipMappings, rows, requester, networkName);
    assert NamesAt(b.nameMappings, rows, networkName, name);
    GatherSnoc([], networkName, AddrCell(b, name));
    assert [] + [networkName] == [networkName];
    NameCount(rows, networkName, name, x);
  }

  /** The requester's own row, a row of the same container, and a row of that
      network that lists the address under the name. */
  ghost predicate Reaches(rows: seq<Row>, requester: Ip, name: string, x: Ip)
  {
    exists e1, e2, e3 ::
      && e1 in rows && requester in e1.ips
      && e2 in rows && e2.id == e1.id
      && e3 in rows && e3.net == e2.net && name in e3.aliases && x in e3.ips
  }

  /** Some row has the address, and a row of its container is in the network. */
  ghost predicate Links(rows: seq<Row>, ip: Ip, n: string)
  {
    exists e1, e2 :: e1 in rows && ip in e1.ips && e2 in rows && e2.id == e1.id && e2.net == n
  }

  /** The networks a known address is mapped to are those its containers joined. */
  lemma MappedMember(b: DNSBackend, files: seq<NetworkFile>, domain: string, ip: Ip, n: string)
    requires Built(b, files, domain)
    ensures n in Get(b.ipMappings, ip) <==> Links(AllRows(files), ip, n)
  {
    var rows := AllRows(files);
    assert MappedAt(b.ipMappings, rows, ip, n);
    SumPositive(rows, LinkCell(rows, ip, n));
    assert n in Get(b.ipMappings, ip) <==> Count(Get(b.ipMappings, ip), n) > 0;
    forall e1 | e1 in rows
      ensures LinkCell(rows, ip, n)(e1) > 0 <==> ip in e1.ips && Joined(rows, e1.id, n)
    {
      assert ip in e1.ips <==> Count(e1.ips, ip) > 0;
    }
  }

  lemma ListedMember(b: DNSBackend, files: seq<NetworkFile>, domain: string, n: string, name: string, x: Ip)
    requires Built(b, files, domain)
    ensures x in AddrCell(b, name)(n) <==>
            exists e :: e in AllRows(files) && e.net == n && name in e.aliases && x in e.ips
  {
    var rows := AllRows(files);
    assert NamesAt(b.nameMappings, rows, n, name);
    GatherMember(rows, NameCell(n, name), x);
    forall e | e in rows
      ensures x in NameCell(n, name)(e) <==> e.net == n && name in e.aliases && x in e.ips
    {
      ScatterMember(e.aliases, name, e.ips, x);
    }
  }

  lemma ScatterMember<K, V>(keys: seq<K>, k: K, vals: seq<V>, v: V)
    ensures v in Scatter(keys, k, vals) <==> k in keys && v in vals
  {
    GatherMember(keys, When(k, vals), v);
    if k in keys && v in vals {
      assert v in When(k, vals)(k);
    }
  }

  /** For a known requester, an address is in the answer exactly when the three
      rows of the join exist. */
  lemma LookupJoin(
    b: DNSBackend, files: seq<NetworkFile>, domain: string, requester: Ip, networkName: string, query: string, x: Ip)
    requires Built(b, files, domain) && Known(AllRows(files), requester)
    ensures x in Addresses(b, requester, networkName, query) <==>
            Reaches(AllRows(files), requester, Normalise(Terminated(domain), query), x)
  {
    var rows, name := AllRows(files), Normalise(b.searchDomain, query);
    assert MappedAt(b.ipMappings, rows, requester, networkName);
    var nets := b.ipMappings[requester];
    GatherMember(nets, AddrCell(b, name), x);
    if x in Gather(nets, AddrCell(b, name)) {
      var n :| n in nets && x in AddrCell(b, name)(n);
      JoinExists(b, files, domain, requester, n, name, x);
    }
    if Reaches(rows, requester, name, x) {
      var n := JoinNetwork(b, files, domain, requester, name, x);
    }
  }

  lemma JoinExists(
    b: DNSBackend, files: seq<NetworkFile>, domain: string, requester: Ip, n: string, name: string, x: Ip)
    requires Built(b, files, domain)
    requires n in Get(b.ipMappings, requester) && x in AddrCell(b, name)(n)
    ensures Reaches(AllRows(files), requester, name, x)
  {
    MappedMember(b, files, domain, requester, n);
    ListedMember(b, files, domain, n, name, x);
  }

  lemma JoinNetwork(
    b: DNSBackend, files: seq<NetworkFile>, domain: string, requester: Ip, name: string, x: Ip)
    returns (n: string)
    requires Built(b, files, domain) && Reaches(AllRows(files), requester, name, x)
    ensures n in Get(b.ipMappings, requester) && x in AddrCell(b, name)(n)
  {
    var rows := AllRows(files);
    var e1, e2, e3 :|
      && e1 in rows && requester in e1.ips
      && e2 in rows && e2.id == e1.id
      && e3 in rows && e3.net == e2.net && name in e3.aliases && x in e3.ips;
    n := e2.net;
    MappedMember(b, files, domain, requester, n);
    ListedMember(b, files, domain, n, name, x);
  }

  // ------------------------------------------------------ forward and reverse

  /** In every network, forward and reverse listings agree in number. */
  lemma IndexDuality(b: DNSBackend, files: seq<NetworkFile>, domain: string, n: string, ip: Ip, name: string)
    requires Built(b, files, domain)
    ensures Count(Get(Inner(b.reverseMappings, n), ip), name) == Count(Get(Inner(b.nameMappings, n), name), ip)
  {
    assert ReverseAt(b.reverseMappings, AllRows(files), n, ip);
    assert NamesAt(b.nameMappings, AllRows(files), n, name);
    Duality(AllRows(files), n, ip, name);
  }

  lemma OneListing(row: Row, ip: Ip)
    requires row.ips == [ip]
    ensures Gather([row], ReverseCell(row.net, ip)) == row.aliases
  {
    GatherSnoc([], row, ReverseCell(row.net, ip));
    assert [] + [row] == [row];
    ScatterSnoc([], ip, ip, row.aliases);
    assert [] + [ip] == row.ips;
    assert ReverseCell(row.net, ip)(row) == [] + row.aliases;
  }

  /** Some network of the requester lists the name for the address. */
  ghost predicate ReverseLists(b: DNSBackend, requester: Ip, ip: Ip, name: string)
  {
    exists n :: n in Get(b.ipMappings, requester) && name in Get(Inner(b.reverseMappings, n), ip)
  }

  /** Whatever a known requester asks for, an address is in the answer exactly
      when one of its networks lists the normalised name for the address. */
  lemma ForwardIsReverse(
    b: DNSBackend, files: seq<NetworkFile>, domain: string, requester: Ip, networkName: string, query: string, ip: Ip)
    requires Built(b, files, domain) && requester in b.ipMappings
    ensures ip in Addresses(b, requester, networkName, query) <==>
            ReverseLists(b, requester, ip, Normalise(b.searchDomain, query))
  {
    var nets, name := b.ipMappings[requester], Normalise(b.searchDomain, query);
    GatherMember(nets, AddrCell(b, name), ip);
    forall n | n in nets
      ensures ip in AddrCell(b, name)(n) <==> name in Get(Inner(b.reverseMappings, n), ip)
    {
      IndexDuality(b, files, domain, n, ip, name);
      assert ip in AddrCell(b, name)(n) <==> Count(AddrCell(b, name)(n), ip) > 0;
    }
  }

  /** A name given for an address in reverse is listed. */
  lemma ReverseListed(b: DNSBackend, requester: Ip, ip: Ip, name: string)
    requires Names(b, requester, ip).Some? && name in Names(b, requester, ip).value
    ensures ReverseLists(b, requester, ip, name)
  {
    FirstListing(b, requester, ip);
    var n :| n in b.ipMappings[requester] && ip in Inner(b.reverseMappings, n) &&
             Names(b, requester, ip) == Some(Inner(b.reverseMappings, n)[ip]);
    assert name in Get(Inner(b.reverseMappings, n), ip);
  }

  // ---------------------------------------------------- referential integrity

  /** Every network an address is mapped to has a listing and a known kind, and
      every mapped address is mapped to some network. */
  lemma WellLinked(b: DNSBackend, files: seq<NetworkFile>, domain: string, ip: Ip)
    requires Built(b, files, domain) && ip in b.ipMappings
    ensures b.ipMappings[ip] != []
    ensures forall n | n in b.ipMappings[ip] :: n in b.nameMappings && n in b.networkIsInternal
  {
    var rows := AllRows(files);
    forall n | n in b.ipMappings[ip]
      ensures n in b.nameMappings && n in b.networkIsInternal
    {
      MappedMember(b, files, domain, ip, n);
      var e :| e in rows && e.net == n;
      assert Listed(b.nameMappings, rows, n);
      assert LastAt(b.networkIsInternal, rows, n, InternalCell);
      LastMember(rows, InternalCell(n));
      assert InternalCell(n)(e).Some?;
    }
    assert MappedAt(b.ipMappings, rows, ip, "");
    var e :| e in rows && ip in e.ips;
    MappedMember(b, files, domain, ip, e.net);
  }
}
