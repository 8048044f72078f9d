/** The order in which the directory yields its files does not matter to what
    addresses a name has; when network names are distinct, it does not matter to
    the index of a network either. Where the last file read decides, it matters
    exactly when files disagree. */
module FileOrder {
  import opened Wrappers
  import opened Text
  import opened Address
  import opened Collect
  import opened Config
  import opened Maps
  import opened Rows
  import opened Index
  import opened Backend
  import opened Builder
  import opened Existence
  import opened Queries

  ghost predicate SameFiles(f: seq<NetworkFile>, g: seq<NetworkFile>)
  {
    multiset(f) == multiset(g)
  }

  /** The backend is built from the files, read in some order. */
  ghost predicate BuiltFrom(b: DNSBackend, files: seq<NetworkFile>, domain: string)
  {
    exists f :: SameFiles(files, f) && Built(b, f, domain)
  }

  predicate DistinctNames(files: seq<NetworkFile>)
  {
    forall i, j | 0 <= i < j < |files| :: files[i].name != files[j].name
  }

  /** The names are equal, or one is the other with the internal suffix where
      that other has none. */
  predicate Clashing(a: string, b: string)
  {
    || a == b
    || (a == b + INTERNAL_SUFFIX && !EndsWith(b, INTERNAL_SUFFIX))
    || (b == a + INTERNAL_SUFFIX && !EndsWith(a, INTERNAL_SUFFIX))
  }

  /** Two file names give one network name exactly when they clash. */
  lemma NameClash(a: string, b: string)
    ensures NetworkName(a) == NetworkName(b) <==> Clashing(a, b)
  {
    StripSuffixConcat(a, INTERNAL_SUFFIX);
    StripSuffixConcat(b, INTERNAL_SUFFIX);
  }

  predicate NoClash(dir: seq<DirEntry>)
  {
    forall i, j | 0 <= i < j < |dir| :: !Clash(dir[i], dir[j])
  }

  predicate Clash(d: DirEntry, e: DirEntry)
  {
    d.File? && e.File? && d.name.Some? && e.name.Some? && Clashing(d.name.value, e.name.value)
  }

  lemma LoadedApart(d: DirEntry, e: DirEntry, f: NetworkFile, g: NetworkFile)
    requires !Clash(d, e) && Load(d) == Some(f) && Load(e) == Some(g)
    ensures f.name != g.name
  {
    NameClash(d.name.value, e.name.value);
  }

  lemma LoadedFrom(dir: seq<DirEntry>, f: NetworkFile) returns (i: nat)
    requires f in LoadAll(dir)
    ensures i < |dir| && Load(dir[i]) == Some(f)
  {
    GatherMember(dir, Loaded, f);
    var entry :| entry in dir && f in Loaded(entry);
    i :| 0 <= i < |dir| && dir[i] == entry;
  }

  /** Without clashing names the networks that are loaded have distinct names. */
  lemma {:induction false} NoClashDistinct(dir: seq<DirEntry>)
    requires NoClash(dir)
    ensures DistinctNames(LoadAll(dir))
  {
    if dir != [] {
      var init, last := dir[..|dir| - 1], dir[|dir| - 1];
      NoClashDistinct(init);
      var files := LoadAll(init);
      if Load(last).Some? {
        forall i | 0 <= i < |files|
          ensures files[i].name != Load(last).value.name
        {
          var j := LoadedFrom(init, files[i]);
          LoadedApart(dir[j], last, files[i], Load(last).value);
        }
        assert LoadAll(dir) == files + [Load(last).value];
      } else {
        assert LoadAll(dir) == files;
      }
    }
  }

  // ----------------------------------------------------- multiplicities

  lemma SameRows(f: seq<NetworkFile>, g: seq<NetworkFile>)
    requires SameFiles(f, g)
    ensures multiset(AllRows(f)) == multiset(AllRows(g))
    ensures forall e :: e in AllRows(f) <==> e in AllRows(g)
  {
    GatherPermutation(f, g, FileRows);
    SameMembers(AllRows(f), AllRows(g));
  }

  lemma SameLinks(f: seq<NetworkFile>, g: seq<NetworkFile>, ip: Ip, n: string)
    requires SameFiles(f, g)
    ensures Known(AllRows(f), ip) <==> Known(AllRows(g), ip)
    ensures Sum(AllRows(f), LinkCell(AllRows(f), ip, n)) == Sum(AllRows(g), LinkCell(AllRows(g), ip, n))
  {
    SameRows(f, g);
    SumPermutation(AllRows(f), AllRows(g), LinkCell(AllRows(f), ip, n));
    SumSame(AllRows(g), LinkCell(AllRows(f), ip, n), LinkCell(AllRows(g), ip, n));
  }

  /** Addresses are mapped to the same networks, as often. */
  lemma MappingsOrder(
    b: DNSBackend, c: DNSBackend, f: seq<NetworkFile>, g: seq<NetworkFile>, domain: string, ip: Ip)
    requires Built(b, f, domain) && Built(c, g, domain) && SameFiles(f, g)
    ensures ip in b.ipMappings <==> ip in c.ipMappings
    ensures multiset(Get(b.ipMappings, ip)) == multiset(Get(c.ipMappings, ip))
  {
    forall n
      ensures Count(Get(b.ipMappings, ip), n) == Count(Get(c.ipMappings, ip), n)
    {
      assert MappedAt(b.ipMappings, AllRows(f), ip, n);
      assert MappedAt(c.ipMappings, AllRows(g), ip, n);
      SameLinks(f, g, ip, n);
    }
    SameCounts(Get(b.ipMappings, ip), Get(c.ipMappings, ip));
    assert MappedAt(b.ipMappings, AllRows(f), ip, "");
    assert MappedAt(c.ipMappings, AllRows(g), ip, "");
    SameLinks(f, g, ip, "");
  }

  lemma JoinWeightOrder(f: seq<NetworkFile>, g: seq<NetworkFile>, requester: Ip, name: string, x: Ip)
    requires SameFiles(f, g)
    ensures Sum(AllRows(f), JoinWeight(AllRows(f), requester, name, x)) ==
            Sum(AllRows(g), JoinWeight(AllRows(g), requester, name, x))
  {
    SameRows(f, g);
    var v, w := JoinWeight(AllRows(f), requester, name, x), JoinWeight(AllRows(g), requester, name, x);
    forall e
      ensures v(e) == w(e)
    {
      SameLinks(f, g, requester, e.net);
    }
    SumPermutation(AllRows(f), AllRows(g), v);
    SumSame(AllRows(g), v, w);
  }

  /** Every lookup returns the same addresses with the same multiplicities, for
      known and unknown requesters, whatever the order of the files. */
  lemma LookupOrder(
    b: DNSBackend, c: DNSBackend, f: seq<NetworkFile>, g: seq<NetworkFile>, domain: string,
    requester: Ip, networkName: string, query: string)
    requires Built(b, f, domain) && Built(c, g, domain) && SameFiles(f, g)
    ensures multiset(Addresses(b, requester, networkName, query)) ==
            multiset(Addresses(c, requester, networkName, query))
  {
    var name := Normalise(Terminated(domain), query);
    SameLinks(f, g, requester, networkName);
    SameRows(f, g);
    forall x
      ensures Count(Addresses(b, requester, networkName, query), x) ==
              Count(Addresses(c, requester, networkName, query), x)
    {
      if Known(AllRows(f), requester) {
        LookupCountKnown(b, f, domain, requester, networkName, query, x);
        LookupCountKnown(c, g, domain, requester, networkName, query, x);
        JoinWeightOrder(f, g, requester, name, x);
      } else {
        LookupCountUnknown(b, f, domain, requester, networkName, query, x);
        LookupCountUnknown(c, g, domain, requester, networkName, query, x);
        SumPermutation(AllRows(f), AllRows(g), Matching(RowNet(), AnswerWeight(name, x), networkName));
      }
    }
    SameCounts(Addresses(b, requester, networkName, query), Addresses(c, requester, networkName, query));
  }

  /** In every network the lists are the same up to order. */
  lemma NetworkListsOrder(
    b: DNSBackend, c: DNSBackend, f: seq<NetworkFile>, g: seq<NetworkFile>, domain: string, n: string,
    name: string, ip: Ip)
    requires Built(b, f, domain) && Built(c, g, domain) && SameFiles(f, g)
    ensures multiset(Get(Inner(b.nameMappings, n), name)) == multiset(Get(Inner(c.nameMappings, n), name))
    ensures multiset(Get(Inner(b.reverseMappings, n), ip)) == multiset(Get(Inner(c.reverseMappings, n), ip))
  {
    SameRows(f, g);
    assert NamesAt(b.nameMappings, AllRows(f), n, name) && NamesAt(c.nameMappings, AllRows(g), n, name);
    assert ReverseAt(b.reverseMappings, AllRows(f), n, ip) && ReverseAt(c.reverseMappings, AllRows(g), n, ip);
    GatherPermutation(AllRows(f), AllRows(g), NameCell(n, name));
    GatherPermutation(AllRows(f), AllRows(g), ReverseCell(n, ip));
  }

  // ------------------------------------------------- exact per-network maps

  lemma {:induction false} DistinctOnce(files: seq<NetworkFile>, f: NetworkFile)
    requires DistinctNames(files) && f in files
    ensures Count(files, f) == 1
    ensures forall g | g in files && g != f :: g.name != f.name
  {
    var init, last := files[..|files| - 1], files[|files| - 1];
    assert files == init + [last];
    if f in init {
      DistinctOnce(init, f);
      assert last != f;
    } else {
      assert Count(init, f) == 0;
      assert forall g | g in init :: exists i :: 0 <= i < |init| && files[i] == g;
    }
  }

  /** What only files of one name contribute to is independent of order. */
  lemma OneFile<V>(f: seq<NetworkFile>, g: seq<NetworkFile>, n: string, part: NetworkFile -> seq<V>)
    requires SameFiles(f, g) && DistinctNames(f)
    requires forall file: NetworkFile | file.name != n :: part(file) == []
    ensures Gather(f, part) == Gather(g, part)
  {
    SameMembers(f, g);
    if file: NetworkFile :| file in f && file.name == n {
      DistinctOnce(f, file);
      GatherOne(f, part, file);
      GatherOne(g, part, file);
    } else {
      GatherNone(f, part);
      GatherNone(g, part);
    }
  }

  lemma OneFileRows<V>(f: seq<NetworkFile>, g: seq<NetworkFile>, n: string, cell: Row -> seq<V>)
    requires SameFiles(f, g) && DistinctNames(f)
    requires forall e: Row | e.net != n :: cell(e) == []
    ensures Gather(AllRows(f), cell) == Gather(AllRows(g), cell)
  {
    GatherFuse(f, FileRows, cell);
    GatherFuse(g, FileRows, cell);
    forall file: NetworkFile | file.name != n
      ensures Then(FileRows, cell)(file) == []
    {
      GatherNone(FileRows(file), cell);
    }
    OneFile(f, g, n, Then(FileRows, cell));
  }

  /** The two halves of each network's index are the same, lists in order. */
  lemma NetworkMapsOrder(
    b: DNSBackend, c: DNSBackend, f: seq<NetworkFile>, g: seq<NetworkFile>, domain: string, n: string)
    requires Built(b, f, domain) && Built(c, g, domain) && SameFiles(f, g) && DistinctNames(f)
    ensures n in b.nameMappings <==> n in c.nameMappings
    ensures Inner(b.nameMappings, n) == Inner(c.nameMappings, n)
    ensures Inner(b.reverseMappings, n) == Inner(c.reverseMappings, n)
  {
    SameRows(f, g);
    assert Listed(b.nameMappings, AllRows(f), n) && Listed(c.nameMappings, AllRows(g), n);
    NamesOrder(b, c, f, g, domain, n);
    ReverseOrder(b, c, f, g, domain, n);
  }

  lemma NamesOrder(
    b: DNSBackend, c: DNSBackend, f: seq<NetworkFile>, g: seq<NetworkFile>, domain: string, n: string)
    requires Built(b, f, domain) && Built(c, g, domain) && SameFiles(f, g) && DistinctNames(f)
    ensures Inner(b.nameMappings, n) == Inner(c.nameMappings, n)
  {
    SameRows(f, g);
    var p, q := Inner(b.nameMappings, n), Inner(c.nameMappings, n);
    forall name
      ensures name in p <==> name in q
      ensures Get(p, name) == Get(q, name)
    {
      assert NamesAt(b.nameMappings, AllRows(f), n, name);
      assert NamesAt(c.nameMappings, AllRows(g), n, name);
      OneFileRows(f, g, n, NameCell(n, name));
    }
    SameMap(p, q);
  }

  lemma ReverseOrder(
    b: DNSBackend, c: DNSBackend, f: seq<NetworkFile>, g: seq<NetworkFile>, domain: string, n: string)
    requires Built(b, f, domain) && Built(c, g, domain) && SameFiles(f, g) && DistinctNames(f)
    ensures Inner(b.reverseMappings, n) == Inner(c.reverseMappings, n)
  {
    SameRows(f, g);
    var p, q := Inner(b.reverseMappings, n), Inner(c.reverseMappings, n);
    forall ip
      ensures ip in p <==> ip in q
      ensures Get(p, ip) == Get(q, ip)
    {
      assert ReverseAt(b.reverseMappings, AllRows(f), n, ip);
      assert ReverseAt(c.reverseMappings, AllRows(g), n, ip);
      OneFileRows(f, g, n, ReverseCell(n, ip));
    }
    SameMap(p, q);
  }

  lemma SameMap<K(!new), V>(p: map<K, seq<V>>, q: map<K, seq<V>>)
    requires forall k :: k in p <==> k in q
    requires forall k :: Get(p, k) == Get(q, k)
    ensures p == q
  {
    forall k | k in p
      ensures p[k] == q[k]
    {
      assert Get(p, k) == Get(q, k);
    }
  }

  /** Rows of one network come from one file, so they agree on its kind. */
  lemma SameNetSameKind(files: seq<NetworkFile>, d: Row, e: Row)
    requires DistinctNames(files) && d in AllRows(files) && e in AllRows(files) && d.net == e.net
    ensures d.internal == e.internal
  {
    GatherMember(files, FileRows, d);
    GatherMember(files, FileRows, e);
    var f :| f in files && d in FileRows(f);
    var g :| g in files && e in FileRows(g);
    DistinctOnce(files, f);
  }

  /** The kinds and the DNS servers of networks are the same. */
  lemma KindsOrder(
    b: DNSBackend, c: DNSBackend, f: seq<NetworkFile>, g: seq<NetworkFile>, domain: string, n: string)
    requires Built(b, f, domain) && Built(c, g, domain) && SameFiles(f, g) && DistinctNames(f)
    ensures Find(b.networkIsInternal, n) == Find(c.networkIsInternal, n)
    ensures Find(b.networkDnsServer, n) == Find(c.networkDnsServer, n)
  {
    assert LastAt(b.networkIsInternal, AllRows(f), n, InternalCell);
    assert LastAt(c.networkIsInternal, AllRows(g), n, InternalCell);
    assert LastAt(b.networkDnsServer, f, n, NetworkDnsCell);
    assert LastAt(c.networkDnsServer, g, n, NetworkDnsCell);
    SameRows(f, g);
    forall d, e | d in AllRows(f) && e in AllRows(f) && InternalCell(n)(d).Some? && InternalCell(n)(e).Some?
      ensures InternalCell(n)(d) == InternalCell(n)(e)
    {
      SameNetSameKind(f, d, e);
    }
    LastAgree(AllRows(f), AllRows(g), InternalCell(n));
    forall x, y | x in f && y in f && NetworkDnsCell(n)(x).Some? && NetworkDnsCell(n)(y).Some?
      ensures NetworkDnsCell(n)(x) == NetworkDnsCell(n)(y)
    {
      DistinctOnce(f, x);
    }
    LastAgree(f, g, NetworkDnsCell(n));
  }

  /** Whether a container is internal does not depend on the order. */
  lemma InternalOrder(
    b: DNSBackend, c: DNSBackend, f: seq<NetworkFile>, g: seq<NetworkFile>, domain: string, requester: Ip)
    requires Built(b, f, domain) && Built(c, g, domain) && SameFiles(f, g) && DistinctNames(f)
    ensures IsInternal(b, requester) == IsInternal(c, requester)
  {
    MappingsOrder(b, c, f, g, domain, requester);
    SameMembers(Get(b.ipMappings, requester), Get(c.ipMappings, requester));
    forall n
      ensures Find(b.networkIsInternal, n) == Find(c.networkIsInternal, n)
    {
      KindsOrder(b, c, f, g, domain, n);
    }
    forall n | n in Get(b.ipMappings, requester)
      ensures n in b.networkIsInternal <==> n in c.networkIsInternal
      ensures n in b.networkIsInternal ==> b.networkIsInternal[n] == c.networkIsInternal[n]
    {
      assert Find(b.networkIsInternal, n) == Find(c.networkIsInternal, n);
    }
  }

  /** The addresses to listen on are the same, lists in order. */
  lemma ListenOrder<V>(
    m: map<string, seq<V>>, k: map<string, seq<V>>, f: seq<NetworkFile>, g: seq<NetworkFile>, only: Ip -> seq<V>)
    requires RepListen(m, f, only) && RepListen(k, g, only) && SameFiles(f, g) && DistinctNames(f)
    ensures m == k
  {
    forall n
      ensures n in m <==> n in k
      ensures Get(m, n) == Get(k, n)
    {
      assert ListenAt(m, f, n, only) && ListenAt(k, g, n, only);
      OneFile(f, g, n, ListenCell(n, only));
    }
    SameMap(m, k);
  }

  /** A requester's network-scoped servers are the same up to order, which
      follows that of its networks. */
  lemma ResolversOrder(
    b: DNSBackend, c: DNSBackend, f: seq<NetworkFile>, g: seq<NetworkFile>, domain: string, requester: Ip)
    requires Built(b, f, domain) && Built(c, g, domain) && SameFiles(f, g) && DistinctNames(f)
    ensures Resolvers(b, requester).Some? <==> Resolvers(c, requester).Some?
    ensures Resolvers(b, requester).Some? ==>
              multiset(Resolvers(b, requester).value) == multiset(Resolvers(c, requester).value)
  {
    MappingsOrder(b, c, f, g, domain, requester);
    var nets, others := Get(b.ipMappings, requester), Get(c.ipMappings, requester);
    forall n | n in others
      ensures ResolverCell(b)(n) == ResolverCell(c)(n)
    {
      KindsOrder(b, c, f, g, domain, n);
    }
    GatherPermutation(nets, others, ResolverCell(b));
    GatherSame(others, ResolverCell(b), ResolverCell(c));
  }

  // ---------------------------------------- what the last file decides

  /** What a file has to say about a key, from its rows. */
  function FileSays<V>(cell: Row -> Option<V>): NetworkFile -> Option<V>
  {
    LastIn(FileRows, cell)
  }

  lemma RowsOrderFree<V>(files: seq<NetworkFile>, f: seq<NetworkFile>, cell: Row -> Option<V>)
    requires Agree(files, FileSays(cell)) && SameFiles(files, f)
    ensures Last(AllRows(f), cell) == Last(files, FileSays(cell))
  {
    LastFuse(f, FileRows, cell);
    LastAgree(files, f, FileSays(cell));
  }

  lemma ReadLast<V>(files: seq<NetworkFile>, x: NetworkFile, cell: Row -> Option<V>) returns (f: seq<NetworkFile>)
    requires x in files && FileSays(cell)(x).Some?
    ensures SameFiles(files, f) && Last(AllRows(f), cell) == FileSays(cell)(x)
  {
    f := LastFirst(files, x, FileSays(cell));
    LastFuse(f, FileRows, cell);
  }

  lemma RowsOrderMatters<V>(files: seq<NetworkFile>, cell: Row -> Option<V>)
    returns (f: seq<NetworkFile>, g: seq<NetworkFile>)
    requires !Agree(files, FileSays(cell))
    ensures SameFiles(files, f) && SameFiles(files, g)
    ensures Last(AllRows(f), cell) != Last(AllRows(g), cell)
  {
    var x, y :| x in files && y in files && FileSays(cell)(x).Some? && FileSays(cell)(y).Some? &&
                FileSays(cell)(x) != FileSays(cell)(y);
    f := ReadLast(files, x, cell);
    g := ReadLast(files, y, cell);
  }

  /** Whatever the last row decides is independent of the order of the files
      exactly when the files that say anything about it agree. */
  lemma RowsOrderExactly<V>(files: seq<NetworkFile>, cell: Row -> Option<V>)
    ensures Agree(files, FileSays(cell)) <==>
            forall f, g | SameFiles(files, f) && SameFiles(files, g) ::
              Last(AllRows(f), cell) == Last(AllRows(g), cell)
  {
    if Agree(files, FileSays(cell)) {
      forall f, g | SameFiles(files, f) && SameFiles(files, g)
        ensures Last(AllRows(f), cell) == Last(AllRows(g), cell)
      {
        RowsOrderFree(files, f, cell);
        RowsOrderFree(files, g, cell);
      }
    } else {
      var f, g := RowsOrderMatters(files, cell);
    }
  }

  /** A container's own servers are the same for every order when the files
      that have the address off internal networks agree on its servers. */
  lemma CtrDnsOrder(
    b: DNSBackend, c: DNSBackend, f: seq<NetworkFile>, g: seq<NetworkFile>, domain: string, ip: Ip)
    requires Built(b, f, domain) && Built(c, g, domain) && SameFiles(f, g)
    requires Agree(f, FileSays(DnsCell(ip)))
    ensures Find(b.ctrDnsServer, ip) == Find(c.ctrDnsServer, ip)
  {
    assert LastAt(b.ctrDnsServer, AllRows(f), ip, DnsCell) && LastAt(c.ctrDnsServer, AllRows(g), ip, DnsCell);
    RowsOrderFree(f, f, DnsCell(ip));
    RowsOrderFree(f, g, DnsCell(ip));
  }

  lemma AgreeOrder<V>(files: seq<NetworkFile>, f: seq<NetworkFile>, says: NetworkFile -> Option<V>)
    requires SameFiles(files, f) && Agree(files, says)
    ensures Agree(f, says)
  {
    SameMembers(files, f);
  }

  /** When two of them disagree, there are backends built in two orders that
      give the address different servers. */
  lemma CtrDnsOrderMatters(files: seq<NetworkFile>, domain: string, ip: Ip) returns (b: DNSBackend, c: DNSBackend)
    requires !Agree(files, FileSays(DnsCell(ip)))
    ensures BuiltFrom(b, files, domain) && BuiltFrom(c, files, domain)
    ensures Find(b.ctrDnsServer, ip) != Find(c.ctrDnsServer, ip)
  {
    var f, g := RowsOrderMatters(files, DnsCell(ip));
    b := SomeBackend(f, domain);
    c := SomeBackend(g, domain);
    assert LastAt(b.ctrDnsServer, AllRows(f), ip, DnsCell) && LastAt(c.ctrDnsServer, AllRows(g), ip, DnsCell);
  }

  /** Both together. */
  lemma CtrDnsOrderExactly(files: seq<NetworkFile>, domain: string, ip: Ip)
    ensures Agree(files, FileSays(DnsCell(ip))) <==>
            forall b, c | BuiltFrom(b, files, domain) && BuiltFrom(c, files, domain) ::
              Find(b.ctrDnsServer, ip) == Find(c.ctrDnsServer, ip)
  {
    if Agree(files, FileSays(DnsCell(ip))) {
      forall b, c | BuiltFrom(b, files, domain) && BuiltFrom(c, files, domain)
        ensures Find(b.ctrDnsServer, ip) == Find(c.ctrDnsServer, ip)
      {
        var f :| SameFiles(files, f) && Built(b, f, domain);
        var g :| SameFiles(files, g) && Built(c, g, domain);
        AgreeOrder(files, f, FileSays(DnsCell(ip)));
        CtrDnsOrder(b, c, f, g, domain, ip);
      }
    } else {
      var b, c := CtrDnsOrderMatters(files, domain, ip);
    }
  }

  lemma KindMatters(files: seq<NetworkFile>, domain: string, n: string) returns (b: DNSBackend, c: DNSBackend)
    requires !Agree(files, FileSays(InternalCell(n)))
    ensures BuiltFrom(b, files, domain) && BuiltFrom(c, files, domain)
    ensures Find(b.networkIsInternal, n) != Find(c.networkIsInternal, n)
  {
    var f, g := RowsOrderMatters(files, InternalCell(n));
    b := SomeBackend(f, domain);
    c := SomeBackend(g, domain);
    assert LastAt(b.networkIsInternal, AllRows(f), n, InternalCell);
    assert LastAt(c.networkIsInternal, AllRows(g), n, InternalCell);
  }

  /** The kind of a network, too, is independent of the order exactly when the
      files with a row of it agree, as they do when no two files share a network
      name. */
  lemma KindOrderExactly(files: seq<NetworkFile>, domain: string, n: string)
    ensures Agree(files, FileSays(InternalCell(n))) <==>
            forall b, c | BuiltFrom(b, files, domain) && BuiltFrom(c, files, domain) ::
              Find(b.networkIsInternal, n) == Find(c.networkIsInternal, n)
  {
    if Agree(files, FileSays(InternalCell(n))) {
      forall b, c | BuiltFrom(b, files, domain) && BuiltFrom(c, files, domain)
        ensures Find(b.networkIsInternal, n) == Find(c.networkIsInternal, n)
      {
        var f :| SameFiles(files, f) && Built(b, f, domain);
        var g :| SameFiles(files, g) && Built(c, g, domain);
        assert LastAt(b.networkIsInternal, AllRows(f), n, InternalCell);
        assert LastAt(c.networkIsInternal, AllRows(g), n, InternalCell);
        RowsOrderFree(files, f, InternalCell(n));
        RowsOrderFree(files, g, InternalCell(n));
      }
    } else {
      var b, c := KindMatters(files, domain, n);
    }
  }

  lemma NetworkDnsMatters(files: seq<NetworkFile>, domain: string, n: string) returns (b: DNSBackend, c: DNSBackend)
    requires !Agree(files, NetworkDnsCell(n))
    ensures BuiltFrom(b, files, domain) && BuiltFrom(c, files, domain)
    ensures Find(b.networkDnsServer, n) != Find(c.networkDnsServer, n)
  {
    var x, y :| x in files && y in files && NetworkDnsCell(n)(x).Some? && NetworkDnsCell(n)(y).Some? &&
                NetworkDnsCell(n)(x) != NetworkDnsCell(n)(y);
    var f := LastFirst(files, x, NetworkDnsCell(n));
    var g := LastFirst(files, y, NetworkDnsCell(n));
    assert SameFiles(files, f) && SameFiles(files, g);
    b := SomeBackend(f, domain);
    c := SomeBackend(g, domain);
    assert LastAt(b.networkDnsServer, f, n, NetworkDnsCell) && LastAt(c.networkDnsServer, g, n, NetworkDnsCell);
  }

  /** And so are the servers of a network. */
  lemma NetworkDnsOrderExactly(files: seq<NetworkFile>, domain: string, n: string)
    ensures Agree(files, NetworkDnsCell(n)) <==>
            forall b, c | BuiltFrom(b, files, domain) && BuiltFrom(c, files, domain) ::
              Find(b.networkDnsServer, n) == Find(c.networkDnsServer, n)
  {
    if Agree(files, NetworkDnsCell(n)) {
      forall b, c | BuiltFrom(b, files, domain) && BuiltFrom(c, files, domain)
        ensures Find(b.networkDnsServer, n) == Find(c.networkDnsServer, n)
      {
        var f :| SameFiles(files, f) && Built(b, f, domain);
        var g :| SameFiles(files, g) && Built(c, g, domain);
        assert LastAt(b.networkDnsServer, f, n, NetworkDnsCell) && LastAt(c.networkDnsServer, g, n, NetworkDnsCell);
        LastAgree(files, f, NetworkDnsCell(n));
        LastAgree(files, g, NetworkDnsCell(n));
      }
    } else {
      var b, c := NetworkDnsMatters(files, domain, n);
    }
  }

  // --------------------------------------------------------------- witness

  function OneContainer(net: string, ip: Octets, alias: string, dns: Option<seq<Ip>>): NetworkFile
  {
    NetworkFile(net, false, NetworkConfig([V4([10, 0, 0, 1])], [CtrEntry("a", Some([ip]), None, [alias], dns)], []))
  }

  lemma OneContainerRows(net: string, ip: Octets, alias: string, dns: Option<seq<Ip>>)
    ensures FileRows(OneContainer(net, ip, alias, dns)) == [Row(net, false, "a", [V4(ip)], [alias], dns)]
  {
    var e := OneContainer(net, ip, alias, dns).config.entries[0];
    assert V4Ips(e.v4) + V6Ips(e.v6) == [V4(ip)];
  }

  lemma OneRow(f: NetworkFile, row: Row)
    requires FileRows(f) == [row]
    ensures AllRows([f]) == [row]
  {
    GatherSnoc([], f, FileRows);
    assert [] + [f] == [f];
  }

  lemma TwoRows(f: NetworkFile, g: NetworkFile, d: Row, e: Row)
    requires FileRows(f) == [d] && FileRows(g) == [e]
    ensures AllRows([f, g]) == [d, e]
  {
    OneRow(f, d);
    GatherSnoc([f], g, FileRows);
    assert [f, g] == [f] + [g];
    assert AllRows([f, g]) == [d] + [e];
  }

  lemma OneContainerDns(net: string, ip: Octets, dns: Option<seq<Ip>>)
    ensures FileSays(DnsCell(V4(ip)))(OneContainer(net, ip, "web", dns)) == Some(dns)
  {
    OneContainerRows(net, ip, "web", dns);
    var row := Row(net, false, "a", [V4(ip)], ["web"], dns);
    LastSnoc([], row, DnsCell(V4(ip)));
    assert [] + [row] == [row];
  }

  /** Two networks that give one address different servers, for instance. */
  lemma TwoServers()
    ensures var ip := [10, 0, 0, 2];
            var left := OneContainer("left", ip, "web", Some([V4([8, 8, 8, 8])]));
            var right := OneContainer("right", ip, "web", Some([V4([9, 9, 9, 9])]));
            !Agree([left, right], FileSays(DnsCell(V4(ip))))
  {
    var ip := [10, 0, 0, 2];
    var left := OneContainer("left", ip, "web", Some([V4([8, 8, 8, 8])]));
    var right := OneContainer("right", ip, "web", Some([V4([9, 9, 9, 9])]));
    OneContainerDns("left", ip, Some([V4([8, 8, 8, 8])]));
    OneContainerDns("right", ip, Some([V4([9, 9, 9, 9])]));
    assert left in [left, right] && right in [left, right];
  }
}
