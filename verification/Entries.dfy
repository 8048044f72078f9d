/** What the indexes hold, said of the entries of the loaded files themselves:
    their addresses, names and servers, and the files' networks and kinds. */
module Entries {
  import opened Wrappers
  import opened Address
  import opened Collect
  import opened Config
  import opened Maps
  import opened Rows
  import opened Index
  import opened Backend
  import opened Builder
  import opened Queries

  // ------------------------------------------------- addresses of an entry

  /** The address stands in the entry's column for its family. */
  predicate HasIp(e: CtrEntry, ip: Ip)
  {
    match ip
    case V4(o) => e.v4.Some? && o in e.v4.value
    case V6(g) => e.v6.Some? && g in e.v6.value
  }

  /** How often it stands there. */
  ghost function IpCount(e: CtrEntry, ip: Ip): nat
  {
    match ip
    case V4(o) => if e.v4.Some? then Count(e.v4.value, o) else 0
    case V6(g) => if e.v6.Some? then Count(e.v6.value, g) else 0
  }

  /** All addresses: those of the first family, then those of the second. */
  function EntryIps(e: CtrEntry): (ips: seq<Ip>)
  {
    var a, b := if e.v4.Some? then e.v4.value else [], if e.v6.Some? then e.v6.value else [];
    seq(|a| + |b|, i requires 0 <= i < |a| + |b| => if i < |a| then V4(a[i]) else V6(b[i - |a|]))
  }

  lemma RowIps(net: string, internal: bool, e: CtrEntry)
    ensures RowOf(net, internal, e) == Row(net, internal, e.id, EntryIps(e), e.aliases, e.dnsServers)
  {
    assert V4Ips(e.v4) + V6Ips(e.v6) == EntryIps(e);
  }

  lemma {:induction false} V4Count(list: seq<Octets>, ip: Ip)
    ensures Count(V4Ips(Some(list)), ip) == match ip case V4(o) => Count(list, o) case V6(_) => 0
  {
    if list != [] {
      var init, last := list[..|list| - 1], list[|list| - 1];
      V4Count(init, ip);
      assert V4Ips(Some(list)) == V4Ips(Some(init)) + [V4(last)];
      assert list == init + [last];
    }
  }

  lemma {:induction false} V6Count(list: seq<Groups>, ip: Ip)
    ensures Count(V6Ips(Some(list)), ip) == match ip case V6(g) => Count(list, g) case V4(_) => 0
  {
    if list != [] {
      var init, last := list[..|list| - 1], list[|list| - 1];
      V6Count(init, ip);
      assert V6Ips(Some(list)) == V6Ips(Some(init)) + [V6(last)];
      assert list == init + [last];
    }
  }

  /** Both columns of an entry are among its addresses, each as often as written. */
  lemma EntryIpsCount(e: CtrEntry, ip: Ip)
    ensures Count(EntryIps(e), ip) == IpCount(e, ip)
    ensures ip in EntryIps(e) <==> HasIp(e, ip)
  {
    RowIps("", false, e);
    if e.v4.Some? { V4Count(e.v4.value, ip); }
    if e.v6.Some? { V6Count(e.v6.value, ip); }
    assert Count(V4Ips(e.v4) + V6Ips(e.v6), ip) == Count(V4Ips(e.v4), ip) + Count(V6Ips(e.v6), ip);
    assert ip in EntryIps(e) <==> Count(EntryIps(e), ip) > 0;
    CountPositive(e, ip);
  }

  lemma CountPositive(e: CtrEntry, ip: Ip)
    ensures IpCount(e, ip) > 0 <==> HasIp(e, ip)
  {
  }

  // ------------------------------------------- reading all entries in order

  function EachEntry<V>(at: (NetworkFile, CtrEntry) -> seq<V>, f: NetworkFile): CtrEntry -> seq<V>
  {
    (e: CtrEntry) => at(f, e)
  }

  function EachFile<V>(at: (NetworkFile, CtrEntry) -> seq<V>): NetworkFile -> seq<V>
  {
    (f: NetworkFile) => Gather(f.config.entries, EachEntry(at, f))
  }

  /** What the entries contribute, file by file and entry by entry. */
  function AllEntries<V>(files: seq<NetworkFile>, at: (NetworkFile, CtrEntry) -> seq<V>): seq<V>
  {
    Gather(files, EachFile(at))
  }

  ghost function EntryWeight(w: (NetworkFile, CtrEntry) -> nat, f: NetworkFile): CtrEntry -> nat
  {
    (e: CtrEntry) => w(f, e)
  }

  ghost function FileWeight(w: (NetworkFile, CtrEntry) -> nat): NetworkFile -> nat
  {
    (f: NetworkFile) => Sum(f.config.entries, EntryWeight(w, f))
  }

  ghost function SumEntries(files: seq<NetworkFile>, w: (NetworkFile, CtrEntry) -> nat): nat
  {
    Sum(files, FileWeight(w))
  }

  function EntryValue<V>(at: (NetworkFile, CtrEntry) -> Option<V>, f: NetworkFile): CtrEntry -> Option<V>
  {
    (e: CtrEntry) => at(f, e)
  }

  function FileValue<V>(at: (NetworkFile, CtrEntry) -> Option<V>): NetworkFile -> Option<V>
  {
    (f: NetworkFile) => Last(f.config.entries, EntryValue(at, f))
  }

  /** The value of the last entry that has one. */
  function LastEntry<V>(files: seq<NetworkFile>, at: (NetworkFile, CtrEntry) -> Option<V>): Option<V>
  {
    Last(files, FileValue(at))
  }

  lemma FileRowsSnoc(f: NetworkFile, entries: seq<CtrEntry>, e: CtrEntry)
    requires f.config.entries == entries + [e]
    ensures FileRows(f) == FileRows(f.(config := f.config.(entries := entries))) + [RowOf(f.name, f.internal, e)]
  {
  }

  lemma {:induction false} GatherFileRows<V>(
    f: NetworkFile, cell: Row -> seq<V>, at: (NetworkFile, CtrEntry) -> seq<V>, g: NetworkFile)
    requires f.name == g.name && f.internal == g.internal
    requires forall e :: cell(RowOf(g.name, g.internal, e)) == at(g, e)
    ensures Gather(FileRows(f), cell) == Gather(f.config.entries, EachEntry(at, g))
    decreases |f.config.entries|
  {
    if f.config.entries != [] {
      var n := |f.config.entries| - 1;
      var init, e := f.config.entries[..n], f.config.entries[n];
      FileRowsSnoc(f, init, e);
      var shorter := f.(config := f.config.(entries := init));
      GatherFileRows(shorter, cell, at, g);
      GatherSnoc(FileRows(shorter), RowOf(f.name, f.internal, e), cell);
    }
  }

  lemma GatherEntries<V>(files: seq<NetworkFile>, cell: Row -> seq<V>, at: (NetworkFile, CtrEntry) -> seq<V>)
    requires forall f: NetworkFile, e :: cell(RowOf(f.name, f.internal, e)) == at(f, e)
    ensures Gather(AllRows(files), cell) == AllEntries(files, at)
  {
    GatherFuse(files, FileRows, cell);
    forall f | f in files
      ensures Then(FileRows, cell)(f) == EachFile(at)(f)
    {
      GatherFileRows(f, cell, at, f);
    }
    GatherSame(files, Then(FileRows, cell), EachFile(at));
  }

  lemma {:induction false} SumFileRows(
    f: NetworkFile, v: Row -> nat, w: (NetworkFile, CtrEntry) -> nat, g: NetworkFile)
    requires f.name == g.name && f.internal == g.internal
    requires forall e :: v(RowOf(g.name, g.internal, e)) == w(g, e)
    ensures Sum(FileRows(f), v) == Sum(f.config.entries, EntryWeight(w, g))
    decreases |f.config.entries|
  {
    if f.config.entries != [] {
      var n := |f.config.entries| - 1;
      var init, e := f.config.entries[..n], f.config.entries[n];
      FileRowsSnoc(f, init, e);
      var shorter := f.(config := f.config.(entries := init));
      SumFileRows(shorter, v, w, g);
      SumSnoc(FileRows(shorter), RowOf(f.name, f.internal, e), v);
    }
  }

  lemma {:induction false} SumAllEntries(files: seq<NetworkFile>, v: Row -> nat, w: (NetworkFile, CtrEntry) -> nat)
    requires forall f: NetworkFile, e :: v(RowOf(f.name, f.internal, e)) == w(f, e)
    ensures Sum(AllRows(files), v) == SumEntries(files, w)
  {
    if files != [] {
      var init, f := files[..|files| - 1], files[|files| - 1];
      SumAllEntries(init, v, w);
      SumConcat(AllRows(init), FileRows(f), v);
      SumFileRows(f, v, w, f);
    }
  }

  lemma {:induction false} LastFileRows<V>(
    f: NetworkFile, cell: Row -> Option<V>, at: (NetworkFile, CtrEntry) -> Option<V>, g: NetworkFile)
    requires f.name == g.name && f.internal == g.internal
    requires forall e :: cell(RowOf(g.name, g.internal, e)) == at(g, e)
    ensures Last(FileRows(f), cell) == Last(f.config.entries, EntryValue(at, g))
    decreases |f.config.entries|
  {
    if f.config.entries != [] {
      var n := |f.config.entries| - 1;
      var init, e := f.config.entries[..n], f.config.entries[n];
      FileRowsSnoc(f, init, e);
      var shorter := f.(config := f.config.(entries := init));
      LastFileRows(shorter, cell, at, g);
      LastSnoc(FileRows(shorter), RowOf(f.name, f.internal, e), cell);
    }
  }

  lemma LastAllEntries<V>(files: seq<NetworkFile>, cell: Row -> Option<V>, at: (NetworkFile, CtrEntry) -> Option<V>)
    requires forall f: NetworkFile, e :: cell(RowOf(f.name, f.internal, e)) == at(f, e)
    ensures Last(AllRows(files), cell) == LastEntry(files, at)
  {
    LastFuse(files, FileRows, cell);
    forall f | f in files
      ensures LastIn(FileRows, cell)(f) == FileValue(at)(f)
    {
      LastFileRows(f, cell, at, f);
    }
    LastSame(files, LastIn(FileRows, cell), FileValue(at));
  }

  lemma {:induction false} LastSame<T, V>(s: seq<T>, f: T -> Option<V>, g: T -> Option<V>)
    requires forall x | x in s :: f(x) == g(x)
    ensures Last(s, f) == Last(s, g)
  {
    if s != [] {
      LastSame(s[..|s| - 1], f, g);
    }
  }

  // ------------------------------------------------------- rows and entries

  /** The entry is in the file, and the file was loaded. */
  predicate In(files: seq<NetworkFile>, f: NetworkFile, e: CtrEntry)
  {
    f in files && e in f.config.entries
  }

  lemma RowOfEntry(files: seq<NetworkFile>, f: NetworkFile, e: CtrEntry)
    requires In(files, f, e)
    ensures RowOf(f.name, f.internal, e) in AllRows(files)
  {
    var i :| 0 <= i < |f.config.entries| && f.config.entries[i] == e;
    assert FileRows(f)[i] == RowOf(f.name, f.internal, e);
    GatherMember(files, FileRows, RowOf(f.name, f.internal, e));
  }

  lemma EntryOfRow(files: seq<NetworkFile>, row: Row) returns (f: NetworkFile, e: CtrEntry)
    requires row in AllRows(files)
    ensures In(files, f, e) && row == RowOf(f.name, f.internal, e)
  {
    GatherMember(files, FileRows, row);
    f :| f in files && row in FileRows(f);
    var i :| 0 <= i < |FileRows(f)| && FileRows(f)[i] == row;
    e := f.config.entries[i];
  }

  /** Some entry has the address. */
  ghost predicate SomeEntryHas(files: seq<NetworkFile>, ip: Ip)
  {
    exists f, e :: In(files, f, e) && HasIp(e, ip)
  }

  /** Some file of the network has an entry of the container. */
  ghost predicate Member(files: seq<NetworkFile>, id: string, n: string)
  {
    exists f, e :: In(files, f, e) && e.id == id && f.name == n
  }

  lemma KnownByEntry(files: seq<NetworkFile>, ip: Ip)
    ensures Known(AllRows(files), ip) <==> SomeEntryHas(files, ip)
  {
    if Known(AllRows(files), ip) {
      var row :| row in AllRows(files) && ip in row.ips;
      var f, e := EntryOfRow(files, row);
      RowIps(f.name, f.internal, e);
      EntryIpsCount(e, ip);
    }
    if SomeEntryHas(files, ip) {
      var f, e :| In(files, f, e) && HasIp(e, ip);
      RowOfEntry(files, f, e);
      RowIps(f.name, f.internal, e);
      EntryIpsCount(e, ip);
    }
  }

  lemma JoinedByEntry(files: seq<NetworkFile>, id: string, n: string)
    ensures Joined(AllRows(files), id, n) <==> Member(files, id, n)
  {
    if Joined(AllRows(files), id, n) {
      var row :| row in AllRows(files) && row.id == id && row.net == n;
      var f, e := EntryOfRow(files, row);
    }
    if Member(files, id, n) {
      var f, e :| In(files, f, e) && e.id == id && f.name == n;
      RowOfEntry(files, f, e);
    }
  }

  // -------------------------------------------------------- what is indexed

  /** An address is known exactly when some entry of some file has it, in either
      column. */
  lemma AddressKnown(b: DNSBackend, files: seq<NetworkFile>, domain: string, ip: Ip)
    requires Built(b, files, domain)
    ensures ip in b.ipMappings <==> SomeEntryHas(files, ip)
  {
    assert MappedAt(b.ipMappings, AllRows(files), ip, "");
    KnownByEntry(files, ip);
  }

  ghost function Linked(files: seq<NetworkFile>, ip: Ip, n: string): (NetworkFile, CtrEntry) -> nat
  {
    (f: NetworkFile, e: CtrEntry) => if Member(files, e.id, n) then IpCount(e, ip) else 0
  }

  /** It is mapped to a network as often as it stands in entries of containers
      that have an entry in that network. */
  lemma NetworkCount(b: DNSBackend, files: seq<NetworkFile>, domain: string, ip: Ip, n: string)
    requires Built(b, files, domain)
    ensures Count(Get(b.ipMappings, ip), n) == SumEntries(files, Linked(files, ip, n))
  {
    assert MappedAt(b.ipMappings, AllRows(files), ip, n);
    LinksByEntry(files, ip, n);
  }

  lemma LinksByEntry(files: seq<NetworkFile>, ip: Ip, n: string)
    ensures Sum(AllRows(files), LinkCell(AllRows(files), ip, n)) == SumEntries(files, Linked(files, ip, n))
  {
    forall f: NetworkFile, e
      ensures LinkCell(AllRows(files), ip, n)(RowOf(f.name, f.internal, e)) == Linked(files, ip, n)(f, e)
    {
      RowIps(f.name, f.internal, e);
      EntryIpsCount(e, ip);
      JoinedByEntry(files, e.id, n);
    }
    SumAllEntries(files, LinkCell(AllRows(files), ip, n), Linked(files, ip, n));
  }

  function Forwards(n: string, name: string): (NetworkFile, CtrEntry) -> seq<Ip>
  {
    (f: NetworkFile, e: CtrEntry) => if f.name == n then Scatter(e.aliases, name, EntryIps(e)) else []
  }

  /** Under a name, a network lists the addresses of its entries with the name,
      in order. */
  lemma NameListing(b: DNSBackend, files: seq<NetworkFile>, domain: string, n: string, name: string)
    requires Built(b, files, domain)
    ensures Get(Inner(b.nameMappings, n), name) == AllEntries(files, Forwards(n, name))
  {
    assert NamesAt(b.nameMappings, AllRows(files), n, name);
    forall f: NetworkFile, e
      ensures NameCell(n, name)(RowOf(f.name, f.internal, e)) == Forwards(n, name)(f, e)
    {
      RowIps(f.name, f.internal, e);
    }
    GatherEntries(files, NameCell(n, name), Forwards(n, name));
  }

  function Reverses(n: string, ip: Ip): (NetworkFile, CtrEntry) -> seq<string>
  {
    (f: NetworkFile, e: CtrEntry) => if f.name == n then Scatter(EntryIps(e), ip, e.aliases) else []
  }

  /** For an address, it lists the names of its entries with the address. */
  lemma AddressListing(b: DNSBackend, files: seq<NetworkFile>, domain: string, n: string, ip: Ip)
    requires Built(b, files, domain)
    ensures Get(Inner(b.reverseMappings, n), ip) == AllEntries(files, Reverses(n, ip))
    ensures ip in Inner(b.reverseMappings, n) <==> exists f, e :: In(files, f, e) && f.name == n && HasIp(e, ip)
  {
    assert ReverseAt(b.reverseMappings, AllRows(files), n, ip);
    forall f: NetworkFile, e
      ensures ReverseCell(n, ip)(RowOf(f.name, f.internal, e)) == Reverses(n, ip)(f, e)
    {
      RowIps(f.name, f.internal, e);
    }
    GatherEntries(files, ReverseCell(n, ip), Reverses(n, ip));
    AddressedByEntry(files, n, ip);
  }

  lemma AddressedByEntry(files: seq<NetworkFile>, n: string, ip: Ip)
    ensures Addressed(AllRows(files), n, ip) <==> exists f, e :: In(files, f, e) && f.name == n && HasIp(e, ip)
  {
    if Addressed(AllRows(files), n, ip) {
      var row :| row in AllRows(files) && row.net == n && ip in row.ips;
      var f, e := EntryOfRow(files, row);
      RowIps(f.name, f.internal, e);
      EntryIpsCount(e, ip);
      assert In(files, f, e) && f.name == n && HasIp(e, ip);
    }
    forall f, e | In(files, f, e) && f.name == n && HasIp(e, ip)
      ensures Addressed(AllRows(files), n, ip)
    {
      RowOfEntry(files, f, e);
      RowIps(f.name, f.internal, e);
      EntryIpsCount(e, ip);
    }
  }

  ghost function ReverseTimes(n: string, ip: Ip, name: string): (NetworkFile, CtrEntry) -> nat
  {
    (f: NetworkFile, e: CtrEntry) => InNet(f, n, Times(IpCount(e, ip), Count(e.aliases, name)))
  }

  ghost function InNet(f: NetworkFile, n: string, k: nat): nat
  {
    if f.name == n then k else 0
  }

  lemma ReverseTimesAt(n: string, ip: Ip, name: string, f: NetworkFile, e: CtrEntry)
    ensures CountIn(ReverseCell(n, ip), name)(RowOf(f.name, f.internal, e)) == ReverseTimes(n, ip, name)(f, e)
  {
    RowIps(f.name, f.internal, e);
    EntryIpsCount(e, ip);
    ScatterCount(EntryIps(e), ip, e.aliases, name);
    var listed := ReverseCell(n, ip)(RowOf(f.name, f.internal, e));
    assert listed == if f.name == n then Scatter(EntryIps(e), ip, e.aliases) else [];
    assert Count(listed, name) == InNet(f, n, Times(Count(EntryIps(e), ip), Count(e.aliases, name)));
  }

  /** A name is listed for an address once for every time that both stand in one
      entry of the network. */
  lemma ReverseCount(b: DNSBackend, files: seq<NetworkFile>, domain: string, n: string, ip: Ip, name: string)
    requires Built(b, files, domain)
    ensures Count(Get(Inner(b.reverseMappings, n), ip), name) == SumEntries(files, ReverseTimes(n, ip, name))
  {
    assert ReverseAt(b.reverseMappings, AllRows(files), n, ip);
    GatherCount(AllRows(files), ReverseCell(n, ip), name);
    forall f: NetworkFile, e
      ensures CountIn(ReverseCell(n, ip), name)(RowOf(f.name, f.internal, e)) == ReverseTimes(n, ip, name)(f, e)
    {
      ReverseTimesAt(n, ip, name, f, e);
    }
    SumAllEntries(files, CountIn(ReverseCell(n, ip), name), ReverseTimes(n, ip, name));
  }

  // ----------------------------------------------------------------- lookup

  ghost function ListedTimes(n: string, name: string, x: Ip): (NetworkFile, CtrEntry) -> nat
  {
    (f: NetworkFile, e: CtrEntry) => InNet(f, n, Times(Count(e.aliases, name), IpCount(e, x)))
  }

  ghost function ReachedTimes(
    files: seq<NetworkFile>, requester: Ip, name: string, x: Ip): (NetworkFile, CtrEntry) -> nat
  {
    (f: NetworkFile, e: CtrEntry) =>
      Times(SumEntries(files, Linked(files, requester, f.name)), Times(Count(e.aliases, name), IpCount(e, x)))
  }

  lemma ReachedTimesAt(
    files: seq<NetworkFile>, requester: Ip, name: string, x: Ip, f: NetworkFile, e: CtrEntry)
    ensures JoinWeight(AllRows(files), requester, name, x)(RowOf(f.name, f.internal, e)) ==
            ReachedTimes(files, requester, name, x)(f, e)
  {
    RowWeight(name, x, f.name, f.internal, e);
    LinksByEntry(files, requester, f.name);
  }

  lemma ReachedSum(files: seq<NetworkFile>, requester: Ip, name: string, x: Ip)
    ensures Sum(AllRows(files), JoinWeight(AllRows(files), requester, name, x)) ==
            SumEntries(files, ReachedTimes(files, requester, name, x))
  {
    var v, w := JoinWeight(AllRows(files), requester, name, x), ReachedTimes(files, requester, name, x);
    forall f: NetworkFile, e
      ensures v(RowOf(f.name, f.internal, e)) == w(f, e)
    {
      ReachedTimesAt(files, requester, name, x, f, e);
    }
    SumAllEntries(files, v, w);
  }

  /** A known requester gets an address once for every way to go from an entry
      with its own address to a network of that container and to an entry of the
      network with the name and the address. */
  lemma LookupCountByEntry(
    b: DNSBackend, files: seq<NetworkFile>, domain: string, requester: Ip, networkName: string, query: string, x: Ip)
    requires Built(b, files, domain) && SomeEntryHas(files, requester)
    ensures Count(Addresses(b, requester, networkName, query), x) ==
            SumEntries(files, ReachedTimes(files, requester, Normalise(Terminated(domain), query), x))
  {
    KnownByEntry(files, requester);
    LookupCountKnown(b, files, domain, requester, networkName, query, x);
    ReachedSum(files, requester, Normalise(Terminated(domain), query), x);
  }

  /** An unknown requester gets the entries of the listener's network. */
  lemma LookupCountOutside(
    b: DNSBackend, files: seq<NetworkFile>, domain: string, requester: Ip, networkName: string, query: string, x: Ip)
    requires Built(b, files, domain) && !SomeEntryHas(files, requester)
    ensures Count(Addresses(b, requester, networkName, query), x) ==
            SumEntries(files, ListedTimes(networkName, Normalise(Terminated(domain), query), x))
  {
    KnownByEntry(files, requester);
    LookupCountUnknown(b, files, domain, requester, networkName, query, x);
    ListedSum(files, networkName, Normalise(Terminated(domain), query), x);
  }

  lemma ListedSum(files: seq<NetworkFile>, n: string, name: string, x: Ip)
    ensures Sum(AllRows(files), Matching(RowNet(), AnswerWeight(name, x), n)) ==
            SumEntries(files, ListedTimes(n, name, x))
  {
    var v, w := Matching(RowNet(), AnswerWeight(name, x), n), ListedTimes(n, name, x);
    forall f: NetworkFile, e
      ensures v(RowOf(f.name, f.internal, e)) == w(f, e)
    {
      ListedTimesAt(n, name, x, f, e);
    }
    SumAllEntries(files, v, w);
  }

  lemma RowWeight(name: string, x: Ip, net: string, internal: bool, e: CtrEntry)
    ensures AnswerWeight(name, x)(RowOf(net, internal, e)) == Times(Count(e.aliases, name), IpCount(e, x))
  {
    RowIps(net, internal, e);
    EntryIpsCount(e, x);
  }

  lemma ListedTimesAt(n: string, name: string, x: Ip, f: NetworkFile, e: CtrEntry)
    ensures Matching(RowNet(), AnswerWeight(name, x), n)(RowOf(f.name, f.internal, e)) ==
            ListedTimes(n, name, x)(f, e)
  {
    RowWeight(name, x, f.name, f.internal, e);
  }

  /** The entries on the way from a requester to an address by a name. */
  ghost predicate Way(
    files: seq<NetworkFile>, f1: NetworkFile, e1: CtrEntry, f2: NetworkFile, e2: CtrEntry,
    f3: NetworkFile, e3: CtrEntry, requester: Ip, name: string, x: Ip)
  {
    && In(files, f1, e1) && HasIp(e1, requester)
    && In(files, f2, e2) && e2.id == e1.id
    && In(files, f3, e3) && f3.name == f2.name && name in e3.aliases && HasIp(e3, x)
  }

  /** So the answer for a known requester holds an address exactly when there is
      a way to it. */
  lemma LookupByEntry(
    b: DNSBackend, files: seq<NetworkFile>, domain: string, requester: Ip, networkName: string, query: string, x: Ip)
    requires Built(b, files, domain) && SomeEntryHas(files, requester)
    ensures x in Addresses(b, requester, networkName, query) <==>
            exists f1, e1, f2, e2, f3, e3 ::
              Way(files, f1, e1, f2, e2, f3, e3, requester, Normalise(Terminated(domain), query), x)
  {
    var name := Normalise(Terminated(domain), query);
    KnownByEntry(files, requester);
    LookupJoin(b, files, domain, requester, networkName, query, x);
    if Reaches(AllRows(files), requester, name, x) {
      ReachesByEntry(files, requester, name, x);
    }
    if f1, e1, f2, e2, f3, e3 :| Way(files, f1, e1, f2, e2, f3, e3, requester, name, x) {
      WayReaches(files, f1, e1, f2, e2, f3, e3, requester, name, x);
    }
  }

  lemma ReachesByEntry(files: seq<NetworkFile>, requester: Ip, name: string, x: Ip)
    requires Reaches(AllRows(files), requester, name, x)
    ensures exists f1, e1, f2, e2, f3, e3 :: Way(files, f1, e1, f2, e2, f3, e3, requester, name, x)
  {
    var r1, r2, r3 :|
      && r1 in AllRows(files) && requester in r1.ips
      && r2 in AllRows(files) && r2.id == r1.id
      && r3 in AllRows(files) && r3.net == r2.net && name in r3.aliases && x in r3.ips;
    var f1, e1 := EntryOfRow(files, r1);
    var f2, e2 := EntryOfRow(files, r2);
    var f3, e3 := EntryOfRow(files, r3);
    RowIps(f1.name, f1.internal, e1);
    RowIps(f3.name, f3.internal, e3);
    EntryIpsCount(e1, requester);
    EntryIpsCount(e3, x);
    assert Way(files, f1, e1, f2, e2, f3, e3, requester, name, x);
  }

  lemma WayReaches(
    files: seq<NetworkFile>, f1: NetworkFile, e1: CtrEntry, f2: NetworkFile, e2: CtrEntry,
    f3: NetworkFile, e3: CtrEntry, requester: Ip, name: string, x: Ip)
    requires Way(files, f1, e1, f2, e2, f3, e3, requester, name, x)
    ensures Reaches(AllRows(files), requester, name, x)
  {
    RowOfEntry(files, f1, e1);
    RowOfEntry(files, f2, e2);
    RowOfEntry(files, f3, e3);
    RowIps(f1.name, f1.internal, e1);
    RowIps(f3.name, f3.internal, e3);
    EntryIpsCount(e1, requester);
    EntryIpsCount(e3, x);
    var r1, r2, r3 := RowOf(f1.name, f1.internal, e1), RowOf(f2.name, f2.internal, e2), RowOf(f3.name, f3.internal, e3);
    assert r1 in AllRows(files) && r2 in AllRows(files) && r3 in AllRows(files);
    assert r2.id == r1.id && r3.net == r2.net;
  }

  /** The answers of two networks come in the order of the networks. */
  lemma TwoNetworks(b: DNSBackend, requester: Ip, networkName: string, query: string, m: string, n: string)
    requires Get(b.ipMappings, requester) == [m, n] && requester in b.ipMappings
    ensures var name := Normalise(b.searchDomain, query);
            Addresses(b, requester, networkName, query) ==
            Get(Inner(b.nameMappings, m), name) + Get(Inner(b.nameMappings, n), name)
    ensures Resolvers(b, requester) == Some(Get(b.networkDnsServer, m) + Get(b.networkDnsServer, n))
  {
    GatherTwo(m, n, AddrCell(b, Normalise(b.searchDomain, query)));
    GatherTwo(m, n, ResolverCell(b));
  }

  /** A known source counts as internal unless one of its networks is recorded as
      not internal; a network without a record does not tell. */
  lemma InternalUnlessOpen(b: DNSBackend, source: Ip)
    requires source in b.ipMappings
    ensures IsInternal(b, source) <==>
            !exists n :: n in b.ipMappings[source] && Find(b.networkIsInternal, n) == Some(false)
  {
    if IsInternal(b, source) {
      forall n | n in b.ipMappings[source]
        ensures Find(b.networkIsInternal, n) != Some(false)
      {
      }
    } else {
      var n :| n in b.ipMappings[source] && n in b.networkIsInternal && !b.networkIsInternal[n];
      assert Find(b.networkIsInternal, n) == Some(false);
    }
  }

  /** An unknown source has no networks to take servers from, or names. */
  lemma UnknownSource(b: DNSBackend, source: Ip, ip: Ip)
    requires source !in b.ipMappings
    ensures Resolvers(b, source) == None && Names(b, source, ip) == None && !IsInternal(b, source)
  {
  }

  lemma GatherTwo<T, V>(m: T, n: T, cell: T -> seq<V>)
    ensures Gather([m, n], cell) == cell(m) + cell(n)
  {
    GatherSnoc([], m, cell);
    GatherSnoc([m], n, cell);
    assert [] + [m] == [m] && [m] + [n] == [m, n];
  }

  // ------------------------------------------------------ servers and kinds

  function ServersFor(ip: Ip): (NetworkFile, CtrEntry) -> Option<Option<seq<Ip>>>
  {
    (f: NetworkFile, e: CtrEntry) => if !f.internal && HasIp(e, ip) then Some(e.dnsServers) else None
  }

  /** A container's servers are those of the last entry, outside internal
      networks, with its address. */
  lemma CtrServers(b: DNSBackend, files: seq<NetworkFile>, domain: string, ip: Ip)
    requires Built(b, files, domain)
    ensures Find(b.ctrDnsServer, ip) == LastEntry(files, ServersFor(ip))
  {
    assert LastAt(b.ctrDnsServer, AllRows(files), ip, DnsCell);
    forall f: NetworkFile, e
      ensures DnsCell(ip)(RowOf(f.name, f.internal, e)) == ServersFor(ip)(f, e)
    {
      RowIps(f.name, f.internal, e);
      EntryIpsCount(e, ip);
    }
    LastAllEntries(files, DnsCell(ip), ServersFor(ip));
  }

  function KindFor(n: string): (NetworkFile, CtrEntry) -> Option<bool>
  {
    (f: NetworkFile, e: CtrEntry) => if f.name == n then Some(f.internal) else None
  }

  /** A network's kind is that of the last file of its name with an entry. */
  lemma NetworkKind(b: DNSBackend, files: seq<NetworkFile>, domain: string, n: string)
    requires Built(b, files, domain)
    ensures Find(b.networkIsInternal, n) == LastEntry(files, KindFor(n))
  {
    assert LastAt(b.networkIsInternal, AllRows(files), n, InternalCell);
    forall f: NetworkFile, e
      ensures InternalCell(n)(RowOf(f.name, f.internal, e)) == KindFor(n)(f, e)
    {
    }
    LastAllEntries(files, InternalCell(n), KindFor(n));
  }

  /** File `i` is the last of network `n` that is internal or has servers. */
  ghost predicate LastServing(files: seq<NetworkFile>, n: string, i: nat)
  {
    && i < |files| && files[i].name == n && (files[i].internal || files[i].config.dnsServers != [])
    && forall j | i < j < |files| && files[j].name == n :: !files[j].internal && files[j].config.dnsServers == []
  }

  ghost predicate NoneServing(files: seq<NetworkFile>, n: string)
  {
    forall i | 0 <= i < |files| && files[i].name == n :: !files[i].internal && files[i].config.dnsServers == []
  }

  /** The servers of a network are those of that file, and none if it is
      internal; without such a file there are none on record. */
  lemma {:induction false} NetworkServers(files: seq<NetworkFile>, n: string, i: nat)
    requires LastServing(files, n, i)
    ensures Last(files, NetworkDnsCell(n)) == Some(if files[i].internal then [] else files[i].config.dnsServers)
  {
    var k := |files| - 1;
    if i < k {
      assert files[k].name == n ==> !files[k].internal && files[k].config.dnsServers == [];
      NetworkServers(files[..k], n, i);
    }
  }

  lemma NoNetworkServers(files: seq<NetworkFile>, n: string)
    requires NoneServing(files, n)
    ensures Last(files, NetworkDnsCell(n)) == None
  {
    LastMember(files, NetworkDnsCell(n));
    forall f | f in files
      ensures NetworkDnsCell(n)(f) == None
    {
      var i :| 0 <= i < |files| && files[i] == f;
    }
  }

  lemma NetworkServersOf(b: DNSBackend, files: seq<NetworkFile>, domain: string, n: string)
    requires Built(b, files, domain)
    ensures forall i: nat | LastServing(files, n, i) ::
              Find(b.networkDnsServer, n) == Some(if files[i].internal then [] else files[i].config.dnsServers)
    ensures NoneServing(files, n) ==> Find(b.networkDnsServer, n) == None
  {
    assert LastAt(b.networkDnsServer, files, n, NetworkDnsCell);
    forall i: nat | LastServing(files, n, i)
      ensures Find(b.networkDnsServer, n) == Some(if files[i].internal then [] else files[i].config.dnsServers)
    {
      NetworkServers(files, n, i);
    }
    if NoneServing(files, n) {
      NoNetworkServers(files, n);
    }
  }
}
