/** Reading the configuration directory into the indexes of the backend. */
module Builder {
  import opened Wrappers
  import opened Text
  import opened Address
  import opened Collect
  import opened Config
  import opened Maps
  import opened Rows
  import opened Index
  import opened Backend

  datatype ConfigsError =
    | MetadataFailed
    | NotADirectory
    | ListingFailed
    | NameNotUtf8
    | MissingMembership(id: string)

  datatype Configs = Configs(
    backend: DNSBackend,
    listen4: map<string, seq<Octets>>,
    listen6: map<string, seq<Groups>>)

  /** The backend answers as reading the rows of the files would. */
  ghost predicate Built(b: DNSBackend, files: seq<NetworkFile>, domain: string)
  {
    var rows := AllRows(files);
    && RepMapped(b.ipMappings, rows)
    && RepJoined(b.ipMappings, rows)
    && RepNames(b.nameMappings, rows)
    && RepReverse(b.reverseMappings, rows)
    && RepLast(b.ctrDnsServer, rows, DnsCell)
    && RepLast(b.networkDnsServer, files, NetworkDnsCell)
    && RepLast(b.networkIsInternal, rows, InternalCell)
    && b.searchDomain == Terminated(domain)
  }

  ghost predicate BuiltConfigs(c: Configs, files: seq<NetworkFile>, domain: string)
  {
    && Built(c.backend, files, domain)
    && RepListen(c.listen4, files, OnlyV4)
    && RepListen(c.listen6, files, OnlyV6)
  }

  class IndexTables {
    var networkMembership: map<string, seq<string>>
    var containerIps: map<string, seq<Ip>>
    var reverse: map<string, map<Ip, seq<string>>>
    var networkNames: map<string, map<string, seq<Ip>>>
    var listenIps4: map<string, seq<Octets>>
    var listenIps6: map<string, seq<Groups>>
    var ctrDnsServer: map<Ip, Option<seq<Ip>>>
    var networkDnsServer: map<string, seq<Ip>>
    var networkIsInternal: map<string, bool>
    ghost var rows: seq<Row>
    ghost var files: seq<NetworkFile>

    ghost predicate ValidRows()
      reads this
    {
      && RepMembership(networkMembership, rows)
      && RepIps(containerIps, rows)
      && RepReverse(reverse, rows)
      && RepNames(networkNames, rows)
      && RepLast(ctrDnsServer, rows, DnsCell)
      && RepLast(networkIsInternal, rows, InternalCell)
    }

    ghost predicate ValidFiles()
      reads this
    {
      && RepLast(networkDnsServer, files, NetworkDnsCell)
      && RepListen(listenIps4, files, OnlyV4)
      && RepListen(listenIps6, files, OnlyV6)
    }

    constructor ()
      ensures ValidRows() && ValidFiles() && rows == [] && files == []
    {
      networkMembership, containerIps, reverse, networkNames := map[], map[], map[], map[];
      listenIps4, listenIps6 := map[], map[];
      ctrDnsServer, networkDnsServer, networkIsInternal := map[], map[], map[];
      rows, files := [], [];
    }

    method AddMembership(id: string, networkName: string, ghost row: Row)
      requires row.id == id && row.net == networkName
      requires RepMembership(networkMembership, rows)
      modifies `networkMembership
      ensures RepMembership(networkMembership, rows + [row])
    {
      MembershipStep(networkMembership, rows, row);
      var ctrNetworks := Get(networkMembership, id);
      if networkName !in ctrNetworks {
        ctrNetworks := ctrNetworks + [networkName];
      }
      networkMembership := networkMembership[id := ctrNetworks];
    }

    /** The addresses of one family: each is listed in reverse under all names
        of the entry and, off internal networks, given its DNS servers. */
    method AddAddresses(networkName: string, internal: bool, entry: CtrEntry, ips: seq<Ip>,
                        newCtrIps: seq<Ip>, ghost row: Row)
      returns (allIps: seq<Ip>)
      requires row.net == networkName && row.internal == internal
      requires row.aliases == entry.aliases && row.dns == entry.dnsServers
      requires RepReverse(reverse, rows + [row.(ips := newCtrIps)])
      requires RepLast(ctrDnsServer, rows + [row.(ips := newCtrIps)], DnsCell)
      modifies `reverse, `ctrDnsServer
      ensures allIps == newCtrIps + ips
      ensures RepReverse(reverse, rows + [row.(ips := allIps)])
      ensures RepLast(ctrDnsServer, rows + [row.(ips := allIps)], DnsCell)
    {
      allIps := newCtrIps;
      for i := 0 to |ips|
        invariant allIps == newCtrIps + ips[..i]
        invariant RepReverse(reverse, rows + [row.(ips := allIps)])
        invariant RepLast(ctrDnsServer, rows + [row.(ips := allIps)], DnsCell)
      {
        var ip := ips[i];
        ReverseStep(reverse, rows, row.(ips := allIps), ip);
        reverse := Push2(reverse, networkName, ip, entry.aliases);
        CtrDnsStep(ctrDnsServer, rows, row.(ips := allIps), ip);
        if !internal {
          ctrDnsServer := ctrDnsServer[ip := entry.dnsServers];
        }
        allIps := allIps + [ip];
      }
    }

    method AddNames(networkName: string, aliases: seq<string>, newCtrIps: seq<Ip>, ghost row: Row)
      requires row.net == networkName && row.aliases == aliases && row.ips == newCtrIps
      requires RepNames(networkNames, rows)
      modifies `networkNames
      ensures RepNames(networkNames, rows + [row])
    {
      NamesStart(networkNames, rows, row.(aliases := []));
      networkNames := networkNames[networkName := Inner(networkNames, networkName)];
      for i := 0 to |aliases|
        invariant RepNames(networkNames, rows + [row.(aliases := aliases[..i])])
      {
        NamesStep(networkNames, rows, row.(aliases := aliases[..i]), aliases[i]);
        assert aliases[..i] + [aliases[i]] == aliases[..i + 1];
        networkNames := Push2(networkNames, networkName, aliases[i], newCtrIps);
      }
      assert aliases[..|aliases|] == aliases;
    }

    method AddEntry(networkName: string, internal: bool, entry: CtrEntry)
      requires ValidRows()
      modifies `networkMembership, `containerIps, `reverse, `networkNames, `ctrDnsServer, `networkIsInternal, `rows
      ensures ValidRows()
      ensures rows == old(rows) + [RowOf(networkName, internal, entry)]
    {
      ghost var row := RowOf(networkName, internal, entry);
      AddMembership(entry.id, networkName, row);
      var newCtrIps: seq<Ip> := [];
      ReverseStart(reverse, rows, row.(ips := []));
      CtrDnsStart(ctrDnsServer, rows, row.(ips := []));
      newCtrIps := AddAddresses(networkName, internal, entry, V4Ips(entry.v4), newCtrIps, row);
      newCtrIps := AddAddresses(networkName, internal, entry, V6Ips(entry.v6), newCtrIps, row);
      assert newCtrIps == row.ips;
      IpsStep(containerIps, rows, row);
      containerIps := Push(containerIps, entry.id, newCtrIps);
      AddNames(networkName, entry.aliases, newCtrIps, row);
      InsertStep(networkIsInternal, rows, row, networkName, InternalCell);
      networkIsInternal := networkIsInternal[networkName := internal];
      rows := rows + [row];
    }

    /** Servers given for a network, which an internal network never has. */
    method AddNetworkDns(networkName: string, internal: bool, dnsServers: seq<Ip>, ghost file: NetworkFile)
      requires file.name == networkName && file.internal == internal && file.config.dnsServers == dnsServers
      requires RepLast(networkDnsServer, files, NetworkDnsCell)
      modifies `networkDnsServer
      ensures RepLast(networkDnsServer, files + [file], NetworkDnsCell)
    {
      InsertStep(networkDnsServer, files, file, networkName, NetworkDnsCell);
      if dnsServers != [] && !internal {
        networkDnsServer := networkDnsServer[networkName := dnsServers];
      }
      if internal {
        networkDnsServer := networkDnsServer[networkName := []];
      }
    }

    method AddBindIps(networkName: string, bindIps: seq<Ip>, ghost file: NetworkFile)
      requires file.name == networkName && file.config.bindIps == bindIps
      requires RepListen(listenIps4, files, OnlyV4) && RepListen(listenIps6, files, OnlyV6)
      modifies `listenIps4, `listenIps6
      ensures RepListen(listenIps4, files + [file], OnlyV4)
      ensures RepListen(listenIps6, files + [file], OnlyV6)
    {
      ListenStart(listenIps4, files, Bind(file, []), OnlyV4);
      ListenStart(listenIps6, files, Bind(file, []), OnlyV6);
      for i := 0 to |bindIps|
        invariant RepListen(listenIps4, files + [Bind(file, bindIps[..i])], OnlyV4)
        invariant RepListen(listenIps6, files + [Bind(file, bindIps[..i])], OnlyV6)
      {
        ListenStep(listenIps4, files, file, bindIps[..i], bindIps[i], OnlyV4);
        ListenStep(listenIps6, files, file, bindIps[..i], bindIps[i], OnlyV6);
        assert bindIps[..i] + [bindIps[i]] == bindIps[..i + 1];
        match bindIps[i]
        case V4(a) => listenIps4 := Push(listenIps4, networkName, [a]);
        case V6(b) => listenIps6 := Push(listenIps6, networkName, [b]);
      }
      assert Bind(file, bindIps[..|bindIps|]) == file;
    }

    method AddEntries(networkName: string, internal: bool, entries: seq<CtrEntry>, ghost file: NetworkFile)
      requires file.name == networkName && file.internal == internal && file.config.entries == entries
      requires ValidRows()
      modifies `networkMembership, `containerIps, `reverse, `networkNames, `ctrDnsServer, `networkIsInternal, `rows
      ensures ValidRows()
      ensures rows == old(rows) + FileRows(file)
    {
      for i := 0 to |entries|
        invariant ValidRows()
        invariant rows == old(rows) + FileRows(file)[..i]
      {
        FileRowsNext(file, i);
        AddEntry(networkName, internal, entries[i]);
      }
      assert FileRows(file)[..|entries|] == FileRows(file);
    }

    method AddFile(networkName: string, internal: bool, config: NetworkConfig)
      requires ValidRows() && ValidFiles()
      modifies this
      ensures ValidRows() && ValidFiles()
      ensures rows == old(rows) + FileRows(NetworkFile(networkName, internal, config))
      ensures files == old(files) + [NetworkFile(networkName, internal, config)]
    {
      ghost var file := NetworkFile(networkName, internal, config);
      AddNetworkDns(networkName, internal, config.dnsServers, file);
      AddBindIps(networkName, config.bindIps, file);
      files := files + [file];
      AddEntries(networkName, internal, config.entries, file);
    }

    /** The join of addresses and membership, container by container in an
        arbitrary order. */
    method JoinTables() returns (r: Result<map<Ip, seq<string>>, string>, ghost order: seq<string>)
      ensures r.Err? ==> r.error in containerIps && r.error !in networkMembership
      ensures r.Ok? ==> IsOrder(order, containerIps.Keys)
      ensures r.Ok? ==> RepJoin(r.value, containerIps, networkMembership, order, [], [])
    {
      var ctrs: map<Ip, seq<string>> := map[];
      var todo := containerIps.Keys;
      order := [];
      while todo != {}
        invariant todo <= containerIps.Keys
        invariant IsOrder(order, containerIps.Keys - todo)
        invariant RepJoin(ctrs, containerIps, networkMembership, order, [], [])
        decreases todo
      {
        var ctrId :| ctrId in todo;
        if ctrId !in networkMembership {
          return Err(ctrId), order;
        }
        var ips, s := containerIps[ctrId], networkMembership[ctrId];
        JoinBegin(ctrs, containerIps, networkMembership, order, s);
        for i := 0 to |ips|
          invariant RepJoin(ctrs, containerIps, networkMembership, order, ips[..i], s)
        {
          JoinStep(ctrs, containerIps, networkMembership, order, ips[..i], s, ips[i]);
          assert ips[..i] + [ips[i]] == ips[..i + 1];
          ctrs := Push(ctrs, ips[i], s);
        }
        assert ips[..|ips|] == ips;
        JoinNext(ctrs, containerIps, networkMembership, order, ctrId);
        OrderStep(order, containerIps.Keys - todo, ctrId);
        assert containerIps.Keys - todo + {ctrId} == containerIps.Keys - (todo - {ctrId});
        order := order + [ctrId];
        todo := todo - {ctrId};
      }
      assert containerIps.Keys - todo == containerIps.Keys;
      return Ok(ctrs), order;
    }

    /** The backend from the finished tables; the error of the join cannot
        happen, since every container with addresses has networks. */
    method Finish(filterSearchDomain: string) returns (r: Result<Configs, ConfigsError>)
      requires ValidRows() && ValidFiles() && rows == AllRows(files)
      ensures r.Ok? && BuiltConfigs(r.value, files, filterSearchDomain)
    {
      var ctrs, order := JoinTables();
      if ctrs.Err? {
        r := Err(MissingMembership(ctrs.error));
        SameIds(containerIps, networkMembership, rows, ctrs.error);
      } else {
        JoinMapped(ctrs.value, containerIps, networkMembership, rows, order);
        var backend := Backend.New(ctrs.value, networkNames, reverse, ctrDnsServer, networkDnsServer,
                                   networkIsInternal, filterSearchDomain);
        r := Ok(Configs(backend, listenIps4, listenIps6));
      }
    }
  }

  lemma OrderStep(order: seq<string>, keys: set<string>, id: string)
    requires IsOrder(order, keys) && id !in keys
    ensures IsOrder(order + [id], keys + {id})
  {
    forall j
      ensures Count(order + [id], j) == if j in keys + {id} then 1 else 0
    {
      assert Count(order, j) == if j in keys then 1 else 0;
    }
  }

  lemma SameIds(ips: map<string, seq<Ip>>, membership: map<string, seq<string>>, rows: seq<Row>, id: string)
    requires RepIps(ips, rows) && RepMembership(membership, rows)
    ensures id in ips <==> id in membership
  {
    assert IpsAt(ips, rows, id) && MembershipAt(membership, rows, id);
  }

  lemma FileRowsNext(file: NetworkFile, i: nat)
    requires i < |file.config.entries|
    ensures FileRows(file)[..i + 1] == FileRows(file)[..i] + [RowOf(file.name, file.internal, file.config.entries[i])]
  {
  }

  lemma LoadNext(configs: seq<DirEntry>, i: nat)
    requires i < |configs|
    ensures LoadAll(configs[..i + 1]) == LoadAll(configs[..i]) + Loaded(configs[i])
    ensures Loaded(configs[i]) == [] ==>
              LoadAll(configs[..i + 1]) == LoadAll(configs[..i])
    ensures Loaded(configs[i]) != [] ==>
              AllRows(LoadAll(configs[..i + 1])) == AllRows(LoadAll(configs[..i])) + FileRows(Loaded(configs[i])[0])
  {
    assert configs[..i + 1] == configs[..i] + [configs[i]];
    GatherSnoc(configs[..i], configs[i], Loaded);
    if Loaded(configs[i]) != [] {
      var file := Loaded(configs[i])[0];
      assert Loaded(configs[i]) == [file];
      GatherSnoc(LoadAll(configs[..i]), file, FileRows);
    }
  }

  /** Why a directory is refused as a whole. */
  function Refusal(dir: Directory): Option<ConfigsError>
  {
    match dir
    case NoMetadata => Some(MetadataFailed)
    case NoDirectory => Some(NotADirectory)
    case NoListing => Some(ListingFailed)
    case Listing(entries) => if exists e :: e in entries && Nameless(e) then Some(NameNotUtf8) else None
  }

  /** The result is an error in those cases only: the error of the final join
      is never returned. */
  method ParseConfigs(dir: Directory, filterSearchDomain: string) returns (r: Result<Configs, ConfigsError>)
    ensures Refusal(dir) == if r.Err? then Some(r.error) else None
    ensures r.Ok? ==> BuiltConfigs(r.value, LoadAll(dir.entries), filterSearchDomain)
  {
    match dir
    case NoMetadata => r := Err(MetadataFailed);
    case NoDirectory => r := Err(NotADirectory);
    case NoListing => r := Err(ListingFailed);
    case Listing(entries) => r := ParseEntries(entries, filterSearchDomain);
  }

  method ParseEntries(configs: seq<DirEntry>, filterSearchDomain: string) returns (r: Result<Configs, ConfigsError>)
    ensures r.Err? <==> exists e :: e in configs && Nameless(e)
    ensures r.Err? ==> r.error == NameNotUtf8
    ensures r.Ok? ==> BuiltConfigs(r.value, LoadAll(configs), filterSearchDomain)
  {
    var tables := new IndexTables();
    for i := 0 to |configs|
      invariant fresh(tables)
      invariant tables.ValidRows() && tables.ValidFiles()
      invariant tables.files == LoadAll(configs[..i])
      invariant tables.rows == AllRows(LoadAll(configs[..i]))
      invariant forall e | e in configs[..i] :: !Nameless(e)
    {
      LoadNext(configs, i);
      var config := configs[i];
      assert configs[..i + 1] == configs[..i] + [config];
      if config.Unlistable? || config.name == Some(PID_FILE) || config.content.None? {
        continue;
      }
      var parsed := ParseConfig(config.content.value);
      if parsed.Err? {
        continue;
      }
      if config.name.None? {
        assert Nameless(config);
        return Err(NameNotUtf8);
      }
      var nameFull := config.name.value;
      var internal := false;
      if EndsWith(nameFull, INTERNAL_SUFFIX) {
        internal := true;
      }
      ghost var file := NetworkFile(NetworkName(nameFull), internal, parsed.value);
      assert Loaded(config) == [file];
      tables.AddFile(NetworkName(nameFull), internal, parsed.value);
    }
    assert configs[..|configs|] == configs;
    r := tables.Finish(filterSearchDomain);
  }
}
