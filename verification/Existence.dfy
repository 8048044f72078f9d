/** Every sequence of files, with every order of its containers, has a backend
    built from it, so that what is said of all such backends is never said of
    none. */
module Existence {
  import opened Wrappers
  import opened Address
  import opened Collect
  import opened Maps
  import opened Rows
  import opened Index
  import opened Backend
  import opened Builder

  // ------------------------------------------------------------------ keys

  ghost function Ids(rows: seq<Row>): (r: set<string>)
    ensures forall id :: id in r <==> HasId(rows, id)
  {
    set e | e in rows :: e.id
  }

  ghost function Nets(rows: seq<Row>): (r: set<string>)
    ensures forall n :: n in r <==> HasNet(rows, n)
  {
    set e | e in rows :: e.net
  }

  ghost function Ips(rows: seq<Row>): (r: set<Ip>)
    ensures forall ip :: ip in r <==> Known(rows, ip)
  {
    set e, ip | e in rows && ip in e.ips :: ip
  }

  ghost function IpsOf(rows: seq<Row>, n: string): (r: set<Ip>)
    ensures forall ip :: ip in r <==> Addressed(rows, n, ip)
  {
    set e, ip | e in rows && e.net == n && ip in e.ips :: ip
  }

  ghost function NamesOf(rows: seq<Row>, n: string): (r: set<string>)
    ensures forall name :: name in r <==> Named(rows, n, name)
  {
    set e, name | e in rows && e.net == n && name in e.aliases :: name
  }

  // ---------------------------------------------------------------- orders

  lemma {:induction false} Enumerate(ids: set<string>) returns (order: seq<string>)
    ensures IsOrder(order, ids)
    decreases ids
  {
    order := [];
    if ids != {} {
      var id :| id in ids;
      order := Enumerate(ids - {id});
      OrderStep(order, ids - {id}, id);
      assert ids - {id} + {id} == ids;
      order := order + [id];
    }
  }

  lemma OrderFrom(rows: seq<Row>, id: string) returns (order: seq<string>)
    requires HasId(rows, id)
    ensures IdOrder([id] + order, rows)
  {
    var ids := Ids(rows);
    order := Enumerate(ids - {id});
    forall j
      ensures Count([id] + order, j) == if HasId(rows, j) then 1 else 0
    {
      assert Count(order, j) == if j in ids - {id} then 1 else 0;
    }
  }

  lemma AnyOrder(rows: seq<Row>) returns (order: seq<string>)
    ensures IdOrder(order, rows)
  {
    var ids := Ids(rows);
    order := Enumerate(ids);
    forall j
      ensures Count(order, j) == if HasId(rows, j) then 1 else 0
    {
      assert Count(order, j) == if j in ids then 1 else 0;
    }
  }

  lemma {:induction false} NoMembership(rows: seq<Row>, id: string)
    requires !HasId(rows, id)
    ensures MembershipOf(rows, id) == []
  {
    if rows != [] {
      var init, e := rows[..|rows| - 1], rows[|rows| - 1];
      assert rows == init + [e];
      assert e in rows;
      assert !HasId(init, id);
      NoMembership(init, id);
    }
  }

  // ---------------------------------------------------------------- tables

  ghost function IdTable(rows: seq<Row>): (m: map<string, seq<Ip>>)
  {
    map id | id in Ids(rows) :: Gather(rows, IdIps(id))
  }

  ghost function MembershipTable(rows: seq<Row>): (m: map<string, seq<string>>)
  {
    map id | id in Ids(rows) :: MembershipOf(rows, id)
  }

  lemma IdTables(rows: seq<Row>)
    ensures RepIps(IdTable(rows), rows) && RepMembership(MembershipTable(rows), rows)
  {
    forall id
      ensures IpsAt(IdTable(rows), rows, id) && MembershipAt(MembershipTable(rows), rows, id)
    {
      if !HasId(rows, id) {
        GatherNone(rows, IdIps(id));
        NoMembership(rows, id);
      }
    }
  }

  ghost function MappingTable(rows: seq<Row>, order: seq<string>): map<Ip, seq<string>>
  {
    map ip | ip in Ips(rows) :: NetsIn(rows, order, ip)
  }

  lemma NoIpNoNets(rows: seq<Row>, id: string, ip: Ip)
    requires forall e | e in rows && e.id == id :: ip !in e.ips
    ensures NetsCell(rows, ip)(id) == []
  {
    GatherMember(rows, IdIps(id), ip);
    ScatterNone(Gather(rows, IdIps(id)), ip, MembershipOf(rows, id));
  }

  lemma UnknownHasNoNets(rows: seq<Row>, order: seq<string>, ip: Ip)
    requires !Known(rows, ip)
    ensures NetsIn(rows, order, ip) == []
  {
    forall id | id in order
      ensures NetsCell(rows, ip)(id) == []
    {
      NoIpNoNets(rows, id, ip);
    }
    GatherNone(order, NetsCell(rows, ip));
  }

  lemma SameCells(rows: seq<Row>, order: seq<string>, ip: Ip)
    ensures Gather(order, JoinCell(IdTable(rows), MembershipTable(rows), ip)) == NetsIn(rows, order, ip)
  {
    var ips, membership := IdTable(rows), MembershipTable(rows);
    IdTables(rows);
    forall id | id in order
      ensures JoinCell(ips, membership, ip)(id) == NetsCell(rows, ip)(id)
    {
      assert IpsAt(ips, rows, id) && MembershipAt(membership, rows, id);
    }
    GatherSame(order, JoinCell(ips, membership, ip), NetsCell(rows, ip));
  }

  lemma MappingTableAt(rows: seq<Row>, order: seq<string>, ip: Ip)
    requires IdOrder(order, rows)
    ensures JoinAt(MappingTable(rows, order), IdTable(rows), MembershipTable(rows), order, [], [], ip)
  {
    SameCells(rows, order, ip);
    KnownById(rows, order, ip);
    if !Known(rows, ip) {
      UnknownHasNoNets(rows, order, ip);
    }
  }

  lemma KnownById(rows: seq<Row>, order: seq<string>, ip: Ip)
    requires IdOrder(order, rows)
    ensures Known(rows, ip) <==> exists id :: id in order && ip in Get(IdTable(rows), id)
  {
    IdTables(rows);
    forall id | id in order && ip in Get(IdTable(rows), id)
      ensures Known(rows, ip)
    {
      assert IpsAt(IdTable(rows), rows, id);
      GatherMember(rows, IdIps(id), ip);
    }
    forall e | e in rows && ip in e.ips
      ensures e.id in order && ip in Get(IdTable(rows), e.id)
    {
      assert IpsAt(IdTable(rows), rows, e.id) && HasId(rows, e.id);
      assert Count(order, e.id) == 1;
      GatherMember(rows, IdIps(e.id), ip);
      assert IdIps(e.id)(e) == e.ips;
    }
  }

  lemma MappingTableJoins(rows: seq<Row>, order: seq<string>)
    requires IdOrder(order, rows)
    ensures RepMapped(MappingTable(rows, order), rows) && JoinedIn(MappingTable(rows, order), rows, order)
  {
    IdTables(rows);
    forall ip
      ensures JoinAt(MappingTable(rows, order), IdTable(rows), MembershipTable(rows), order, [], [], ip)
    {
      MappingTableAt(rows, order, ip);
    }
    forall id
      ensures Count(order, id) == if id in IdTable(rows).Keys then 1 else 0
    {
      assert IpsAt(IdTable(rows), rows, id);
      assert Count(order, id) == if HasId(rows, id) then 1 else 0;
    }
    JoinMapped(MappingTable(rows, order), IdTable(rows), MembershipTable(rows), rows, order);
    InOrder(MappingTable(rows, order), IdTable(rows), MembershipTable(rows), rows, order);
  }

  ghost function NameTable(rows: seq<Row>): map<string, map<string, seq<Ip>>>
  {
    map n | n in Nets(rows) ::
      map name | name in NamesOf(rows, n) ::
        Gather(rows, NameCell(n, name))
  }

  lemma NameTableAt(rows: seq<Row>, n: string, name: string)
    ensures Listed(NameTable(rows), rows, n) && NamesAt(NameTable(rows), rows, n, name)
  {
    if !Named(rows, n, name) {
      forall e | e in rows
        ensures NameCell(n, name)(e) == []
      {
        if e.net == n { ScatterNone(e.aliases, name, e.ips); }
      }
      GatherNone(rows, NameCell(n, name));
    }
  }

  ghost function ReverseTable(rows: seq<Row>): map<string, map<Ip, seq<string>>>
  {
    map n | n in Nets(rows) ::
      map ip | ip in IpsOf(rows, n) ::
        Gather(rows, ReverseCell(n, ip))
  }

  lemma ReverseTableAt(rows: seq<Row>, n: string, ip: Ip)
    ensures ReverseAt(ReverseTable(rows), rows, n, ip)
  {
    if !Addressed(rows, n, ip) {
      forall e | e in rows
        ensures ReverseCell(n, ip)(e) == []
      {
        if e.net == n { ScatterNone(e.ips, ip, e.aliases); }
      }
      GatherNone(rows, ReverseCell(n, ip));
    }
  }

  ghost function LastTable<K, T, V>(keys: set<K>, items: seq<T>, cell: K -> T -> Option<V>): map<K, V>
  {
    map k | k in keys && Last(items, cell(k)).Some? :: Last(items, cell(k)).value
  }

  lemma LastTableRep<K(!new), T, V>(keys: set<K>, items: seq<T>, cell: K -> T -> Option<V>)
    requires forall k, x | x in items && cell(k)(x).Some? :: k in keys
    ensures RepLast(LastTable(keys, items, cell), items, cell)
  {
    forall k
      ensures LastAt(LastTable(keys, items, cell), items, k, cell)
    {
      LastMember(items, cell(k));
    }
  }

  ghost function CtrDnsTable(rows: seq<Row>): map<Ip, Option<seq<Ip>>>
  {
    LastTable(Ips(rows), rows, DnsCell)
  }

  ghost function KindTable(rows: seq<Row>): map<string, bool>
  {
    LastTable(Nets(rows), rows, InternalCell)
  }

  ghost function NetworkDnsTable(files: seq<NetworkFile>): map<string, seq<Ip>>
  {
    LastTable((set f | f in files :: f.name), files, NetworkDnsCell)
  }

  lemma LastTables(files: seq<NetworkFile>)
    ensures RepLast(CtrDnsTable(AllRows(files)), AllRows(files), DnsCell)
    ensures RepLast(KindTable(AllRows(files)), AllRows(files), InternalCell)
    ensures RepLast(NetworkDnsTable(files), files, NetworkDnsCell)
  {
    var rows := AllRows(files);
    LastTableRep(Ips(rows), rows, DnsCell);
    LastTableRep(Nets(rows), rows, InternalCell);
    LastTableRep((set f | f in files :: f.name), files, NetworkDnsCell);
  }

  /** Every reading of files is that of a backend. */
  lemma Realise(files: seq<NetworkFile>, order: seq<string>, domain: string) returns (b: DNSBackend)
    requires IdOrder(order, AllRows(files))
    ensures Built(b, files, domain) && JoinedIn(b.ipMappings, AllRows(files), order)
  {
    var rows := AllRows(files);
    b := DNSBackend(MappingTable(rows, order), NameTable(rows), ReverseTable(rows), CtrDnsTable(rows),
                    NetworkDnsTable(files), KindTable(rows), Terminated(domain));
    MappingTableJoins(rows, order);
    LastTables(files);
    forall n, name
      ensures Listed(NameTable(rows), rows, n) && NamesAt(NameTable(rows), rows, n, name)
    {
      NameTableAt(rows, n, name);
    }
    forall n, ip
      ensures ReverseAt(ReverseTable(rows), rows, n, ip)
    {
      ReverseTableAt(rows, n, ip);
    }
  }

  lemma SomeBackend(files: seq<NetworkFile>, domain: string) returns (b: DNSBackend)
    ensures Built(b, files, domain)
  {
    var order := AnyOrder(AllRows(files));
    b := Realise(files, order, domain);
  }
}
