/** The index builder: nine maps filled by nested loops over files and entries,
    and the final join of two of them. */
module Index {
  import opened Wrappers
  import opened Address
  import opened Collect
  import opened Maps
  import opened Rows

  // ------------------------------------- maps that represent rows and files

  ghost predicate MembershipAt(m: map<string, seq<string>>, rows: seq<Row>, id: string)
  {
    (id in m <==> HasId(rows, id)) && Get(m, id) == MembershipOf(rows, id)
  }

  ghost predicate IpsAt(m: map<string, seq<Ip>>, rows: seq<Row>, id: string)
  {
    (id in m <==> HasId(rows, id)) && Get(m, id) == Gather(rows, IdIps(id))
  }

  ghost predicate ReverseAt(m: map<string, map<Ip, seq<string>>>, rows: seq<Row>, n: string, ip: Ip)
  {
    && (ip in Inner(m, n) <==> Addressed(rows, n, ip))
    && Get(Inner(m, n), ip) == Gather(rows, ReverseCell(n, ip))
  }

  ghost predicate NamesAt(m: map<string, map<string, seq<Ip>>>, rows: seq<Row>, n: string, name: string)
  {
    && (name in Inner(m, n) <==> Named(rows, n, name))
    && Get(Inner(m, n), name) == Gather(rows, NameCell(n, name))
  }

  ghost predicate Listed<V>(m: map<string, V>, rows: seq<Row>, n: string)
  {
    n in m <==> HasNet(rows, n)
  }

  ghost predicate LastAt<K, V, T>(m: map<K, V>, items: seq<T>, k: K, cell: K -> T -> Option<V>)
  {
    Find(m, k) == Last(items, cell(k))
  }

  ghost predicate ListenAt<V>(m: map<string, seq<V>>, files: seq<NetworkFile>, n: string, only: Ip -> seq<V>)
  {
    Get(m, n) == Gather(files, ListenCell(n, only)) && (n in m <==> Get(m, n) != [])
  }

  /** The address is mapped when some row has it, to each network as often as
      rows with the address belong to a container that joined the network. */
  ghost predicate MappedAt(m: map<Ip, seq<string>>, rows: seq<Row>, ip: Ip, n: string)
  {
    && (ip in m <==> Known(rows, ip))
    && Count(Get(m, ip), n) == Sum(rows, LinkCell(rows, ip, n))
  }

  /** The networks of each container, once for every occurrence of the address. */
  ghost function NetsCell(rows: seq<Row>, ip: Ip): string -> seq<string>
  {
    (id: string) => Scatter(Gather(rows, IdIps(id)), ip, MembershipOf(rows, id))
  }

  /** Every container once. */
  ghost predicate IdOrder(order: seq<string>, rows: seq<Row>)
  {
    forall id :: Count(order, id) == if HasId(rows, id) then 1 else 0
  }

  /** The networks that an address is mapped to when the containers are joined
      in the given order. */
  ghost function NetsIn(rows: seq<Row>, order: seq<string>, ip: Ip): seq<string>
  {
    Gather(order, NetsCell(rows, ip))
  }

  ghost predicate JoinedIn(m: map<Ip, seq<string>>, rows: seq<Row>, order: seq<string>)
  {
    IdOrder(order, rows) && forall ip :: Get(m, ip) == NetsIn(rows, order, ip)
  }

  /** The map is the join of the rows in some order of the containers. */
  ghost predicate RepJoined(m: map<Ip, seq<string>>, rows: seq<Row>)
  {
    exists order :: JoinedIn(m, rows, order)
  }

  ghost predicate RepMembership(m: map<string, seq<string>>, rows: seq<Row>)
  {
    forall id :: MembershipAt(m, rows, id)
  }

  ghost predicate RepIps(m: map<string, seq<Ip>>, rows: seq<Row>)
  {
    forall id :: IpsAt(m, rows, id)
  }

  ghost predicate RepReverse(m: map<string, map<Ip, seq<string>>>, rows: seq<Row>)
  {
    forall n, ip :: ReverseAt(m, rows, n, ip)
  }

  ghost predicate RepNames(m: map<string, map<string, seq<Ip>>>, rows: seq<Row>)
  {
    && (forall n :: Listed(m, rows, n))
    && (forall n, name :: NamesAt(m, rows, n, name))
  }

  /** A map that the last writer of each key decides. */
  ghost predicate RepLast<K(!new), V, T>(m: map<K, V>, items: seq<T>, cell: K -> T -> Option<V>)
  {
    forall k :: LastAt(m, items, k, cell)
  }

  ghost predicate RepListen<V>(m: map<string, seq<V>>, files: seq<NetworkFile>, only: Ip -> seq<V>)
  {
    forall n :: ListenAt(m, files, n, only)
  }

  ghost predicate RepMapped(m: map<Ip, seq<string>>, rows: seq<Row>)
  {
    forall ip, n :: MappedAt(m, rows, ip, n)
  }

  // ------------------------------------------------------------- one step

  lemma IdStep(rows: seq<Row>, row: Row, id: string)
    ensures HasId(rows + [row], id) <==> HasId(rows, id) || row.id == id
  {
    assert row in rows + [row];
  }

  lemma NetStep(rows: seq<Row>, row: Row, n: string)
    ensures HasNet(rows + [row], n) <==> HasNet(rows, n) || row.net == n
  {
    assert row in rows + [row];
  }

  lemma AddressedStep(rows: seq<Row>, row: Row, n: string, ip: Ip)
    ensures Addressed(rows + [row], n, ip) <==> Addressed(rows, n, ip) || (row.net == n && ip in row.ips)
  {
    assert row in rows + [row];
  }

  lemma NamedStep(rows: seq<Row>, row: Row, n: string, name: string)
    ensures Named(rows + [row], n, name) <==> Named(rows, n, name) || (row.net == n && name in row.aliases)
  {
    assert row in rows + [row];
  }

  lemma MembershipStep(m: map<string, seq<string>>, rows: seq<Row>, row: Row)
    requires RepMembership(m, rows)
    ensures var nets := Get(m, row.id);
            RepMembership(m[row.id := if row.net in nets then nets else nets + [row.net]], rows + [row])
  {
    var nets := Get(m, row.id);
    var m' := m[row.id := if row.net in nets then nets else nets + [row.net]];
    forall id
      ensures MembershipAt(m', rows + [row], id)
    {
      assert MembershipAt(m, rows, id) && MembershipAt(m, rows, row.id);
      assert (rows + [row])[..|rows|] == rows;
      IdStep(rows, row, id);
    }
  }

  lemma IpsStep(m: map<string, seq<Ip>>, rows: seq<Row>, row: Row)
    requires RepIps(m, rows)
    ensures RepIps(Push(m, row.id, row.ips), rows + [row])
  {
    forall id
      ensures IpsAt(Push(m, row.id, row.ips), rows + [row], id)
    {
      assert IpsAt(m, rows, id);
      IdStep(rows, row, id);
      GatherSnoc(rows, row, IdIps(id));
    }
  }

  /** A row with no address yet adds nothing to the reverse index. */
  lemma ReverseStart(m: map<string, map<Ip, seq<string>>>, rows: seq<Row>, row: Row)
    requires RepReverse(m, rows) && row.ips == []
    ensures RepReverse(m, rows + [row])
  {
    forall n, ip
      ensures ReverseAt(m, rows + [row], n, ip)
    {
      assert ReverseAt(m, rows, n, ip);
      AddressedStep(rows, row, n, ip);
      GatherSnoc(rows, row, ReverseCell(n, ip));
    }
  }

  lemma ReverseStep(m: map<string, map<Ip, seq<string>>>, rows: seq<Row>, row: Row, ip: Ip)
    requires RepReverse(m, rows + [row])
    ensures RepReverse(Push2(m, row.net, ip, row.aliases), rows + [row.(ips := row.ips + [ip])])
  {
    forall n, a
      ensures ReverseAt(Push2(m, row.net, ip, row.aliases), rows + [row.(ips := row.ips + [ip])], n, a)
    {
      assert ReverseAt(m, rows + [row], n, a);
      AddressedStep(rows, row, n, a);
      AddressedStep(rows, row.(ips := row.ips + [ip]), n, a);
      ReverseCellStep(rows, row, ip, n, a);
    }
  }

  lemma ReverseCellSnoc(row: Row, ip: Ip, n: string, a: Ip)
    ensures ReverseCell(n, a)(row.(ips := row.ips + [ip])) ==
            ReverseCell(n, a)(row) + (if n == row.net && a == ip then row.aliases else [])
  {
    ScatterSnoc(row.ips, ip, a, row.aliases);
  }

  lemma ReverseCellStep(rows: seq<Row>, row: Row, ip: Ip, n: string, a: Ip)
    ensures var next := row.(ips := row.ips + [ip]);
            Gather(rows + [next], ReverseCell(n, a)) ==
            Gather(rows + [row], ReverseCell(n, a)) + (if n == row.net && a == ip then row.aliases else [])
  {
    var next := row.(ips := row.ips + [ip]);
    ReverseCellSnoc(row, ip, n, a);
    GatherSwap(rows, row, next, if n == row.net && a == ip then row.aliases else [], ReverseCell(n, a));
  }

  lemma CtrDnsStart(m: map<Ip, Option<seq<Ip>>>, rows: seq<Row>, row: Row)
    requires RepLast(m, rows, DnsCell) && row.ips == []
    ensures RepLast(m, rows + [row], DnsCell)
  {
    forall ip
      ensures LastAt(m, rows + [row], ip, DnsCell)
    {
      assert LastAt(m, rows, ip, DnsCell);
      LastSnoc(rows, row, DnsCell(ip));
    }
  }

  lemma CtrDnsStep(m: map<Ip, Option<seq<Ip>>>, rows: seq<Row>, row: Row, ip: Ip)
    requires RepLast(m, rows + [row], DnsCell)
    ensures RepLast(if row.internal then m else m[ip := row.dns],
                    rows + [row.(ips := row.ips + [ip])], DnsCell)
  {
    var next := row.(ips := row.ips + [ip]);
    var m' := if row.internal then m else m[ip := row.dns];
    forall a
      ensures LastAt(m', rows + [next], a, DnsCell)
    {
      assert LastAt(m, rows + [row], a, DnsCell);
      LastSnoc(rows, row, DnsCell(a));
      LastSnoc(rows, next, DnsCell(a));
    }
  }

  /** `entry(net).or_default()`: the network is listed before its first name. */
  lemma NamesStart(m: map<string, map<string, seq<Ip>>>, rows: seq<Row>, row: Row)
    requires RepNames(m, rows) && row.aliases == []
    ensures RepNames(m[row.net := Inner(m, row.net)], rows + [row])
  {
    var m' := m[row.net := Inner(m, row.net)];
    forall n
      ensures Listed(m', rows + [row], n)
    {
      assert Listed(m, rows, n);
      NetStep(rows, row, n);
    }
    forall n, name
      ensures NamesAt(m', rows + [row], n, name)
    {
      assert NamesAt(m, rows, n, name);
      NamedStep(rows, row, n, name);
      GatherSnoc(rows, row, NameCell(n, name));
    }
  }

  lemma NamesStep(m: map<string, map<string, seq<Ip>>>, rows: seq<Row>, row: Row, alias: string)
    requires RepNames(m, rows + [row])
    ensures RepNames(Push2(m, row.net, alias, row.ips), rows + [row.(aliases := row.aliases + [alias])])
  {
    var next := row.(aliases := row.aliases + [alias]);
    forall n
      ensures Listed(Push2(m, row.net, alias, row.ips), rows + [next], n)
    {
      assert Listed(m, rows + [row], n);
      NetStep(rows, row, n);
      NetStep(rows, next, n);
    }
    forall n, a
      ensures NamesAt(Push2(m, row.net, alias, row.ips), rows + [next], n, a)
    {
      assert NamesAt(m, rows + [row], n, a);
      NamedStep(rows, row, n, a);
      NamedStep(rows, next, n, a);
      NameCellStep(rows, row, alias, n, a);
    }
  }

  lemma NameCellSnoc(row: Row, alias: string, n: string, a: string)
    ensures NameCell(n, a)(row.(aliases := row.aliases + [alias])) ==
            NameCell(n, a)(row) + (if n == row.net && a == alias then row.ips else [])
  {
    ScatterSnoc(row.aliases, alias, a, row.ips);
  }

  lemma NameCellStep(rows: seq<Row>, row: Row, alias: string, n: string, a: string)
    ensures var next := row.(aliases := row.aliases + [alias]);
            Gather(rows + [next], NameCell(n, a)) ==
            Gather(rows + [row], NameCell(n, a)) + (if n == row.net && a == alias then row.ips else [])
  {
    var next := row.(aliases := row.aliases + [alias]);
    NameCellSnoc(row, alias, n, a);
    GatherSwap(rows, row, next, if n == row.net && a == alias then row.ips else [], NameCell(n, a));
  }

  /** `insert`: a later writer of the key takes over. */
  lemma InsertStep<K(!new), V, T>(m: map<K, V>, items: seq<T>, item: T, k: K, cell: K -> T -> Option<V>)
    requires RepLast(m, items, cell)
    requires forall j | j != k :: cell(j)(item).None?
    ensures cell(k)(item).Some? ==> RepLast(m[k := cell(k)(item).value], items + [item], cell)
    ensures cell(k)(item).None? ==> RepLast(m, items + [item], cell)
  {
    var m' := if cell(k)(item).Some? then m[k := cell(k)(item).value] else m;
    forall j
      ensures LastAt(m', items + [item], j, cell)
    {
      assert LastAt(m, items, j, cell);
      LastSnoc(items, item, cell(j));
    }
  }

  lemma ListenStart<V>(m: map<string, seq<V>>, files: seq<NetworkFile>, file: NetworkFile, only: Ip -> seq<V>)
    requires RepListen(m, files, only) && file.config.bindIps == []
    ensures RepListen(m, files + [file], only)
  {
    forall n
      ensures ListenAt(m, files + [file], n, only)
    {
      assert ListenAt(m, files, n, only);
      GatherSnoc(files, file, ListenCell(n, only));
    }
  }

  function Bind(file: NetworkFile, bindIps: seq<Ip>): NetworkFile
  {
    file.(config := file.config.(bindIps := bindIps))
  }

  lemma ListenCellSnoc<V>(file: NetworkFile, done: seq<Ip>, ip: Ip, only: Ip -> seq<V>, n: string)
    ensures ListenCell(n, only)(Bind(file, done + [ip])) ==
            ListenCell(n, only)(Bind(file, done)) + (if n == file.name then only(ip) else [])
  {
    GatherSnoc(done, ip, only);
  }

  lemma ListenStepAt<V>(m: map<string, seq<V>>, files: seq<NetworkFile>, file: NetworkFile,
                        done: seq<Ip>, ip: Ip, only: Ip -> seq<V>, n: string)
    requires ListenAt(m, files + [Bind(file, done)], n, only)
    ensures ListenAt(if only(ip) == [] then m else Push(m, file.name, only(ip)),
                     files + [Bind(file, done + [ip])], n, only)
  {
    ListenCellSnoc(file, done, ip, only, n);
    GatherSwap(files, Bind(file, done), Bind(file, done + [ip]),
               if n == file.name then only(ip) else [], ListenCell(n, only));
  }

  lemma ListenStep<V>(m: map<string, seq<V>>, files: seq<NetworkFile>, file: NetworkFile,
                      done: seq<Ip>, ip: Ip, only: Ip -> seq<V>)
    requires RepListen(m, files + [Bind(file, done)], only)
    ensures RepListen(if only(ip) == [] then m else Push(m, file.name, only(ip)),
                      files + [Bind(file, done + [ip])], only)
  {
    var m' := if only(ip) == [] then m else Push(m, file.name, only(ip));
    forall n
      ensures ListenAt(m', files + [Bind(file, done + [ip])], n, only)
    {
      assert ListenAt(m, files + [Bind(file, done)], n, only);
      ListenStepAt(m, files, file, done, ip, only, n);
    }
  }

  // ------------------------------------------------------------- the join

  function JoinCell(ips: map<string, seq<Ip>>, membership: map<string, seq<string>>, ip: Ip): string -> seq<string>
  {
    (id: string) => Scatter(Get(ips, id), ip, Get(membership, id))
  }

  /** The join after the containers in `order`, and `done` of one more whose
      networks are `nets`. */
  ghost predicate JoinAt(
    ctrs: map<Ip, seq<string>>, ips: map<string, seq<Ip>>, membership: map<string, seq<string>>,
    order: seq<string>, done: seq<Ip>, nets: seq<string>, ip: Ip)
  {
    && Get(ctrs, ip) == Gather(order, JoinCell(ips, membership, ip)) + Scatter(done, ip, nets)
    && (ip in ctrs <==> (exists id :: id in order && ip in Get(ips, id)) || ip in done)
  }

  ghost predicate RepJoin(
    ctrs: map<Ip, seq<string>>, ips: map<string, seq<Ip>>, membership: map<string, seq<string>>,
    order: seq<string>, done: seq<Ip>, nets: seq<string>)
  {
    forall ip :: JoinAt(ctrs, ips, membership, order, done, nets, ip)
  }

  lemma JoinStepAt(
    ctrs: map<Ip, seq<string>>, ips: map<string, seq<Ip>>, membership: map<string, seq<string>>,
    order: seq<string>, done: seq<Ip>, nets: seq<string>, a: Ip, ip: Ip)
    requires JoinAt(ctrs, ips, membership, order, done, nets, ip)
    ensures JoinAt(Push(ctrs, a, nets), ips, membership, order, done + [a], nets, ip)
  {
    ScatterSnoc(done, a, ip, nets);
    var before := Gather(order, JoinCell(ips, membership, ip));
    assert before + (Scatter(done, ip, nets) + nets) == before + Scatter(done, ip, nets) + nets;
    assert before + (Scatter(done, ip, nets) + []) == before + Scatter(done, ip, nets);
    assert ip in done + [a] <==> ip in done || ip == a;
  }

  lemma JoinStep(
    ctrs: map<Ip, seq<string>>, ips: map<string, seq<Ip>>, membership: map<string, seq<string>>,
    order: seq<string>, done: seq<Ip>, nets: seq<string>, a: Ip)
    requires RepJoin(ctrs, ips, membership, order, done, nets)
    ensures RepJoin(Push(ctrs, a, nets), ips, membership, order, done + [a], nets)
  {
    var ctrs' := Push(ctrs, a, nets);
    forall ip
      ensures JoinAt(ctrs', ips, membership, order, done + [a], nets, ip)
    {
      assert JoinAt(ctrs, ips, membership, order, done, nets, ip);
      JoinStepAt(ctrs, ips, membership, order, done, nets, a, ip);
    }
  }

  lemma JoinNext(
    ctrs: map<Ip, seq<string>>, ips: map<string, seq<Ip>>, membership: map<string, seq<string>>,
    order: seq<string>, id: string)
    requires RepJoin(ctrs, ips, membership, order, Get(ips, id), Get(membership, id))
    ensures RepJoin(ctrs, ips, membership, order + [id], [], [])
  {
    forall ip
      ensures JoinAt(ctrs, ips, membership, order + [id], [], [], ip)
    {
      assert JoinAt(ctrs, ips, membership, order, Get(ips, id), Get(membership, id), ip);
      GatherSnoc(order, id, JoinCell(ips, membership, ip));
      assert forall j :: j in order + [id] <==> j in order || j == id;
    }
  }

  lemma JoinBegin(
    ctrs: map<Ip, seq<string>>, ips: map<string, seq<Ip>>, membership: map<string, seq<string>>,
    order: seq<string>, nets: seq<string>)
    requires RepJoin(ctrs, ips, membership, order, [], [])
    ensures RepJoin(ctrs, ips, membership, order, [], nets)
  {
    forall ip
      ensures JoinAt(ctrs, ips, membership, order, [], nets, ip)
    {
      assert JoinAt(ctrs, ips, membership, order, [], [], ip);
    }
  }

  /** Every key once. */
  ghost predicate IsOrder(order: seq<string>, keys: set<string>)
  {
    forall id :: Count(order, id) == if id in keys then 1 else 0
  }

  function RowId(): Row -> string
  {
    (e: Row) => e.id
  }

  lemma {:induction false} IdIpsCount(part: seq<Row>, rows: seq<Row>, id: string, ip: Ip, net: string)
    ensures Sum(part, Matching(RowId(), LinkCell(rows, ip, net), id)) ==
            if Joined(rows, id, net) then Count(Gather(part, IdIps(id)), ip) else 0
  {
    if part != [] {
      IdIpsCount(part[..|part| - 1], rows, id, ip, net);
    }
  }

  lemma ScatterOnce<K, V>(keys: seq<K>, k: K, vals: seq<V>, v: V)
    requires Count(vals, v) <= 1
    ensures Count(Scatter(keys, k, vals), v) == if Count(vals, v) == 1 then Count(keys, k) else 0
  {
    ScatterCount(keys, k, vals, v);
  }

  lemma JoinCellCount(
    ips: map<string, seq<Ip>>, membership: map<string, seq<string>>, rows: seq<Row>,
    id: string, ip: Ip, net: string)
    requires IpsAt(ips, rows, id) && MembershipAt(membership, rows, id)
    ensures Count(JoinCell(ips, membership, ip)(id), net) ==
            Sum(rows, Matching(RowId(), LinkCell(rows, ip, net), id))
  {
    var a, b := Get(ips, id), Get(membership, id);
    assert Count(b, net) == if Joined(rows, id, net) then 1 else 0 by {
      MembershipCount(rows, id, net);
    }
    ScatterOnce(a, ip, b, net);
    assert JoinCell(ips, membership, ip)(id) == Scatter(a, ip, b);
    IdIpsCount(rows, rows, id, ip, net);
  }

  /** Joining by container, in any order, counts the same as reading the rows. */
  lemma JoinCount(
    ips: map<string, seq<Ip>>, membership: map<string, seq<string>>, rows: seq<Row>,
    order: seq<string>, ip: Ip, net: string)
    requires RepIps(ips, rows) && RepMembership(membership, rows) && IsOrder(order, ips.Keys)
    ensures Count(Gather(order, JoinCell(ips, membership, ip)), net) == Sum(rows, LinkCell(rows, ip, net))
  {
    var cell, w := JoinCell(ips, membership, ip), LinkCell(rows, ip, net);
    calc {
      Count(Gather(order, cell), net);
      { GatherCount(order, cell, net); }
      Sum(order, CountIn(cell, net));
      {
        forall id | id in order
          ensures CountIn(cell, net)(id) == SumMatching(rows, RowId(), w)(id)
        {
          assert IpsAt(ips, rows, id) && MembershipAt(membership, rows, id);
          JoinCellCount(ips, membership, rows, id, ip, net);
        }
        SumSame(order, CountIn(cell, net), SumMatching(rows, RowId(), w));
      }
      Sum(order, SumMatching(rows, RowId(), w));
      { Exchange(order, rows, RowId(), w); }
      Sum(rows, Weighted(order, RowId(), w));
      { EachOnce(ips, rows, order, w); }
      Sum(rows, w);
    }
  }

  lemma EachOnce(ips: map<string, seq<Ip>>, rows: seq<Row>, order: seq<string>, w: Row -> nat)
    requires RepIps(ips, rows) && IsOrder(order, ips.Keys)
    ensures Sum(rows, Weighted(order, RowId(), w)) == Sum(rows, w)
  {
    forall e | e in rows
      ensures Weighted(order, RowId(), w)(e) == w(e)
    {
      assert IpsAt(ips, rows, e.id) && HasId(rows, e.id);
      assert Count(order, e.id) == 1;
    }
    SumSame(rows, Weighted(order, RowId(), w), w);
  }

  lemma JoinKnown(
    ctrs: map<Ip, seq<string>>, ips: map<string, seq<Ip>>, membership: map<string, seq<string>>, rows: seq<Row>,
    order: seq<string>, ip: Ip)
    requires RepIps(ips, rows) && IsOrder(order, ips.Keys)
    requires RepJoin(ctrs, ips, membership, order, [], [])
    ensures ip in ctrs <==> Known(rows, ip)
  {
    assert JoinAt(ctrs, ips, membership, order, [], [], ip);
    forall id | id in order && ip in Get(ips, id)
      ensures Known(rows, ip)
    {
      assert IpsAt(ips, rows, id);
      GatherMember(rows, IdIps(id), ip);
    }
    forall e | e in rows && ip in e.ips
      ensures e.id in order && ip in Get(ips, e.id)
    {
      assert IpsAt(ips, rows, e.id) && HasId(rows, e.id);
      assert Count(order, e.id) == 1;
      GatherMember(rows, IdIps(e.id), ip);
      assert IdIps(e.id)(e) == e.ips;
    }
  }

  lemma JoinMapped(
    ctrs: map<Ip, seq<string>>, ips: map<string, seq<Ip>>, membership: map<string, seq<string>>, rows: seq<Row>,
    order: seq<string>)
    requires RepIps(ips, rows) && RepMembership(membership, rows) && IsOrder(order, ips.Keys)
    requires RepJoin(ctrs, ips, membership, order, [], [])
    ensures RepMapped(ctrs, rows) && RepJoined(ctrs, rows)
  {
    InOrder(ctrs, ips, membership, rows, order);
    forall ip, n
      ensures MappedAt(ctrs, rows, ip, n)
    {
      assert JoinAt(ctrs, ips, membership, order, [], [], ip);
      JoinKnown(ctrs, ips, membership, rows, order, ip);
      JoinCount(ips, membership, rows, order, ip, n);
    }
  }

  lemma InOrder(
    ctrs: map<Ip, seq<string>>, ips: map<string, seq<Ip>>, membership: map<string, seq<string>>, rows: seq<Row>,
    order: seq<string>)
    requires RepIps(ips, rows) && RepMembership(membership, rows) && IsOrder(order, ips.Keys)
    requires RepJoin(ctrs, ips, membership, order, [], [])
    ensures JoinedIn(ctrs, rows, order)
  {
    forall id
      ensures id in ips <==> HasId(rows, id)
    {
      assert IpsAt(ips, rows, id);
    }
    forall ip
      ensures Get(ctrs, ip) == NetsIn(rows, order, ip)
    {
      assert JoinAt(ctrs, ips, membership, order, [], [], ip);
      forall id | id in order
        ensures JoinCell(ips, membership, ip)(id) == NetsCell(rows, ip)(id)
      {
        assert IpsAt(ips, rows, id) && MembershipAt(membership, rows, id);
      }
      GatherSame(order, JoinCell(ips, membership, ip), NetsCell(rows, ip));
    }
  }
}
