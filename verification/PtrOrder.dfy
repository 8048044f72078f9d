/** Which names a PTR query is given: the first network that lists the address
    decides, so here the order matters in which files are read and containers
    are joined. */
module PtrOrder {
  import opened Wrappers
  import opened Address
  import opened Collect
  import opened Maps
  import opened Rows
  import opened Index
  import opened Backend
  import opened Builder
  import opened Existence
  import opened Queries
  import opened FileOrder

  /** What the rows of a network list for the address. */
  ghost function RowListing(rows: seq<Row>, ip: Ip): string -> Option<seq<string>>
  {
    (n: string) => if Addressed(rows, n, ip) then Some(Gather(rows, ReverseCell(n, ip))) else None
  }

  /** The names given for the address when the rows are read in order and the
      containers joined in the given order. */
  ghost function NamesIn(rows: seq<Row>, order: seq<string>, requester: Ip, ip: Ip): Option<seq<string>>
  {
    First(NetsIn(rows, order, requester), RowListing(rows, ip))
  }

  /** The files in some order, and their containers in some order. */
  ghost predicate Reading(files: seq<NetworkFile>, f: seq<NetworkFile>, order: seq<string>)
  {
    SameFiles(files, f) && IdOrder(order, AllRows(f))
  }

  lemma {:induction false} FirstSame<T, V>(s: seq<T>, f: T -> Option<V>, g: T -> Option<V>)
    requires forall x | x in s :: f(x) == g(x)
    ensures First(s, f) == First(s, g)
  {
    if s != [] {
      FirstSame(s[1..], f, g);
    }
  }

  lemma NamesRead(
    b: DNSBackend, files: seq<NetworkFile>, order: seq<string>, domain: string, requester: Ip, ip: Ip)
    requires Built(b, files, domain) && JoinedIn(b.ipMappings, AllRows(files), order)
    ensures Names(b, requester, ip) == NamesIn(AllRows(files), order, requester, ip)
  {
    var rows := AllRows(files);
    forall n
      ensures ListingCell(b, ip)(n) == RowListing(rows, ip)(n)
    {
      assert ReverseAt(b.reverseMappings, rows, n, ip);
    }
    FirstSame(Get(b.ipMappings, requester), ListingCell(b, ip), RowListing(rows, ip));
  }

  /** Every backend built from files answers as its reading of them does. */
  lemma NamesBuilt(b: DNSBackend, files: seq<NetworkFile>, domain: string) returns (order: seq<string>)
    requires Built(b, files, domain)
    ensures Reading(files, files, order)
    ensures forall requester, ip :: Names(b, requester, ip) == NamesIn(AllRows(files), order, requester, ip)
  {
    order :| JoinedIn(b.ipMappings, AllRows(files), order);
    forall requester, ip
      ensures Names(b, requester, ip) == NamesIn(AllRows(files), order, requester, ip)
    {
      NamesRead(b, files, order, domain, requester, ip);
    }
  }

  // ------------------------------------------------------ one container only

  lemma ScatterHead<K, V>(keys: seq<K>, k: K, vals: seq<V>)
    requires k in keys && vals != []
    ensures Scatter(keys, k, vals) != [] && Scatter(keys, k, vals)[0] == vals[0]
  {
    var init, x := keys[..|keys| - 1], keys[|keys| - 1];
    assert keys == init + [x];
    if k in init {
      ScatterHead(init, k, vals);
    } else {
      ScatterNone(init, k, vals);
    }
  }

  /** An address of one container only is mapped to the networks of that
      container in the order of the files, whatever the order of the join. */
  lemma SoleContainer(b: DNSBackend, files: seq<NetworkFile>, domain: string, ip: Ip, id: string)
    requires Built(b, files, domain) && HasId(AllRows(files), id)
    requires forall e | e in AllRows(files) && ip in e.ips :: e.id == id
    ensures Get(b.ipMappings, ip) ==
            Scatter(Gather(AllRows(files), IdIps(id)), ip, MembershipOf(AllRows(files), id))
  {
    var rows := AllRows(files);
    var order :| JoinedIn(b.ipMappings, rows, order);
    forall j | j in order && j != id
      ensures NetsCell(rows, ip)(j) == []
    {
      NoIpNoNets(rows, j, ip);
    }
    GatherOne(order, NetsCell(rows, ip), id);
  }

  // ---------------------------------------------------------- putting first

  lemma {:induction false} MembershipStarts(a: seq<Row>, b: seq<Row>, id: string, n: string)
    requires forall e | e in a :: e.net == n
    requires HasId(a, id)
    ensures MembershipOf(a + b, id) != [] && MembershipOf(a + b, id)[0] == n
  {
    if b == [] {
      assert a + b == a;
      MembershipAlone(a, id, n);
    } else {
      var rows := a + b;
      assert rows[..|rows| - 1] == a + b[..|b| - 1];
      MembershipStarts(a, b[..|b| - 1], id, n);
    }
  }

  lemma {:induction false} MembershipAlone(a: seq<Row>, id: string, n: string)
    requires forall e | e in a :: e.net == n
    requires HasId(a, id)
    ensures MembershipOf(a, id) == [n]
  {
    var init, e := a[..|a| - 1], a[|a| - 1];
    assert a == init + [e];
    if HasId(init, id) {
      MembershipAlone(init, id, n);
    } else {
      NoMembership(init, id);
      var d :| d in a && d.id == id;
      assert d == e;
    }
  }

  lemma GatherHead<T, V>(x: T, s: seq<T>, f: T -> seq<V>)
    ensures Gather([x] + s, f) == f(x) + Gather(s, f)
  {
    GatherConcat([x], s, f);
    GatherSnoc([], x, f);
    assert [] + [x] == [x];
  }

  lemma ReadFirst(files: seq<NetworkFile>, x: NetworkFile) returns (f: seq<NetworkFile>, rest: seq<NetworkFile>)
    requires x in files
    ensures SameFiles(files, f) && AllRows(f) == FileRows(x) + AllRows(rest)
  {
    var i :| 0 <= i < |files| && files[i] == x;
    rest := files[..i] + files[i + 1..];
    f := [x] + rest;
    assert files == files[..i] + [x] + files[i + 1..];
    GatherHead(x, rest, FileRows);
  }

  lemma JoinFirst(rows: seq<Row>, a: seq<Row>, b: seq<Row>, requester: Ip, id: string, n: string)
    returns (order: seq<string>)
    requires rows == a + b && HasId(a, id) && forall e | e in a :: e.net == n
    requires exists e :: e in rows && e.id == id && requester in e.ips
    ensures IdOrder(order, rows)
    ensures NetsIn(rows, order, requester) != [] && NetsIn(rows, order, requester)[0] == n
  {
    var e :| e in a && e.id == id;
    assert e in rows && HasId(rows, id);
    var others := OrderFrom(rows, id);
    order := [id] + others;
    GatherHead(id, others, NetsCell(rows, requester));
    MembershipStarts(a, b, id, n);
    GatherMember(rows, IdIps(id), requester);
    ScatterHead(Gather(rows, IdIps(id)), requester, MembershipOf(rows, id));
  }

  lemma FileOf(files: seq<NetworkFile>, e: Row) returns (x: NetworkFile)
    requires e in AllRows(files)
    ensures x in files && e in FileRows(x)
    ensures forall d | d in FileRows(x) :: d.net == e.net
  {
    GatherMember(files, FileRows, e);
    x :| x in files && e in FileRows(x);
  }

  lemma MemberFirst(files: seq<NetworkFile>, requester: Ip, e1: Row, e2: Row)
    returns (f: seq<NetworkFile>, order: seq<string>)
    requires e1 in AllRows(files) && requester in e1.ips && e2 in AllRows(files) && e2.id == e1.id
    ensures Reading(files, f, order)
    ensures NetsIn(AllRows(f), order, requester) != [] && NetsIn(AllRows(f), order, requester)[0] == e2.net
  {
    var x := FileOf(files, e2);
    var rest;
    f, rest := ReadFirst(files, x);
    SameRows(files, f);
    assert e1 in AllRows(f);
    assert HasId(FileRows(x), e1.id);
    order := JoinFirst(AllRows(f), FileRows(x), AllRows(rest), requester, e1.id, e2.net);
  }

  /** Any network of the requester can come first. */
  lemma NetworkFirst(files: seq<NetworkFile>, requester: Ip, n: string)
    returns (f: seq<NetworkFile>, order: seq<string>)
    requires Links(AllRows(files), requester, n)
    ensures Reading(files, f, order)
    ensures NetsIn(AllRows(f), order, requester) != [] && NetsIn(AllRows(f), order, requester)[0] == n
  {
    var e1, e2 :| e1 in AllRows(files) && requester in e1.ips &&
                  e2 in AllRows(files) && e2.id == e1.id && e2.net == n;
    f, order := MemberFirst(files, requester, e1, e2);
  }

  // ------------------------------------------------------- when order matters

  /** All networks of the requester that list the address list the same names. */
  ghost predicate SameListings(rows: seq<Row>, requester: Ip, ip: Ip)
  {
    forall m, n | Links(rows, requester, m) && Links(rows, requester, n) &&
                  Addressed(rows, m, ip) && Addressed(rows, n, ip) ::
      RowListing(rows, ip)(m) == RowListing(rows, ip)(n)
  }

  lemma NetsMember(rows: seq<Row>, order: seq<string>, ip: Ip, n: string)
    requires IdOrder(order, rows)
    ensures n in NetsIn(rows, order, ip) <==> Links(rows, ip, n)
  {
    GatherMember(order, NetsCell(rows, ip), n);
    forall id
      ensures id in order && n in NetsCell(rows, ip)(id) <==>
              (exists e :: e in rows && e.id == id && ip in e.ips) && Joined(rows, id, n)
    {
      CellMember(rows, ip, id, n);
      assert Count(order, id) == if HasId(rows, id) then 1 else 0;
    }
    if Links(rows, ip, n) {
      var e1, e2 :| e1 in rows && ip in e1.ips && e2 in rows && e2.id == e1.id && e2.net == n;
      assert Joined(rows, e1.id, n);
      assert e1.id in order && n in NetsCell(rows, ip)(e1.id);
    }
  }

  lemma CellMember(rows: seq<Row>, ip: Ip, id: string, n: string)
    ensures n in NetsCell(rows, ip)(id) <==>
            (exists e :: e in rows && e.id == id && ip in e.ips) && Joined(rows, id, n)
  {
    ScatterMember(Gather(rows, IdIps(id)), ip, MembershipOf(rows, id), n);
    GatherMember(rows, IdIps(id), ip);
    MembershipCount(rows, id, n);
    assert n in MembershipOf(rows, id) <==> Count(MembershipOf(rows, id), n) > 0;
  }

  /** Listings do not depend on the order of the files. */
  lemma ListingOrder(files: seq<NetworkFile>, f: seq<NetworkFile>, ip: Ip, n: string)
    requires SameFiles(files, f) && DistinctNames(files)
    ensures RowListing(AllRows(f), ip)(n) == RowListing(AllRows(files), ip)(n)
  {
    SameRows(files, f);
    OneFileRows(files, f, n, ReverseCell(n, ip));
  }

  lemma LinksOrder(files: seq<NetworkFile>, f: seq<NetworkFile>, ip: Ip, n: string)
    requires SameFiles(files, f)
    ensures Links(AllRows(files), ip, n) <==> Links(AllRows(f), ip, n)
  {
    SameRows(files, f);
  }

  /** In any reading, the names are those listed by some network of the
      requester that lists the address, if there is one. */
  lemma NamesFrom(files: seq<NetworkFile>, f: seq<NetworkFile>, order: seq<string>, requester: Ip, ip: Ip)
    requires Reading(files, f, order) && DistinctNames(files)
    ensures var rows, names := AllRows(files), NamesIn(AllRows(f), order, requester, ip);
            && (names.Some? <==> exists n :: Links(rows, requester, n) && RowListing(rows, ip)(n).Some?)
            && (names.Some? ==> exists n :: Links(rows, requester, n) && RowListing(rows, ip)(n) == names)
  {
    var nets := NetsIn(AllRows(f), order, requester);
    FirstMember(nets, RowListing(AllRows(f), ip));
    forall n
      ensures n in nets <==> Links(AllRows(files), requester, n)
      ensures RowListing(AllRows(f), ip)(n) == RowListing(AllRows(files), ip)(n)
    {
      NetsMember(AllRows(f), order, requester, n);
      LinksOrder(files, f, requester, n);
      ListingOrder(files, f, ip, n);
    }
  }

  lemma NamesFirst(files: seq<NetworkFile>, requester: Ip, ip: Ip, n: string)
    returns (f: seq<NetworkFile>, order: seq<string>)
    requires DistinctNames(files) && Links(AllRows(files), requester, n) && Addressed(AllRows(files), n, ip)
    ensures Reading(files, f, order)
    ensures NamesIn(AllRows(f), order, requester, ip) == RowListing(AllRows(files), ip)(n)
  {
    f, order := NetworkFirst(files, requester, n);
    ListingOrder(files, f, ip, n);
  }

  lemma NamesAgree(
    files: seq<NetworkFile>, f: seq<NetworkFile>, order: seq<string>, g: seq<NetworkFile>, other: seq<string>,
    requester: Ip, ip: Ip)
    requires Reading(files, f, order) && Reading(files, g, other) && DistinctNames(files)
    requires SameListings(AllRows(files), requester, ip)
    ensures NamesIn(AllRows(f), order, requester, ip) == NamesIn(AllRows(g), other, requester, ip)
  {
    NamesFrom(files, f, order, requester, ip);
    NamesFrom(files, g, other, requester, ip);
  }

  /** With distinct names, whether there is an answer never depends on the order,
      and the answer does not when the listings are the same. */
  lemma ReverseAnswerOrder(
    b: DNSBackend, c: DNSBackend, f: seq<NetworkFile>, g: seq<NetworkFile>, domain: string, requester: Ip, ip: Ip)
    requires Built(b, f, domain) && Built(c, g, domain) && SameFiles(f, g) && DistinctNames(f)
    ensures Names(b, requester, ip).Some? <==> Names(c, requester, ip).Some?
    ensures SameListings(AllRows(f), requester, ip) ==> Names(b, requester, ip) == Names(c, requester, ip)
  {
    var order := NamesBuilt(b, f, domain);
    var other := NamesBuilt(c, g, domain);
    NamesFrom(f, f, order, requester, ip);
    NamesFrom(f, g, other, requester, ip);
    if SameListings(AllRows(f), requester, ip) {
      NamesAgree(f, f, order, g, other, requester, ip);
    }
  }

  lemma NamesRealised(files: seq<NetworkFile>, domain: string, requester: Ip, ip: Ip, n: string)
    returns (b: DNSBackend)
    requires DistinctNames(files) && Links(AllRows(files), requester, n) && Addressed(AllRows(files), n, ip)
    ensures BuiltFrom(b, files, domain)
    ensures Names(b, requester, ip) == RowListing(AllRows(files), ip)(n)
  {
    var f, order := NamesFirst(files, requester, ip, n);
    b := Realise(f, order, domain);
    NamesRead(b, f, order, domain, requester, ip);
  }

  /** With distinct names: the names that a requester is given for an address
      are the same from all backends built from the files, whatever the order of
      the files and of the join, exactly when all its networks that list the
      address list the same names. */
  lemma NamesOrderExactly(files: seq<NetworkFile>, domain: string, requester: Ip, ip: Ip)
    requires DistinctNames(files)
    ensures SameListings(AllRows(files), requester, ip) <==>
            forall b, c | BuiltFrom(b, files, domain) && BuiltFrom(c, files, domain) ::
              Names(b, requester, ip) == Names(c, requester, ip)
  {
    if SameListings(AllRows(files), requester, ip) {
      forall b, c | BuiltFrom(b, files, domain) && BuiltFrom(c, files, domain)
        ensures Names(b, requester, ip) == Names(c, requester, ip)
      {
        NamesSame(b, c, files, domain, requester, ip);
      }
    } else {
      var rows := AllRows(files);
      var m, n :| Links(rows, requester, m) && Links(rows, requester, n) && Addressed(rows, m, ip) &&
                  Addressed(rows, n, ip) && RowListing(rows, ip)(m) != RowListing(rows, ip)(n);
      var b := NamesRealised(files, domain, requester, ip, m);
      var c := NamesRealised(files, domain, requester, ip, n);
    }
  }

  lemma NamesSame(
    b: DNSBackend, c: DNSBackend, files: seq<NetworkFile>, domain: string, requester: Ip, ip: Ip)
    requires BuiltFrom(b, files, domain) && BuiltFrom(c, files, domain) && DistinctNames(files)
    requires SameListings(AllRows(files), requester, ip)
    ensures Names(b, requester, ip) == Names(c, requester, ip)
  {
    var f :| SameFiles(files, f) && Built(b, f, domain);
    var g :| SameFiles(files, g) && Built(c, g, domain);
    var order := NamesBuilt(b, f, domain);
    var other := NamesBuilt(c, g, domain);
    NamesAgree(files, f, order, g, other, requester, ip);
  }

  // --------------------------------------------------------------- witness

  lemma {:induction false} OwnNamesFirst(
    b: DNSBackend, f: NetworkFile, g: NetworkFile, domain: string, d: Row, e: Row, ip: Ip)
    requires Built(b, [f, g], domain) && FileRows(f) == [d] && FileRows(g) == [e]
    requires d.id == e.id && d.net != e.net && d.ips == [ip] && e.ips == [ip]
    ensures Names(b, ip, ip) == Some(d.aliases)
  {
    TwoRows(f, g, d, e);
    var rows := [d, e];
    assert d in rows && ip in d.ips;
    assert HasId(rows, d.id) && Addressed(rows, d.net, ip);
    SoleContainer(b, [f, g], domain, ip, d.id);
    TwoRowsRead(d, e, ip);
    ScatterHead(Gather(rows, IdIps(d.id)), ip, MembershipOf(rows, d.id));
    assert ReverseAt(b.reverseMappings, rows, d.net, ip);
  }

  lemma TwoRowsRead(d: Row, e: Row, ip: Ip)
    requires d.id == e.id && d.net != e.net && d.ips == [ip] && e.ips == [ip]
    ensures ip in Gather([d, e], IdIps(d.id))
    ensures MembershipOf([d, e], d.id) != [] && MembershipOf([d, e], d.id)[0] == d.net
    ensures Gather([d, e], ReverseCell(d.net, ip)) == d.aliases
  {
    assert [d, e] == [d] + [e];
    GatherMember([d, e], IdIps(d.id), ip);
    assert d in [d, e] && ip in IdIps(d.id)(d);
    assert d in [d] && HasId([d], d.id);
    MembershipStarts([d], [e], d.id, d.net);
    TwoRowsListed(d, e, ip);
  }

  lemma TwoRowsListed(d: Row, e: Row, ip: Ip)
    requires d.net != e.net && d.ips == [ip]
    ensures Gather([d] + [e], ReverseCell(d.net, ip)) == d.aliases
  {
    GatherSnoc([d], e, ReverseCell(d.net, ip));
    OneListing(d, ip);
  }

  /** One container in two networks with one address: it is called `web` or
      `db`, depending on which file is read first. */
  lemma FirstFileNames(b: DNSBackend, c: DNSBackend, domain: string)
    requires var ip := [10, 0, 0, 2];
             var left, right := OneContainer("left", ip, "web", None), OneContainer("right", ip, "db", None);
             Built(b, [left, right], domain) && Built(c, [right, left], domain)
    ensures Names(b, V4([10, 0, 0, 2]), V4([10, 0, 0, 2])) == Some(["web"])
    ensures Names(c, V4([10, 0, 0, 2]), V4([10, 0, 0, 2])) == Some(["db"])
  {
    var ip := [10, 0, 0, 2];
    var left, right := OneContainer("left", ip, "web", None), OneContainer("right", ip, "db", None);
    OneContainerRows("left", ip, "web", None);
    OneContainerRows("right", ip, "db", None);
    var d, e := FileRows(left)[0], FileRows(right)[0];
    OwnNamesFirst(b, left, right, domain, d, e, V4(ip));
    OwnNamesFirst(c, right, left, domain, e, d, V4(ip));
  }
}
