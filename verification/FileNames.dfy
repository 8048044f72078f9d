/** What a directory listing means: which files are loaded, and what their names
    say of the networks they describe. */
module FileNames {
  import opened Wrappers
  import opened Text
  import opened Address
  import opened Collect
  import opened Config
  import opened ConfigText
  import opened ConfigLines
  import opened Rows
  import opened Backend
  import opened Builder
  import opened Entries
  import opened FileOrder
  import opened CoreDns
  import opened Answers
  import opened Isolation

  /** A file that could be read and parsed, other than the pid file. */
  predicate Readable(entry: DirEntry)
  {
    && entry.File? && entry.name.Some? && entry.name.value != "aardvark.pid"
    && entry.content.Some? && ParseText(entry.content.value).Ok?
  }

  function ConfigOf(entry: DirEntry): NetworkConfig
    requires Readable(entry)
  {
    ParseText(entry.content.value).value
  }

  /** The name ends in the suffix of internal networks. */
  ghost predicate NamedInternal(entry: DirEntry)
    requires Readable(entry)
  {
    exists n :: entry.name.value == n + "%int"
  }

  /** The configuration is that of the text; an internal network is called as the
      file without its suffix, and another as the file. */
  ghost predicate Describes(entry: DirEntry, f: NetworkFile)
    requires Readable(entry)
  {
    && f.config == ConfigOf(entry)
    && (f.internal <==> NamedInternal(entry))
    && entry.name.value == if f.internal then f.name + "%int" else f.name
  }

  lemma LoadExactly(entry: DirEntry)
    ensures Load(entry).Some? <==> Readable(entry)
    ensures Readable(entry) ==> Describes(entry, Load(entry).value)
  {
    if Readable(entry) {
      var name := entry.name.value;
      if n :| name == n + "%int" {
        StripSuffixConcat(n, "%int");
      }
    }
  }

  ghost function IsReadable(): DirEntry -> bool
  {
    (entry: DirEntry) => Readable(entry)
  }

  ghost function IsDescribed(): (DirEntry, NetworkFile) -> bool
  {
    (entry: DirEntry, f: NetworkFile) => Readable(entry) && Describes(entry, f)
  }

  /** Each readable file is loaded once, in the order of the listing, as what it
      describes, and nothing else is. */
  lemma {:induction false} LoadedInOrder(dir: seq<DirEntry>) returns (at: seq<nat>)
    ensures Selected(dir, LoadAll(dir), at, IsReadable(), IsDescribed())
  {
    if dir == [] {
      at := [];
    } else {
      var n := |dir| - 1;
      at := LoadedInOrder(dir[..n]);
      LoadExactly(dir[n]);
      LoadLast(dir);
      if IsReadable()(dir[n]) {
        SelectedGrows(dir, n, LoadAll(dir[..n]), at, Load(dir[n]).value, IsReadable(), IsDescribed());
        at := at + [n];
      } else {
        SelectedKept(dir, n, LoadAll(dir[..n]), at, IsReadable(), IsDescribed());
        assert LoadAll(dir) == LoadAll(dir[..n]);
      }
    }
  }

  lemma LoadLast(dir: seq<DirEntry>)
    requires dir != []
    ensures var n := |dir| - 1;
            LoadAll(dir) == LoadAll(dir[..n]) + (if Load(dir[n]).Some? then [Load(dir[n]).value] else [])
  {
  }

  /** A directory is refused as a whole when it cannot be read or listed or is
      none, and for a configuration that parses, under a name that is no text. */
  lemma RefusedExactly(dir: Directory)
    ensures dir.NoMetadata? ==> Refusal(dir) == Some(MetadataFailed)
    ensures dir.NoDirectory? ==> Refusal(dir) == Some(ConfigsError.NotADirectory)
    ensures dir.NoListing? ==> Refusal(dir) == Some(ListingFailed)
    ensures dir.Listing? ==>
              var nameless := exists i :: 0 <= i < |dir.entries| && dir.entries[i].File? && dir.entries[i].name.None? &&
                                dir.entries[i].content.Some? && ParseText(dir.entries[i].content.value).Ok?;
              Refusal(dir) == if nameless then Some(NameNotUtf8) else None
  {
    if dir.Listing? {
      if e :| e in dir.entries && Nameless(e) {
        var i :| 0 <= i < |dir.entries| && dir.entries[i] == e;
      }
      if i: int :| 0 <= i < |dir.entries| && dir.entries[i].File? && dir.entries[i].name.None? &&
                   dir.entries[i].content.Some? && ParseText(dir.entries[i].content.value).Ok? {
        assert Nameless(dir.entries[i]);
      }
    }
  }

  /** The entry is in the file at a place of the listing. */
  predicate InFile(dir: seq<DirEntry>, i: nat, e: CtrEntry)
  {
    i < |dir| && Readable(dir[i]) && e in ConfigOf(dir[i]).entries
  }

  lemma FileOfEntry(dir: seq<DirEntry>, i: nat, e: CtrEntry) returns (f: NetworkFile)
    requires InFile(dir, i, e)
    ensures In(LoadAll(dir), f, e) && Describes(dir[i], f)
  {
    LoadExactly(dir[i]);
    f := Load(dir[i]).value;
    assert f in Loaded(dir[i]);
    GatherMember(dir, Loaded, f);
  }

  lemma PlaceOfFile(dir: seq<DirEntry>, f: NetworkFile, e: CtrEntry) returns (i: nat)
    requires In(LoadAll(dir), f, e)
    ensures InFile(dir, i, e) && Describes(dir[i], f)
  {
    i := LoadedFrom(dir, f);
    LoadExactly(dir[i]);
  }

  // --------------------------------------------------- internal, by file name

  /** Some entry has the address. */
  ghost predicate Appears(dir: seq<DirEntry>, ip: Ip)
  {
    exists i: nat, e :: InFile(dir, i, e) && HasIp(e, ip)
  }

  /** Every container with the address has entries in files of internal networks
      only, as their names say. */
  ghost predicate InternalFilesOnly(dir: seq<DirEntry>, ip: Ip)
  {
    forall i: nat, d, j: nat, e | InFile(dir, i, d) && HasIp(d, ip) && InFile(dir, j, e) && e.id == d.id ::
      NamedInternal(dir[j])
  }

  lemma AppearsLoaded(dir: seq<DirEntry>, ip: Ip)
    ensures Appears(dir, ip) <==> SomeEntryHas(LoadAll(dir), ip)
  {
    if Appears(dir, ip) {
      var i: nat, e :| InFile(dir, i, e) && HasIp(e, ip);
      var f := FileOfEntry(dir, i, e);
    }
    if SomeEntryHas(LoadAll(dir), ip) {
      var f, e :| In(LoadAll(dir), f, e) && HasIp(e, ip);
      var i := PlaceOfFile(dir, f, e);
    }
  }

  lemma OnlyInternalByName(dir: seq<DirEntry>, ip: Ip)
    ensures OnlyInternal(AllRows(LoadAll(dir)), ip) <==> Appears(dir, ip) && InternalFilesOnly(dir, ip)
  {
    KnownByEntry(LoadAll(dir), ip);
    AppearsLoaded(dir, ip);
    if OnlyInternal(AllRows(LoadAll(dir)), ip) {
      NamedIfRows(dir, ip);
    }
    if Appears(dir, ip) && InternalFilesOnly(dir, ip) {
      RowsIfNamed(dir, ip);
    }
  }

  lemma NamedIfRows(dir: seq<DirEntry>, ip: Ip)
    requires OnlyInternal(AllRows(LoadAll(dir)), ip)
    ensures InternalFilesOnly(dir, ip)
  {
    forall i: nat, d, j: nat, e | InFile(dir, i, d) && HasIp(d, ip) && InFile(dir, j, e) && e.id == d.id
      ensures NamedInternal(dir[j])
    {
      NamedByRows(dir, ip, i, d, j, e);
    }
  }

  lemma RowsIfNamed(dir: seq<DirEntry>, ip: Ip)
    requires InternalFilesOnly(dir, ip) && Known(AllRows(LoadAll(dir)), ip)
    ensures OnlyInternal(AllRows(LoadAll(dir)), ip)
  {
    forall r1, r2 | r1 in AllRows(LoadAll(dir)) && ip in r1.ips && r2 in AllRows(LoadAll(dir)) && r2.id == r1.id
      ensures r2.internal
    {
      RowsByName(dir, ip, r1, r2);
    }
  }

  lemma NamedByRows(dir: seq<DirEntry>, ip: Ip, i: nat, d: CtrEntry, j: nat, e: CtrEntry)
    requires OnlyInternal(AllRows(LoadAll(dir)), ip)
    requires InFile(dir, i, d) && HasIp(d, ip) && InFile(dir, j, e) && e.id == d.id
    ensures NamedInternal(dir[j])
  {
    var f := FileOfEntry(dir, i, d);
    var g := FileOfEntry(dir, j, e);
    RowOfEntry(LoadAll(dir), f, d);
    RowOfEntry(LoadAll(dir), g, e);
    RowIps(f.name, f.internal, d);
    EntryIpsCount(d, ip);
    assert RowOf(g.name, g.internal, e).internal;
  }

  lemma RowsByName(dir: seq<DirEntry>, ip: Ip, r1: Row, r2: Row)
    requires InternalFilesOnly(dir, ip)
    requires r1 in AllRows(LoadAll(dir)) && ip in r1.ips && r2 in AllRows(LoadAll(dir)) && r2.id == r1.id
    ensures r2.internal
  {
    var f, d := EntryOfRow(LoadAll(dir), r1);
    var g, e := EntryOfRow(LoadAll(dir), r2);
    RowIps(f.name, f.internal, d);
    EntryIpsCount(d, ip);
    var i := PlaceOfFile(dir, f, d);
    var j := PlaceOfFile(dir, g, e);
  }

  /** In a directory without clashing names, a requester counts as internal
      exactly when some entry has its address and the files of its containers
      are all named as internal. */
  lemma InternalByName(b: DNSBackend, dir: seq<DirEntry>, domain: string, ip: Ip)
    requires Built(b, LoadAll(dir), domain) && NoClash(dir)
    ensures IsInternal(b, ip) <==> Appears(dir, ip) && InternalFilesOnly(dir, ip)
  {
    NoClashDistinct(dir);
    InternalMeans(b, LoadAll(dir), domain, ip);
    OnlyInternalByName(dir, ip);
  }

  /** Then it has no servers, and nothing it asks is forwarded. */
  lemma IsolationByName(
    b: DNSBackend, dir: seq<DirEntry>, domain: string, s: Listener, q: Query,
    answers: seq<Record>, hosts: seq<SocketAddr>)
    requires Built(b, LoadAll(dir), domain) && NoClash(dir)
    requires Appears(dir, q.source) && InternalFilesOnly(dir, q.source)
    ensures q.source !in b.ctrDnsServer && Resolvers(b, q.source) == Some([])
    ensures !Decide(b, s, q, answers, hosts).Forward?
  {
    NoClashDistinct(dir);
    InternalByName(b, dir, domain, q.source);
    InternalIsolation(b, LoadAll(dir), domain, s, q, answers, hosts);
  }

  // ---------------------------------------------------------------- witness

  /** One container, with one name and one address. */
  function OneEntry(bind: Octets, id: string, o: Octets, alias: string): NetworkConfig
  {
    NetworkConfig([V4(bind)], [CtrEntry(id, Some([o]), None, [alias], None)], [])
  }

  function WebConfig(): NetworkConfig
  {
    OneEntry([10, 89, 0, 1], "abc", [10, 89, 0, 2], "web")
  }

  lemma FourJoined(a: string, b: string, c: string, d: string, sep: string)
    ensures Join([a, b, c, d], sep) == a + sep + b + sep + c + sep + d
  {
    assert [a, b, c, d] == [a] + ([b] + ([c] + [d]));
    JoinCons(c, [d], sep);
    JoinCons(b, [c] + [d], sep);
    JoinCons(a, [b] + ([c] + [d]), sep);
    assert a + sep + (b + sep + (c + sep + d)) == a + sep + b + sep + c + sep + d;
  }

  lemma OneText<T>(x: T, render: T -> string)
    ensures Commas([x], render) == render(x)
  {
    assert Texts([x], render) == [render(x)];
  }

  lemma OneEntryText(id: string, o: Octets, alias: string)
    ensures PrintEntry(CtrEntry(id, Some([o]), None, [alias], None)) ==
            id + " " + RenderV4(o) + " " + "" + " " + alias
  {
    OneText(o, RenderV4);
    assert EntryColumns(CtrEntry(id, Some([o]), None, [alias], None)) == [id, RenderV4(o), "", alias];
    FourJoined(id, RenderV4(o), "", alias, " ");
  }

  lemma OneEntryPrinted(bind: Octets, id: string, o: Octets, alias: string)
    ensures Print(OneEntry(bind, id, o, alias)) ==
            RenderV4(bind) + "\n" + (id + " " + RenderV4(o) + " " + "" + " " + alias)
  {
    var config := OneEntry(bind, id, o, alias);
    OneText(V4(bind), RenderIp);
    OneEntryText(id, o, alias);
    assert HeaderColumns(config) == [RenderV4(bind)];
    assert Texts(config.entries, PrintEntry) == [PrintEntry(config.entries[0])];
    JoinCons(RenderV4(bind), [PrintEntry(config.entries[0])], "\n");
  }

  lemma QuadText(a: nat, o: Octets)
    requires o == [10, 89, 0, a] && 1 <= a <= 2
    ensures RenderV4(o) == "10" + "." + "89" + "." + "0" + "." + [HexDigit(a)]
  {
    var texts := OctetTexts(o);
    assert texts[0] == "10" && texts[1] == "89" && texts[2] == "0" && texts[3] == [HexDigit(a)];
    assert texts == ["10", "89", "0", [HexDigit(a)]];
    FourJoined("10", "89", "0", [HexDigit(a)], ".");
  }

  lemma Assembled(bind: string, ip: string)
    requires bind == "10" + "." + "89" + "." + "0" + "." + ['1'] && ip == "10" + "." + "89" + "." + "0" + "." + ['2']
    ensures bind + "\n" + ("abc" + " " + ip + " " + "" + " " + "web") + "\n" == "10.89.0.1\nabc 10.89.0.2  web\n"
  {
    assert bind == "10.89.0.1" && ip == "10.89.0.2";
    var line := "abc" + " " + ip + " " + "" + " " + "web";
    assert line == "abc 10.89.0.2  web";
  }

  lemma WebText(bind: Octets, o: Octets)
    requires bind == [10, 89, 0, 1] && o == [10, 89, 0, 2]
    ensures Print(OneEntry(bind, "abc", o, "web")) + "\n" == "10.89.0.1\nabc 10.89.0.2  web\n"
  {
    OneEntryPrinted(bind, "abc", o, "web");
    QuadText(1, bind);
    QuadText(2, o);
    Assembled(RenderV4(bind), RenderV4(o));
  }

  lemma WebWellFormed()
    ensures WellFormed(WebConfig())
  {
    assert IsLower("abc") && IsLower("web");
  }

  /** A file of one container, ending in a newline, is read as such. */
  lemma WebParsed(text: string)
    requires text == "10.89.0.1\nabc 10.89.0.2  web\n"
    ensures ParseText(text) == Ok(WebConfig())
  {
    WebText([10, 89, 0, 1], [10, 89, 0, 2]);
    var printed := Print(WebConfig());
    WebWellFormed();
    PrintParseNewline(WebConfig());
    assert text == printed + "\n";
  }

  /** The directory is one file, and that is its configuration. */
  predicate OneFile(dir: seq<DirEntry>, config: NetworkConfig)
  {
    |dir| == 1 && Readable(dir[0]) && ConfigOf(dir[0]) == config
  }

  lemma OneEntryRow(dir: seq<DirEntry>, bind: Octets, id: string, o: Octets, alias: string)
    requires OneFile(dir, OneEntry(bind, id, o, alias))
    ensures var f := Load(dir[0]).value;
            AllRows(LoadAll(dir)) == [Row(f.name, f.internal, id, [V4(o)], [alias], None)]
  {
    LoadExactly(dir[0]);
    GatherSnoc([], dir[0], Loaded);
    assert [] + [dir[0]] == dir;
    var f, e := Load(dir[0]).value, OneEntry(bind, id, o, alias).entries[0];
    assert LoadAll(dir) == [f];
    RowIps(f.name, f.internal, e);
    assert EntryIps(e) == [V4(o)];
    OneRow(f, RowOf(f.name, f.internal, e));
  }

  lemma NoSuchName(
    b: DNSBackend, dir: seq<DirEntry>, domain: string, bind: Octets, id: string, o: Octets, alias: string,
    networkName: string, query: string)
    requires OneFile(dir, OneEntry(bind, id, o, alias))
    requires Built(b, LoadAll(dir), domain) && Normalise(Terminated(domain), query) != alias
    ensures Addresses(b, V4(o), networkName, query) == []
  {
    OneEntryRow(dir, bind, id, o, alias);
    var row := AllRows(LoadAll(dir))[0];
    assert row in AllRows(LoadAll(dir)) && V4(o) in row.ips;
    forall x
      ensures x !in Addresses(b, V4(o), networkName, query)
    {
      Unnamed(b, LoadAll(dir), domain, V4(o), networkName, query, x);
    }
    Inhabited(Addresses(b, V4(o), networkName, query));
  }

  lemma Inhabited<T>(s: seq<T>)
    ensures s != [] ==> exists x :: x in s
  {
    if s != [] {
      assert s[0] in s;
    }
  }

  lemma OutsideDomain(d: string, query: string, alias: string)
    requires d == "dns" && query == "example.com." && alias == "web"
    ensures !EndsWith(query, Terminated(d)) && Normalise(Terminated(d), query) != alias
  {
    assert Terminated(d) == "dns.";
    SuffixChar(query, "dns.", 0);
    LowerLaws(query, "");
    assert |Normalise(Terminated(d), query)| >= 7;
  }

  lemma Unanswered(b: DNSBackend, s: Listener, q: Query, answers: seq<Record>, hosts: seq<SocketAddr>)
    requires q.rtype == A && Addresses(b, q.source, s.networkName, q.name) == []
    requires !s.noProxy && !EndsWith(q.name, b.searchDomain)
    ensures var o := Decide(b, s, q, answers, hosts); if IsInternal(b, q.source) then o == NxDomain else o.Forward?
  {
  }

  lemma OneContainerKind(
    b: DNSBackend, dir: seq<DirEntry>, domain: string, bind: Octets, id: string, o: Octets, alias: string)
    requires OneFile(dir, OneEntry(bind, id, o, alias))
    requires Built(b, LoadAll(dir), domain)
    ensures IsInternal(b, V4(o)) <==> NamedInternal(dir[0])
  {
    var e := OneEntry(bind, id, o, alias).entries[0];
    InternalByName(b, dir, domain, V4(o));
    assert InFile(dir, 0, e) && HasIp(e, V4(o));
  }

  lemma OneQuery(
    b: DNSBackend, dir: seq<DirEntry>, domain: string, bind: Octets, id: string, o: Octets, alias: string,
    s: Listener, name: string, answers: seq<Record>, hosts: seq<SocketAddr>)
    requires OneFile(dir, OneEntry(bind, id, o, alias)) && Built(b, LoadAll(dir), domain) && !s.noProxy
    requires !EndsWith(name, Terminated(domain)) && Normalise(Terminated(domain), name) != alias
    ensures var outcome := Decide(b, s, Query(V4(o), name, A), answers, hosts);
            if NamedInternal(dir[0]) then outcome == NxDomain else outcome.Forward?
  {
    NoSuchName(b, dir, domain, bind, id, o, alias, s.networkName, name);
    OneContainerKind(b, dir, domain, bind, id, o, alias);
    Unanswered(b, s, Query(V4(o), name, A), answers, hosts);
  }

  lemma NotSuffixed(fileName: string)
    requires fileName == "podman"
    ensures forall n :: fileName != n + "%int"
  {
    forall n: string
      ensures fileName != n + "%int"
    {
      if |n| == 2 {
        assert (n + "%int")[5] == 't';
      }
    }
  }

  lemma Suffixed(fileName: string)
    requires fileName == "podman%int"
    ensures exists n :: fileName == n + "%int"
  {
    assert "podman" + "%int" == fileName;
  }

  lemma WebFileRead(fileName: string, text: string, bind: Octets, id: string, o: Octets, alias: string)
    requires fileName != "aardvark.pid" && text == "10.89.0.1\nabc 10.89.0.2  web\n"
    requires bind == [10, 89, 0, 1] && id == "abc" && o == [10, 89, 0, 2] && alias == "web"
    ensures OneFile([File(Some(fileName), Some(text))], OneEntry(bind, id, o, alias))
  {
    WebParsed(text);
  }

  /** In file `podman`, a container's query for `example.com.` is forwarded; */
  lemma OpenNetworkForwards(
    b: DNSBackend, fileName: string, text: string, domain: string, o: Octets, query: string, s: Listener,
    answers: seq<Record>, hosts: seq<SocketAddr>)
    requires fileName == "podman" && text == "10.89.0.1\nabc 10.89.0.2  web\n"
    requires domain == "dns" && o == [10, 89, 0, 2] && query == "example.com."
    requires Built(b, LoadAll([File(Some(fileName), Some(text))]), domain) && !s.noProxy
    ensures Decide(b, s, Query(V4(o), query, A), answers, hosts).Forward?
  {
    var bind: Octets, id, alias := [10, 89, 0, 1], "abc", "web";
    WebFileRead(fileName, text, bind, id, o, alias);
    NotSuffixed(fileName);
    OutsideDomain(domain, query, alias);
    OneQuery(b, [File(Some(fileName), Some(text))], domain, bind, id, o, alias, s, query, answers, hosts);
  }

  /** in file `podman%int`, it is refused. */
  lemma InternalNetworkRefuses(
    b: DNSBackend, fileName: string, text: string, domain: string, o: Octets, query: string, s: Listener,
    answers: seq<Record>, hosts: seq<SocketAddr>)
    requires fileName == "podman%int" && text == "10.89.0.1\nabc 10.89.0.2  web\n"
    requires domain == "dns" && o == [10, 89, 0, 2] && query == "example.com."
    requires Built(b, LoadAll([File(Some(fileName), Some(text))]), domain) && !s.noProxy
    ensures Decide(b, s, Query(V4(o), query, A), answers, hosts) == NxDomain
  {
    var bind: Octets, id, alias := [10, 89, 0, 1], "abc", "web";
    WebFileRead(fileName, text, bind, id, o, alias);
    Suffixed(fileName);
    OutsideDomain(domain, query, alias);
    OneQuery(b, [File(Some(fileName), Some(text))], domain, bind, id, o, alias, s, query, answers, hosts);
  }
}
