/** One process over its life: reading the configuration, replacing the backend
    and the host's server list, and reconciling the servers, on every reload. */
module Daemon {
  import opened Wrappers
  import opened Address
  import opened Collect
  import opened ConfigText
  import opened Maps
  import opened Rows
  import opened Index
  import opened Backend
  import opened Builder
  import opened Answers
  import opened ResolvConf
  import opened Threads
  import opened Serve

  datatype Reload =
    | ParseFailed(error: ConfigsError)
    | Exited(code: nat)
    | Running(resolversRead: bool, errors4: seq<BindError>, errors6: seq<BindError>)

  /** What a reload finds: the directory, the resolver file unless it cannot be
      read, and whether the pid file can be removed. */
  datatype Surroundings = Surroundings(dir: Directory, resolvConf: Option<string>, pidRemovable: bool)

  datatype Event = Hangup(found: Surroundings) | ResolvConfChanged(content: Option<string>)

  /** Some file gives the network the address to listen on. */
  ghost predicate Binds(files: seq<NetworkFile>, n: string, ip: Ip)
  {
    exists f :: f in files && f.name == n && ip in f.config.bindIps
  }

  /** The servers that the files ask for. */
  ghost function Configured(files: seq<NetworkFile>): (r: set<Key>)
    ensures forall k: Key :: k in r <==> Binds(files, k.0, k.1)
  {
    set f, ip | f in files && ip in f.config.bindIps :: (f.name, ip)
  }

  function InFamily(keys: set<Key>, v4: bool): set<Key>
  {
    set k | k in keys && k.1.V4? == v4
  }

  function AsV4(m: map<string, seq<Octets>>): map<string, seq<Ip>>
  {
    map n | n in m :: seq(|m[n]|, i requires 0 <= i < |m[n]| => V4(m[n][i]))
  }

  function AsV6(m: map<string, seq<Groups>>): map<string, seq<Ip>>
  {
    map n | n in m :: seq(|m[n]|, i requires 0 <= i < |m[n]| => V6(m[n][i]))
  }

  lemma ListenMember<V>(m: map<string, seq<V>>, files: seq<NetworkFile>, only: Ip -> seq<V>, n: string, v: V)
    requires RepListen(m, files, only)
    ensures v in Get(m, n) <==> exists ip :: Binds(files, n, ip) && v in only(ip)
  {
    assert ListenAt(m, files, n, only);
    GatherMember(files, ListenCell(n, only), v);
    forall f | f in files
      ensures v in ListenCell(n, only)(f) <==> f.name == n && exists ip :: ip in f.config.bindIps && v in only(ip)
    {
      GatherMember(f.config.bindIps, only, v);
    }
  }

  lemma Listening4(c: Configs, files: seq<NetworkFile>, n: string, o: Octets)
    requires RepListen(c.listen4, files, OnlyV4)
    ensures (n, V4(o)) in Expected(AsV4(c.listen4)) <==> (n, V4(o)) in Configured(files)
  {
    ListenMember(c.listen4, files, OnlyV4, n, o);
    assert o in OnlyV4(V4(o));
    assert o in Get(c.listen4, n) <==> Binds(files, n, V4(o));
    var asIps := AsV4(c.listen4);
    if n in asIps {
      assert V4(o) in asIps[n] <==> o in c.listen4[n] by {
        if o in c.listen4[n] {
          var i :| 0 <= i < |c.listen4[n]| && c.listen4[n][i] == o;
          assert asIps[n][i] == V4(o);
        }
      }
    }
  }

  lemma Listening6(c: Configs, files: seq<NetworkFile>, n: string, g: Groups)
    requires RepListen(c.listen6, files, OnlyV6)
    ensures (n, V6(g)) in Expected(AsV6(c.listen6)) <==> (n, V6(g)) in Configured(files)
  {
    ListenMember(c.listen6, files, OnlyV6, n, g);
    assert g in OnlyV6(V6(g));
    assert g in Get(c.listen6, n) <==> Binds(files, n, V6(g));
    var asIps := AsV6(c.listen6);
    if n in asIps {
      assert V6(g) in asIps[n] <==> g in c.listen6[n] by {
        if g in c.listen6[n] {
          var i :| 0 <= i < |c.listen6[n]| && c.listen6[n][i] == g;
          assert asIps[n][i] == V6(g);
        }
      }
    }
  }

  /** The two families together are exactly the servers that the files ask for. */
  lemma ExpectedIsConfigured(c: Configs, files: seq<NetworkFile>)
    requires RepListen(c.listen4, files, OnlyV4) && RepListen(c.listen6, files, OnlyV6)
    ensures Expected(AsV4(c.listen4)) == InFamily(Configured(files), true)
    ensures Expected(AsV6(c.listen6)) == InFamily(Configured(files), false)
  {
    forall k: Key
      ensures k.1.V4? ==> (k in Expected(AsV4(c.listen4)) <==> k in Configured(files))
      ensures !k.1.V4? ==> (k in Expected(AsV6(c.listen6)) <==> k in Configured(files))
    {
      match k.1
      case V4(o) => Listening4(c, files, k.0, o);
      case V6(g) => Listening6(c, files, k.0, g);
    }
  }

  /** No address to listen on means that no file was loaded. */
  lemma NothingToListen(c: Configs, files: seq<NetworkFile>)
    requires RepListen(c.listen4, files, OnlyV4) && RepListen(c.listen6, files, OnlyV6)
    requires ParsedFiles(files)
    ensures c.listen4 == map[] && c.listen6 == map[] <==> files == []
  {
    if files == [] {
      forall n
        ensures n !in c.listen4 && n !in c.listen6
      {
        assert ListenAt(c.listen4, files, n, OnlyV4) && ListenAt(c.listen6, files, n, OnlyV6);
      }
    } else {
      var f := files[0];
      assert WellFormed(f.config);
      var ip := f.config.bindIps[0];
      assert Binds(files, f.name, ip);
      match ip
      case V4(o) =>
        assert o in OnlyV4(ip);
        ListenMember(c.listen4, files, OnlyV4, f.name, o);
      case V6(g) =>
        assert g in OnlyV6(ip);
        ListenMember(c.listen6, files, OnlyV6, f.name, g);
    }
  }

  // ------------------------------------------------------------------ reload

  function AllErrors(r: Reload): seq<BindError>
    requires r.Running?
  {
    r.errors4 + r.errors6
  }

  /** What a reload that keeps running guarantees for the servers, from handles
      `h0` to `h`, when the files ask for `expected`: conservation, no error
      exactly when each has a handle, and no restart of a server that is kept. */
  ghost predicate Reconciles(h0: map<Key, nat>, h: map<Key, nat>, expected: set<Key>, r: Reload)
    requires r.Running?
  {
    && h.Keys <= expected
    && |expected| == |h| + |AllErrors(r)|
    && (AllErrors(r) == [] <==> h.Keys == expected)
    && (forall k | k in h0 && k in expected :: k in h && h[k] == h0[k])
    && (h0.Keys == expected ==> h == h0)
  }

  /** Both phases together. */
  lemma TwoPhases(
    h0: map<Key, nat>, h1: map<Key, nat>, h: map<Key, nat>, s0: nat, s1: nat, expected: set<Key>,
    errors4: seq<BindError>, errors6: seq<BindError>)
    requires Reconciled(h0, s0, h1, true, InFamily(expected, true), errors4)
    requires Reconciled(h1, s1, h, false, InFamily(expected, false), errors6)
    ensures forall read :: Reconciles(h0, h, expected, Running(read, errors4, errors6))
  {
    var e4, e6 := InFamily(expected, true), InFamily(expected, false);
    Conservation(h0, s0, h1, true, e4, errors4);
    Conservation(h1, s1, h, false, e6, errors6);
    FamilySizes(h, expected);
    BothEmpty(errors4, errors6);
    AllKept(h, expected, e4, e6);
    KeptThrough(h0, h1, h, s0, s1, expected, errors4, errors6);
  }

  lemma FamilySizes(h: map<Key, nat>, expected: set<Key>)
    ensures |h| == |FamilyKeys(h, true)| + |FamilyKeys(h, false)|
    ensures |expected| == |InFamily(expected, true)| + |InFamily(expected, false)|
  {
    assert h.Keys == FamilyKeys(h, true) + FamilyKeys(h, false);
    assert |h| == |h.Keys|;
    assert expected == InFamily(expected, true) + InFamily(expected, false);
  }

  lemma BothEmpty<T>(a: seq<T>, b: seq<T>)
    ensures a + b == [] <==> a == [] && b == []
  {
    assert |a + b| == |a| + |b|;
  }

  lemma AllKept(h: map<Key, nat>, expected: set<Key>, e4: set<Key>, e6: set<Key>)
    requires e4 == InFamily(expected, true)
    requires e6 == InFamily(expected, false)
    ensures h.Keys == expected <==> FamilyKeys(h, true) == e4 && FamilyKeys(h, false) == e6
  {
    assert h.Keys == FamilyKeys(h, true) + FamilyKeys(h, false);
    assert expected == e4 + e6;
    if h.Keys == expected {
      assert FamilyKeys(h, true) == e4;
      assert FamilyKeys(h, false) == e6;
    }
  }

  lemma KeptThrough(
    h0: map<Key, nat>, h1: map<Key, nat>, h: map<Key, nat>, s0: nat, s1: nat, expected: set<Key>,
    errors4: seq<BindError>, errors6: seq<BindError>)
    requires Reconciled(h0, s0, h1, true, InFamily(expected, true), errors4)
    requires Reconciled(h1, s1, h, false, InFamily(expected, false), errors6)
    ensures h.Keys <= expected
    ensures forall k | k in h0 && k in expected :: k in h && h[k] == h0[k]
    ensures h0.Keys == expected ==> h == h0
  {
    forall k | k in h
      ensures k in expected
    {
      if k.1.V4? {
        assert k in FamilyKeys(h, true);
      } else {
        assert k in FamilyKeys(h, false);
      }
    }
    forall k | k in h0 && k in expected
      ensures k in h && h[k] == h0[k]
    {
      assert k in h1 && h1[k] == h0[k];
    }
  }

  /** A server that is kept although its task has ended stays without sockets. */
  ghost predicate DeadKept(w: World, v: World, expected: set<Key>)
  {
    forall k | k in w.handles && k in expected && HoldsNothing(w, w.handles[k]) ::
      k in v.handles && HoldsNothing(v, v.handles[k])
  }

  lemma KeptIsDead(run: seq<World>, m: nat, n: nat, expected: set<Key>)
    requires IsRun(run) && m <= n < |run|
    requires forall k | k in run[m].handles && k in expected ::
               k in run[n].handles && run[n].handles[k] == run[m].handles[k]
    ensures DeadKept(run[m], run[n], expected)
  {
    RunInv(run, m);
    forall k | k in run[m].handles && k in expected && HoldsNothing(run[m], run[m].handles[k])
      ensures k in run[n].handles && HoldsNothing(run[n], run[n].handles[k])
    {
      DeadStays(run, m, n, run[m].handles[k]);
    }
  }

  // ----------------------------------------------- what the process has read

  /** The host's servers in the resolver file, if it can be read and parsed. */
  function HostList(content: Option<string>, index: string -> Option<nat>): Option<seq<SocketAddr>>
  {
    if content.None? then None
    else
      match Nameservers(content.value, index)
      case Ok(list) => Some(list)
      case Err(_) => None
  }

  /** The directory that was last read and the host's servers in use. */
  datatype Seen = Seen(dir: seq<DirEntry>, hosts: seq<SocketAddr>)

  /** Nothing is left to serve, on which the process exits. */
  predicate Finished(seen: Seen)
  {
    LoadAll(seen.dir) == []
  }

  function SeenBy(seen: Seen, event: Event, index: string -> Option<nat>): Seen
  {
    match event
    case Hangup(found) =>
      if Refusal(found.dir).Some? then seen
      else if LoadAll(found.dir.entries) == [] then seen.(dir := found.dir.entries)
      else
        var hosts := HostList(found.resolvConf, index);
        Seen(found.dir.entries, if hosts.Some? then hosts.value else [])
    case ResolvConfChanged(content) =>
      var hosts := HostList(content, index);
      if hosts.Some? then seen.(hosts := hosts.value) else seen
  }

  /** What the process has read after some events, which end with its exit. */
  function SeenAfter(seen: Seen, events: seq<Event>, index: string -> Option<nat>): Seen
  {
    if events == [] then seen
    else
      var before := SeenAfter(seen, events[..|events| - 1], index);
      if Finished(before) then before else SeenBy(before, events[|events| - 1], index)
  }

  /** A change of the resolver file: a list that can be read replaces the one in
      use, and one that cannot leaves it. */
  lemma ResolverFileChanged(seen: Seen, content: Option<string>, index: string -> Option<nat>)
    ensures var after := SeenBy(seen, ResolvConfChanged(content), index);
            if content.Some? && Nameservers(content.value, index).Ok?
            then after == Seen(seen.dir, Nameservers(content.value, index).value)
            else after == seen
  {
  }

  /** A reload: a directory that is refused changes nothing; otherwise it is the
      one seen, and, unless it holds nothing to serve, the host's servers are
      read again, none if they cannot be. */
  lemma DirectoryReloaded(seen: Seen, found: Surroundings, index: string -> Option<nat>)
    ensures var after := SeenBy(seen, Hangup(found), index);
            && (Refusal(found.dir).Some? ==> after == seen)
            && (Refusal(found.dir).None? ==> after.dir == found.dir.entries)
            && (Refusal(found.dir).None? && LoadAll(found.dir.entries) == [] ==> after.hosts == seen.hosts)
            && (Refusal(found.dir).None? && LoadAll(found.dir.entries) != [] ==>
                after.hosts == match found.resolvConf
                               case Some(text) =>
                                 (match Nameservers(text, index) case Ok(list) => list case Err(_) => [])
                               case None => [])
  {
  }

  lemma {:induction false} FinishedStays(seen: Seen, events: seq<Event>, n: nat, index: string -> Option<nat>)
    requires n <= |events| && Finished(SeenAfter(seen, events[..n], index))
    ensures SeenAfter(seen, events, index) == SeenAfter(seen, events[..n], index)
  {
    if n == |events| {
      assert events[..n] == events;
    } else {
      var init := events[..|events| - 1];
      assert init[..n] == events[..n];
      FinishedStays(seen, init, n, index);
    }
  }

  class Process {
    var backend: Option<DNSBackend>
    var nameservers: seq<SocketAddr>
    const servers: Server
    const index: string -> Option<nat>

    ghost predicate Valid()
      reads this, servers
    {
      servers.Valid() && servers.Idle()
    }

    constructor (servers: Server, index: string -> Option<nat>)
      requires servers.Valid() && servers.Idle()
      ensures Valid() && this.servers == servers && this.index == index && backend.None?
    {
      this.servers, this.index := servers, index;
      backend, nameservers := None, [];
    }

    method ReadResolvers(content: Option<string>) returns (list: Option<seq<SocketAddr>>)
      ensures list == HostList(content, index)
    {
      if content.None? {
        return None;
      }
      var parsed := ParseResolvConf(content.value, index);
      if parsed.Err? {
        return None;
      }
      return Some(parsed.value);
    }

    /** Nothing is configured: stop all servers, unless the pid file cannot be
        removed. */
    method Exit(pidRemovable: bool, quiet: bool) returns (code: nat)
      requires Valid()
      modifies servers
      ensures Valid() && old(servers.run) <= servers.run
      ensures code == if pidRemovable then 0 else 1
      ensures code == 0 ==> servers.handles == map[]
      ensures code == 1 ==> servers.Now() == old(servers.Now())
    {
      if !pidRemovable {
        return 1;
      }
      servers.StopThreads(None, quiet);
      return 0;
    }

    /** A failed parse changes nothing. Otherwise the backend is replaced first.
        The process exits exactly when no file was loaded; else both families
        are reconciled, and, while no other process is in the way of a server
        and each address belongs to one network, without error. A server that
        is kept although its task has ended is not started again. */
    method ReadConfigAndSpawn(found: Surroundings, domain: string, quiet: bool) returns (r: Reload)
      requires Valid()
      modifies this, servers
      ensures Valid() && old(servers.run) <= servers.run
      ensures Refusal(found.dir) == if r.ParseFailed? then Some(r.error) else None
      ensures r.ParseFailed? ==>
                backend == old(backend) && nameservers == old(nameservers) && servers.Now() == old(servers.Now())
      ensures !r.ParseFailed? ==> backend.Some? && Built(backend.value, LoadAll(found.dir.entries), domain)
      ensures r.Exited? <==> Refusal(found.dir).None? && LoadAll(found.dir.entries) == []
      ensures r.Exited? ==> nameservers == old(nameservers)
      ensures r.Exited? ==> r.code == if found.pidRemovable then 0 else 1
      ensures r == Exited(0) ==> servers.handles == map[]
      ensures r == Exited(1) ==> servers.Now() == old(servers.Now())
      ensures r.Running? ==> Respawned(old(servers.Now()), servers.Now(), found, r)
      ensures r.Running? && quiet && old(servers.Clear(Configured(LoadAll(found.dir.entries)))) &&
              OneNetworkEach(Configured(LoadAll(found.dir.entries))) ==>
                servers.handles.Keys == Configured(LoadAll(found.dir.entries)) && AllErrors(r) == []
    {
      var configs := ParseConfigs(found.dir, domain);
      if configs.Err? {
        return ParseFailed(configs.error);
      }
      var c := configs.value;
      backend := Some(c.backend);
      LoadedAreParsed(found.dir.entries);
      NothingToListen(c, LoadAll(found.dir.entries));
      if c.listen4 == map[] && c.listen6 == map[] {
        var code := Exit(found.pidRemovable, quiet);
        return Exited(code);
      }
      r := Respawn(c, found, quiet);
    }

    /** The servers are reconciled with the files and the host's list is that of
        the resolver file, or empty. */
    ghost predicate Respawned(before: World, after: World, found: Surroundings, r: Reload)
      requires r.Running? && found.dir.Listing?
      reads this
    {
      var expected := Configured(LoadAll(found.dir.entries));
      && Reconciles(before.handles, after.handles, expected, r)
      && DeadKept(before, after, expected)
      && (r.resolversRead <==> HostList(found.resolvConf, index).Some?)
      && nameservers == if r.resolversRead then HostList(found.resolvConf, index).value else []
    }

    method Respawn(c: Configs, found: Surroundings, quiet: bool) returns (r: Reload)
      requires Valid() && found.dir.Listing?
      requires RepListen(c.listen4, LoadAll(found.dir.entries), OnlyV4)
      requires RepListen(c.listen6, LoadAll(found.dir.entries), OnlyV6)
      modifies `nameservers, servers
      ensures Valid() && old(servers.run) <= servers.run
      ensures r.Running? && Respawned(old(servers.Now()), servers.Now(), found, r)
      ensures quiet && old(servers.Clear(Configured(LoadAll(found.dir.entries)))) &&
              OneNetworkEach(Configured(LoadAll(found.dir.entries))) ==>
                servers.handles.Keys == Configured(LoadAll(found.dir.entries)) && AllErrors(r) == []
    {
      var files := LoadAll(found.dir.entries);
      var hosts := ReadResolvers(found.resolvConf);
      nameservers := if hosts.Some? then hosts.value else [];
      ExpectedIsConfigured(c, files);
      var errors4, errors6 := Reconcile(AsV4(c.listen4), AsV6(c.listen6), Configured(files), quiet);
      r := Running(hosts.Some?, errors4, errors6);
    }

    method Reconcile(listen4: map<string, seq<Ip>>, listen6: map<string, seq<Ip>>,
                     ghost expected: set<Key>, quiet: bool)
      returns (errors4: seq<BindError>, errors6: seq<BindError>)
      requires Valid()
      requires Expected(listen4) == InFamily(expected, true)
      requires Expected(listen6) == InFamily(expected, false)
      modifies servers
      ensures Valid() && old(servers.run) <= servers.run
      ensures forall read ::
                Reconciles(old(servers.handles), servers.handles, expected, Running(read, errors4, errors6))
      ensures DeadKept(old(servers.Now()), servers.Now(), expected)
      ensures quiet && old(servers.Clear(expected)) && OneNetworkEach(expected) ==> errors4 == [] && errors6 == []
    {
      ghost var m := |servers.run| - 1;
      errors4, errors6 := StartBoth(listen4, listen6, expected, quiet);
      assert servers.run[m] == old(servers.Now());
      assert Reconciles(old(servers.handles), servers.handles, expected, Running(true, errors4, errors6));
      KeptIsDead(servers.run, m, |servers.run| - 1, expected);
    }

    method StartBoth(listen4: map<string, seq<Ip>>, listen6: map<string, seq<Ip>>,
                     ghost expected: set<Key>, quiet: bool)
      returns (errors4: seq<BindError>, errors6: seq<BindError>)
      requires Valid()
      requires Expected(listen4) == InFamily(expected, true)
      requires Expected(listen6) == InFamily(expected, false)
      modifies servers
      ensures Valid() && old(servers.run) <= servers.run
      ensures forall read ::
                Reconciles(old(servers.handles), servers.handles, expected, Running(read, errors4, errors6))
      ensures quiet && old(servers.Clear(expected)) && OneNetworkEach(expected) ==> errors4 == [] && errors6 == []
    {
      FamilyOf(listen4, expected, true);
      FamilyOf(listen6, expected, false);
      ghost var s0 := servers.spawned;
      errors4 := servers.StopAndStartThreads(true, listen4, quiet);
      ghost var h1, s1 := servers.handles, servers.spawned;
      errors6 := servers.StopAndStartThreads(false, listen6, quiet);
      TwoPhases(old(servers.handles), h1, servers.handles, s0, s1, expected, errors4, errors6);
    }

    // ---------------------------------------------------------- the event loop

    /** The backend is that of the directory last read, the host's servers are
        the last ones read, and, until the process exits, only servers that the
        directory asks for have a handle. */
    ghost predicate Follows(seen: Seen, domain: string)
      reads this, servers
    {
      && backend.Some? && Built(backend.value, LoadAll(seen.dir), domain)
      && nameservers == seen.hosts
      && (!Finished(seen) ==> servers.handles.Keys <= Configured(LoadAll(seen.dir)))
    }

    method HandleEvent(event: Event, domain: string, ghost seen: Seen) returns (exited: bool)
      requires Valid() && Follows(seen, domain) && !Finished(seen)
      modifies this, servers
      ensures Valid() && old(servers.run) <= servers.run
      ensures Follows(SeenBy(seen, event, index), domain)
      ensures exited <==> Finished(SeenBy(seen, event, index))
    {
      servers.Interfere(false);
      match event
      case Hangup(found) =>
        var r := ReadConfigAndSpawn(found, domain, false);
        exited := r.Exited?;
      case ResolvConfChanged(content) =>
        var hosts := ReadResolvers(content);
        if hosts.Some? {
          nameservers := hosts.value;
        }
        exited := false;
    }

    /** The directory and the resolver file can be read, some file is loaded, and
        each address asked for belongs to one network and is held by no other
        process. */
    ghost predicate NothingInTheWay(found: Surroundings)
      reads servers
    {
      && Refusal(found.dir).None? && LoadAll(found.dir.entries) != []
      && HostList(found.resolvConf, index).Some?
      && servers.Clear(Configured(LoadAll(found.dir.entries)))
      && OneNetworkEach(Configured(LoadAll(found.dir.entries)))
    }

    /** The first reload, without which nothing is served: it succeeds when it is
        `quiet` and nothing is in its way. */
    method Start(first: Surroundings, domain: string, quiet: bool) returns (started: bool, exited: bool)
      requires Valid()
      modifies this, servers
      ensures Valid() && old(servers.run) <= servers.run
      ensures started ==> Refusal(first.dir).None? && HostList(first.resolvConf, index).Some?
      ensures started ==>
                var start := Seen(first.dir.entries, HostList(first.resolvConf, index).value);
                !exited && !Finished(start) && Follows(start, domain)
      ensures !started ==> (exited <==> Refusal(first.dir).None? && LoadAll(first.dir.entries) == [])
      ensures quiet && old(NothingInTheWay(first)) ==> started
    {
      var r := ReadConfigAndSpawn(first, domain, quiet);
      started := r.Running? && r.resolversRead && AllErrors(r) == [];
      exited := r.Exited?;
    }

    /** The event loop, over any events, with anything happening in between: it
        starts only if the first reload succeeds, and goes on, whatever later
        reloads meet, until nothing is left to serve. All along it extends one
        run of the state machine and follows what it has read. */
    method Serve(first: Surroundings, events: seq<Event>, domain: string, quiet: bool)
      returns (started: bool, exited: bool)
      requires Valid()
      modifies this, servers
      ensures Valid() && old(servers.run) <= servers.run
      ensures started ==> Refusal(first.dir).None? && HostList(first.resolvConf, index).Some?
      ensures started ==>
                var start := Seen(first.dir.entries, HostList(first.resolvConf, index).value);
                && !Finished(start)
                && Follows(SeenAfter(start, events, index), domain)
                && (exited <==> Finished(SeenAfter(start, events, index)))
      ensures !started ==> (exited <==> Refusal(first.dir).None? && LoadAll(first.dir.entries) == [])
      ensures quiet && old(NothingInTheWay(first)) ==> started
    {
      started, exited := Start(first, domain, quiet);
      if !started {
        return;
      }
      ghost var start := Seen(first.dir.entries, HostList(first.resolvConf, index).value);
      var i := 0;
      while i < |events| && !exited
        invariant 0 <= i <= |events|
        invariant Valid() && old(servers.run) <= servers.run
        invariant Follows(SeenAfter(start, events[..i], index), domain)
        invariant exited <==> Finished(SeenAfter(start, events[..i], index))
      {
        assert events[..i + 1][..i] == events[..i];
        exited := HandleEvent(events[i], domain, SeenAfter(start, events[..i], index));
        i := i + 1;
      }
      if exited {
        FinishedStays(start, events, i, index);
      } else {
        assert events[..i] == events;
      }
    }
  }

  lemma FamilyOf(listenIps: map<string, seq<Ip>>, expected: set<Key>, v4: bool)
    requires Expected(listenIps) == InFamily(expected, v4)
    ensures OfFamily(listenIps, v4)
    ensures OneNetworkEach(expected) ==> OneNetworkEach(Expected(listenIps))
  {
    forall n, ip | n in listenIps && ip in listenIps[n]
      ensures ip.V4? == v4
    {
      assert (n, ip) in Expected(listenIps);
    }
  }
}
