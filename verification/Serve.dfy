/** The server process: keeping the running servers in step with the
    configuration, across reloads. */
module Serve {
  import opened Wrappers
  import opened Address
  import opened Threads

  datatype BindError = UdpBind(key: Key) | TcpBind(key: Key)

  /** The servers that a list of addresses for each network asks for. */
  function Expected(listenIps: map<string, seq<Ip>>): (r: set<Key>)
    ensures forall k: Key :: k in r <==> k.0 in listenIps && k.1 in listenIps[k.0]
  {
    set n, ip | n in listenIps && ip in listenIps[n] :: (n, ip)
  }

  /** The keys of one address family: the two handle maps of the program, one
      for each family, are the two parts of `handles`. */
  function FamilyKeys(handles: map<Key, nat>, v4: bool): (r: set<Key>)
    ensures forall k :: k in r <==> k in handles && k.1.V4? == v4
  {
    set k | k in handles && k.1.V4? == v4
  }

  ghost predicate OfFamily(listenIps: map<string, seq<Ip>>, v4: bool)
  {
    forall n, ip | n in listenIps && ip in listenIps[n] :: ip.V4? == v4
  }

  function ErrorKeys(errors: seq<BindError>): set<Key>
  {
    if errors == [] then {} else ErrorKeys(errors[..|errors| - 1]) + {errors[|errors| - 1].key}
  }

  lemma ErrorKeysSnoc(errors: seq<BindError>, error: BindError)
    ensures ErrorKeys(errors + [error]) == ErrorKeys(errors) + {error.key}
  {
    assert (errors + [error])[..|errors|] == errors;
  }

  function ListSet<T(!new)>(list: seq<T>): (r: set<T>)
    ensures forall x :: x in r <==> x in list
  {
    set x | x in list
  }

  lemma ListSetSnoc<T(!new)>(list: seq<T>, x: T)
    ensures ListSet(list + [x]) == ListSet(list) + {x}
  {
  }

  lemma ListSetNext<T(!new)>(list: seq<T>, i: nat)
    requires i < |list|
    requires forall m, n | 0 <= m < n < |list| :: list[m] != list[n]
    ensures ListSet(list[..i + 1]) == ListSet(list[..i]) + {list[i]} && list[i] !in list[..i]
    ensures ListSet(list[i..]) - {list[i]} == ListSet(list[i + 1..]) && list[i] in list[i..]
  {
    assert list[..i + 1] == list[..i] + [list[i]];
    assert list[i..] == [list[i]] + list[i + 1..];
  }

  /** From `h0`, with `s0` tasks spawned: of the servers to start, those not in
      `todo` have been tried, and have either a handle with a new task or an
      error. */
  ghost predicate Tried(
    h0: map<Key, nat>, s0: nat, h: map<Key, nat>, toStart: set<Key>, todo: set<Key>, errors: seq<BindError>)
  {
    && toStart !! h0.Keys
    && todo <= toStart
    && ErrorKeys(errors) <= toStart - todo
    && |errors| == |ErrorKeys(errors)|
    && h.Keys == h0.Keys + (toStart - todo - ErrorKeys(errors))
    && (forall k | k in h0 :: h[k] == h0[k])
    && (forall k | k in h && k !in h0 :: h[k] >= s0)
  }

  lemma TriedInVain(
    h0: map<Key, nat>, s0: nat, h: map<Key, nat>, toStart: set<Key>, todo: set<Key>, errors: seq<BindError>,
    error: BindError)
    requires Tried(h0, s0, h, toStart, todo, errors) && error.key in todo
    ensures Tried(h0, s0, h, toStart, todo - {error.key}, errors + [error])
  {
    ErrorKeysSnoc(errors, error);
    assert error.key !in ErrorKeys(errors);
  }

  lemma TriedWell(
    h0: map<Key, nat>, s0: nat, h: map<Key, nat>, toStart: set<Key>, todo: set<Key>, errors: seq<BindError>,
    key: Key, task: nat)
    requires Tried(h0, s0, h, toStart, todo, errors) && key in todo && task >= s0
    ensures Tried(h0, s0, h[key := task], toStart, todo - {key}, errors)
  {
    assert toStart - (todo - {key}) - ErrorKeys(errors) == (toStart - todo - ErrorKeys(errors)) + {key};
  }

  /** What one phase, for one address family, guarantees: only expected servers
      have a handle, each expected server has one or an error, the other family
      is left alone, a server that is kept keeps its task, and others are new. */
  ghost predicate Reconciled(
    h0: map<Key, nat>, s0: nat, h: map<Key, nat>, v4: bool, expected: set<Key>, errors: seq<BindError>)
  {
    && FamilyKeys(h, v4) == expected - ErrorKeys(errors)
    && ErrorKeys(errors) <= expected
    && |errors| == |ErrorKeys(errors)|
    && FamilyKeys(h, !v4) == FamilyKeys(h0, !v4)
    && (forall k | k in h0 && (k in expected || k.1.V4? != v4) :: k in h && h[k] == h0[k])
    && (forall k | k in h && k !in h0 :: h[k] >= s0)
  }

  lemma Phase(
    h0: map<Key, nat>, s0: nat, h1: map<Key, nat>, h: map<Key, nat>, v4: bool, expected: set<Key>,
    errors: seq<BindError>)
    requires forall k | k in expected :: k.1.V4? == v4
    requires h1 == h0 - (FamilyKeys(h0, v4) - expected)
    requires Tried(h1, s0, h, expected - h1.Keys, {}, errors)
    ensures Reconciled(h0, s0, h, v4, expected, errors)
  {
    assert FamilyKeys(h, v4) == expected - ErrorKeys(errors);
    assert FamilyKeys(h, !v4) == FamilyKeys(h0, !v4);
    forall k | k in h && k !in h0
      ensures h[k] >= s0
    {
      assert k !in h1;
    }
  }

  /** Nothing is lost: the expected servers are those that have a handle and
      those that failed; and all have one exactly when there is no error. */
  lemma Conservation(
    h0: map<Key, nat>, s0: nat, h: map<Key, nat>, v4: bool, expected: set<Key>, errors: seq<BindError>)
    requires Reconciled(h0, s0, h, v4, expected, errors)
    ensures |expected| == |FamilyKeys(h, v4)| + |errors|
    ensures errors == [] <==> FamilyKeys(h, v4) == expected
  {
    assert expected == FamilyKeys(h, v4) + ErrorKeys(errors);
    if errors != [] {
      assert errors[|errors| - 1].key in ErrorKeys(errors);
    }
  }

  method ExpectedThreads(listenIps: map<string, seq<Ip>>) returns (expected: set<Key>)
    ensures expected == Expected(listenIps)
  {
    expected := {};
    var todo := listenIps.Keys;
    while todo != {}
      invariant todo <= listenIps.Keys
      invariant forall k: Key :: k in expected <==> k in Expected(listenIps) && k.0 !in todo
      decreases todo
    {
      var networkName :| networkName in todo;
      var listenIpList := listenIps[networkName];
      for i := 0 to |listenIpList|
        invariant forall k: Key :: k in expected <==>
                    || (k in Expected(listenIps) && k.0 !in todo)
                    || (k.0 == networkName && k.1 in listenIpList[..i])
      {
        expected := expected + {(networkName, listenIpList[i])};
        assert listenIpList[..i + 1] == listenIpList[..i] + [listenIpList[i]];
      }
      assert listenIpList[..|listenIpList|] == listenIpList;
      todo := todo - {networkName};
    }
  }

  /** A snapshot of the keys, in some order. */
  method KeyList(keys: set<Key>) returns (list: seq<Key>)
    ensures ListSet(list) == keys
    ensures forall i, j | 0 <= i < j < |list| :: list[i] != list[j]
  {
    list := [];
    var todo := keys;
    while todo != {}
      invariant todo <= keys
      invariant ListSet(list) == keys - todo
      invariant forall i, j | 0 <= i < j < |list| :: list[i] != list[j]
      decreases todo
    {
      var k :| k in todo;
      ListSetSnoc(list, k);
      list := list + [k];
      todo := todo - {k};
    }
  }

  class Server {
    var handles: map<Key, nat>
    var stopping: set<nat>
    var udp: map<Ip, nat>
    var tcp: map<Ip, nat>
    var foreignUdp: set<Ip>
    var foreignTcp: set<Ip>
    var binding: Option<Ip>
    var spawned: nat
    ghost var run: seq<World>

    ghost function Now(): World
      reads this
    {
      World(handles, stopping, udp, tcp, foreignUdp, foreignTcp, binding, spawned)
    }

    /** The state is the end of a run of the state machine. */
    ghost predicate Valid()
      reads this
    {
      IsRun(run) && run[|run| - 1] == Now()
    }

    ghost predicate Idle()
      reads this
    {
      stopping == {} && binding.None?
    }

    /** No other process holds an address of these keys. */
    ghost predicate Clear(keys: set<Key>)
      reads this
    {
      forall k | k in keys :: k.1 !in foreignUdp && k.1 !in foreignTcp
    }

    constructor (foreignUdp: set<Ip>, foreignTcp: set<Ip>)
      ensures Valid() && Idle() && handles == map[]
    {
      handles, stopping, udp, tcp := map[], {}, map[], map[];
      this.foreignUdp, this.foreignTcp := foreignUdp, foreignTcp;
      binding, spawned := None, 0;
      run := [World(map[], {}, map[], map[], foreignUdp, foreignTcp, None, 0)];
    }

    /** Extend the run by the step just taken. */
    ghost method Record(before: World, a: Action)
      requires IsRun(run) && run[|run| - 1] == before
      requires Enabled(before, a) && Now() == Apply(before, a)
      modifies `run
      ensures Valid() && run == old(run) + [Now()]
    {
      assert Next(before, Now());
      RunExtends(run, Now());
      run := run + [Now()];
    }

    // ---------------------------------------------------- the surroundings

    method EndTask(task: nat)
      requires Valid() && task < spawned
      modifies `udp, `tcp, `run
      ensures Valid() && old(run) <= run
      ensures Now() == Apply(old(Now()), TaskEnds(task))
    {
      ghost var before := Now();
      udp, tcp := Without(udp, task), Without(tcp, task);
      Record(before, TaskEnds(task));
    }

    method ChangeForeign(newUdp: set<Ip>, newTcp: set<Ip>)
      requires Valid() && newUdp !! udp.Keys && newTcp !! tcp.Keys
      modifies `foreignUdp, `foreignTcp, `run
      ensures Valid() && old(run) <= run
    {
      ghost var before := Now();
      foreignUdp, foreignTcp := newUdp, newTcp;
      Record(before, ForeignChange(newUdp, newTcp));
    }

    /** What may happen while the program waits: any number of server tasks end
        by themselves, and, unless `quiet`, other processes take and release
        addresses. */
    method Interfere(quiet: bool)
      requires Valid()
      modifies `udp, `tcp, `foreignUdp, `foreignTcp, `run
      ensures Valid() && old(run) <= run
      ensures quiet ==> foreignUdp == old(foreignUdp) && foreignTcp == old(foreignTcp)
      ensures udp.Keys <= old(udp.Keys) && tcp.Keys <= old(tcp.Keys)
      ensures binding.Some? ==> binding.value in udp && udp[binding.value] == spawned
    {
      var steps: nat := *;
      while steps > 0
        invariant Valid() && old(run) <= run
        invariant quiet ==> foreignUdp == old(foreignUdp) && foreignTcp == old(foreignTcp)
        invariant udp.Keys <= old(udp.Keys) && tcp.Keys <= old(tcp.Keys)
      {
        var task: nat := *;
        if task < spawned {
          EndTask(task);
        }
        var newUdp: set<Ip>, newTcp: set<Ip> := *, *;
        if !quiet && newUdp !! udp.Keys && newTcp !! tcp.Keys {
          ChangeForeign(newUdp, newTcp);
        }
        steps := steps - 1;
      }
      RunInv(run, |run| - 1);
    }

    /** Bind a UDP socket: it fails if the address is held, and may fail for
        other reasons unless `quiet`. */
    method BindUdpSocket(ip: Ip, quiet: bool) returns (ok: bool)
      requires Valid() && Idle()
      modifies `udp, `binding, `run
      ensures Valid() && old(run) <= run
      ensures ok ==> ip !in old(udp) && ip !in foreignUdp && binding == Some(ip) && udp == old(udp)[ip := spawned]
      ensures !ok ==> udp == old(udp) && binding == old(binding)
      ensures quiet && ip !in old(udp) && ip !in foreignUdp ==> ok
    {
      var allowed: bool := *;
      ok := ip !in udp && ip !in foreignUdp && (quiet || allowed);
      if ok {
        ghost var before := Now();
        udp, binding := udp[ip := spawned], Some(ip);
        Record(before, BindUdp(ip));
      }
    }

    /** Bind a TCP socket beside the UDP socket and spawn the server on both;
        otherwise the UDP socket is dropped. */
    method BindTcpAndSpawn(key: Key, quiet: bool) returns (ok: bool)
      requires Valid() && stopping == {} && binding == Some(key.1) && key !in handles
      modifies `handles, `udp, `tcp, `binding, `spawned, `run
      ensures Valid() && Idle() && old(run) <= run
      ensures ok ==> handles == old(handles)[key := old(spawned)] && spawned == old(spawned) + 1
      ensures !ok ==> spawned == old(spawned)
      ensures !ok ==> handles == old(handles) && udp == old(udp) - {key.1} && tcp == old(tcp)
      ensures quiet && key.1 !in old(tcp) && key.1 !in foreignTcp ==> ok
    {
      var allowed: bool := *;
      ok := key.1 !in tcp && key.1 !in foreignTcp && (quiet || allowed);
      ghost var before := Now();
      if ok {
        handles, tcp := handles[key := spawned], tcp[key.1 := spawned];
        binding, spawned := None, spawned + 1;
        Record(before, Spawn(key));
      } else {
        udp, binding := udp - {key.1}, None;
        Record(before, AbandonBind);
      }
    }

    // ------------------------------------------------------------- stopping

    /** Remove a key, which must be there, and tell its task to stop. */
    method RemoveHandle(key: Key) returns (task: nat)
      requires Valid() && binding.None?
      requires key in handles
      modifies `handles, `stopping, `run
      ensures Valid() && old(run) <= run
      ensures handles == old(handles) - {key} && task == old(handles)[key]
      ensures stopping == old(stopping) + {task} && task !in old(stopping)
    {
      RunInv(run, |run| - 1);
      ghost var before := Now();
      task := handles[key];
      handles, stopping := handles - {key}, stopping + {task};
      Record(before, BeginStop(key));
    }

    method AwaitTask(task: nat)
      requires Valid() && task in stopping
      modifies `stopping, `udp, `tcp, `run
      ensures Valid() && old(run) <= run
      ensures stopping == old(stopping) - {task}
    {
      ghost var before := Now();
      stopping, udp, tcp := stopping - {task}, Without(udp, task), Without(tcp, task);
      Record(before, FinishStop(task));
    }

    ghost predicate IsList(list: seq<Key>)
      reads this
    {
      && (forall k | k in list :: k in handles)
      && forall i, j | 0 <= i < j < |list| :: list[i] != list[j]
    }

    /** Remove every key of a list and keep the tasks, each of them once. */
    method RemoveHandles(toShutDown: seq<Key>) returns (tasks: seq<nat>)
      requires Valid() && Idle() && IsList(toShutDown)
      modifies `handles, `stopping, `run
      ensures Valid() && binding.None? && old(run) <= run
      ensures handles == old(handles) - ListSet(toShutDown)
      ensures stopping == ListSet(tasks)
      ensures forall m, n | 0 <= m < n < |tasks| :: tasks[m] != tasks[n]
    {
      tasks := [];
      for i := 0 to |toShutDown|
        invariant Valid() && binding.None? && old(run) <= run
        invariant handles == old(handles) - ListSet(toShutDown[..i])
        invariant stopping == ListSet(tasks)
        invariant forall m, n | 0 <= m < n < |tasks| :: tasks[m] != tasks[n]
      {
        ListSetNext(toShutDown, i);
        var task := RemoveHandle(toShutDown[i]);
        tasks := tasks + [task];
      }
      assert toShutDown[..|toShutDown|] == toShutDown;
    }

    method AwaitTasks(tasks: seq<nat>, quiet: bool)
      requires Valid() && binding.None? && stopping == ListSet(tasks)
      requires forall m, n | 0 <= m < n < |tasks| :: tasks[m] != tasks[n]
      modifies `stopping, `udp, `tcp, `foreignUdp, `foreignTcp, `run
      ensures Valid() && Idle() && old(run) <= run
      ensures quiet ==> foreignUdp == old(foreignUdp) && foreignTcp == old(foreignTcp)
    {
      assert tasks[0..] == tasks;
      for i := 0 to |tasks|
        invariant Valid() && binding.None? && old(run) <= run
        invariant quiet ==> foreignUdp == old(foreignUdp) && foreignTcp == old(foreignTcp)
        invariant stopping == ListSet(tasks[i..])
      {
        Interfere(quiet);
        ListSetNext(tasks, i);
        AwaitTask(tasks[i]);
      }
    }

    /** Stop the servers of the given keys, or all; every key is removed once and
        is there when it is removed. */
    method StopThreads(filter: Option<seq<Key>>, quiet: bool)
      requires Valid() && Idle()
      requires filter.Some? ==> IsList(filter.value)
      modifies `handles, `stopping, `udp, `tcp, `foreignUdp, `foreignTcp, `run
      ensures Valid() && Idle() && old(run) <= run
      ensures quiet ==> foreignUdp == old(foreignUdp) && foreignTcp == old(foreignTcp)
      ensures filter.None? ==> handles == map[]
      ensures filter.Some? ==> handles == old(handles) - ListSet(filter.value)
      ensures forall k | k in old(handles) && k !in handles :: HoldsNothing(Now(), old(handles[k]))
    {
      ghost var before := Now();
      RunInv(run, |run| - 1);
      var toShutDown: seq<Key>;
      if filter.Some? {
        toShutDown := filter.value;
      } else {
        toShutDown := KeyList(handles.Keys);
      }
      var tasks := RemoveHandles(toShutDown);
      AwaitTasks(tasks, quiet);
      assert filter.None? ==> handles.Keys == {};
      AllReleased(before);
    }

    lemma AllReleased(before: World)
      requires Valid() && Idle() && Inv(before)
      requires forall k | k in handles :: k in before.handles && handles[k] == before.handles[k]
      ensures forall k | k in before.handles && k !in handles :: HoldsNothing(Now(), before.handles[k])
    {
      RunInv(run, |run| - 1);
      forall k | k in before.handles && k !in handles
        ensures HoldsNothing(Now(), before.handles[k])
      {
        StoppedHoldsNothing(before, Now(), k);
      }
    }

    // ------------------------------------------------------------- starting

    /** Try to start one server; nothing stays bound if it fails. */
    method StartServer(key: Key, quiet: bool) returns (error: Option<BindError>)
      requires Valid() && Idle() && key !in handles
      modifies this
      ensures Valid() && Idle() && old(run) <= run
      ensures quiet ==> foreignUdp == old(foreignUdp) && foreignTcp == old(foreignTcp)
      ensures error.None? ==> handles == old(handles)[key := old(spawned)] && spawned == old(spawned) + 1
      ensures error.Some? ==> handles == old(handles) && spawned == old(spawned) && error.value.key == key
      ensures quiet && old(Clear({key})) && key.1 !in old(udp) && key.1 !in old(tcp) ==> error.None?
    {
      Interfere(quiet);
      var udpSock := BindUdpSocket(key.1, quiet);
      if !udpSock {
        return Some(UdpBind(key));
      }
      Interfere(quiet);
      var tcpSock := BindTcpAndSpawn(key, quiet);
      if !tcpSock {
        return Some(TcpBind(key));
      }
      return None;
    }

    /** Start the servers of a set of keys without a handle, in any order, and
        collect the errors. */
    method StartServers(toStart: set<Key>, expected: set<Key>, quiet: bool)
      returns (errors: seq<BindError>)
      requires Valid() && Idle()
      requires toStart <= expected && toStart !! handles.Keys
      requires forall j, k | j in toStart && k in handles && k.1 == j.1 :: k in expected
      modifies this
      ensures Valid() && Idle() && old(run) <= run && old(spawned) <= spawned
      ensures quiet ==> foreignUdp == old(foreignUdp) && foreignTcp == old(foreignTcp)
      ensures Tried(old(handles), old(spawned), handles, toStart, {}, errors)
      ensures quiet && old(Clear(toStart)) && OneNetworkEach(expected) ==> errors == []
    {
      errors := [];
      var todo := toStart;
      while todo != {}
        invariant Tried(old(handles), old(spawned), handles, toStart, todo, errors)
        invariant Valid() && Idle() && old(run) <= run && old(spawned) <= spawned
        invariant quiet ==> foreignUdp == old(foreignUdp) && foreignTcp == old(foreignTcp)
        invariant quiet && old(Clear(toStart)) && OneNetworkEach(expected) ==> errors == []
        decreases todo
      {
        var key :| key in todo;
        if OneNetworkEach(expected) {
          FreeAddress(expected, key);
        }
        ghost var h, s := handles, spawned;
        var error := StartServer(key, quiet);
        if error.Some? {
          TriedInVain(old(handles), old(spawned), h, toStart, todo, errors, error.value);
          errors := errors + [error.value];
        } else {
          TriedWell(old(handles), old(spawned), h, toStart, todo, errors, key, s);
        }
        todo := todo - {key};
      }
    }

    /** One address family: stop what should no longer run, before starting what
        should, so that an address can move from one network to another. */
    method StopAndStartThreads(v4: bool, listenIps: map<string, seq<Ip>>, quiet: bool)
      returns (errors: seq<BindError>)
      requires Valid() && Idle() && OfFamily(listenIps, v4)
      modifies this
      ensures Valid() && Idle() && old(run) <= run
      ensures quiet ==> foreignUdp == old(foreignUdp) && foreignTcp == old(foreignTcp)
      ensures Reconciled(old(handles), old(spawned), handles, v4, Expected(listenIps), errors)
      ensures old(spawned) <= spawned
      ensures quiet && old(Clear(Expected(listenIps))) && OneNetworkEach(Expected(listenIps)) ==> errors == []
    {
      var expected := ExpectedThreads(listenIps);
      var toShutDown := KeyList(FamilyKeys(handles, v4) - expected);
      StopThreads(Some(toShutDown), quiet);
      ghost var kept := handles;
      var toStart := expected - handles.Keys;
      errors := StartServers(toStart, expected, quiet);
      Phase(old(handles), old(spawned), kept, handles, v4, expected, errors);
    }

    lemma FreeAddress(expected: set<Key>, key: Key)
      requires Valid() && Idle() && OneNetworkEach(expected)
      requires forall k | k in handles && k.1 == key.1 :: k in expected
      requires key in expected && key !in handles
      ensures key.1 !in udp && key.1 !in tcp
    {
      RunInv(run, |run| - 1);
      AddressFree(Now(), expected, key);
    }
  }
}
