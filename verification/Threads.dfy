/** The running servers as a state machine: the handle map, the sockets that
    tasks and other processes hold, and every step that the program or its
    surroundings can take. */
module Threads {
  import opened Wrappers
  import opened Address

  /** A server is known by its network and its address. */
  type Key = (string, Ip)

  /** `udp` and `tcp` give the task that holds a socket on an address. Task
      numbers are given out in order; `spawned` is the next. `stopping` holds
      tasks taken out of the handle map whose end is awaited, and `binding` the
      address of a server about to be started, whose UDP socket is bound. */
  datatype World = World(
    handles: map<Key, nat>,
    stopping: set<nat>,
    udp: map<Ip, nat>,
    tcp: map<Ip, nat>,
    foreignUdp: set<Ip>,
    foreignTcp: set<Ip>,
    binding: Option<Ip>,
    spawned: nat)

  datatype Action =
    | TaskEnds(task: nat)
    | ForeignChange(udp: set<Ip>, tcp: set<Ip>)
    | BeginStop(key: Key)
    | FinishStop(task: nat)
    | BindUdp(ip: Ip)
    | AbandonBind
    | Spawn(key: Key)

  function Without(m: map<Ip, nat>, task: nat): (r: map<Ip, nat>)
    ensures forall ip :: ip in r <==> ip in m && m[ip] != task
    ensures forall ip | ip in r :: r[ip] == m[ip]
  {
    map ip | ip in m && m[ip] != task :: m[ip]
  }

  /** A bind fails if the address is held; it may fail for other reasons too,
      which leaves the state as it is. */
  predicate Enabled(w: World, a: Action)
  {
    match a
    case TaskEnds(task) => task < w.spawned
    case ForeignChange(udp, tcp) => udp !! w.udp.Keys && tcp !! w.tcp.Keys
    case BeginStop(key) => w.binding.None? && key in w.handles
    case FinishStop(task) => task in w.stopping
    case BindUdp(ip) =>
      w.binding.None? && w.stopping == {} && ip !in w.udp && ip !in w.foreignUdp
    case AbandonBind => w.binding.Some?
    case Spawn(key) =>
      && w.binding == Some(key.1) && key !in w.handles
      && key.1 !in w.tcp && key.1 !in w.foreignTcp
  }

  function Apply(w: World, a: Action): World
    requires Enabled(w, a)
  {
    match a
    case TaskEnds(task) => w.(udp := Without(w.udp, task), tcp := Without(w.tcp, task))
    case ForeignChange(udp, tcp) => w.(foreignUdp := udp, foreignTcp := tcp)
    case BeginStop(key) =>
      w.(handles := w.handles - {key}, stopping := w.stopping + {w.handles[key]})
    case FinishStop(task) =>
      w.(stopping := w.stopping - {task}, udp := Without(w.udp, task), tcp := Without(w.tcp, task))
    case BindUdp(ip) => w.(udp := w.udp[ip := w.spawned], binding := Some(ip))
    case AbandonBind => w.(udp := w.udp - {w.binding.value}, binding := None)
    case Spawn(key) =>
      w.(handles := w.handles[key := w.spawned], tcp := w.tcp[key.1 := w.spawned],
         binding := None, spawned := w.spawned + 1)
  }

  ghost predicate Initial(w: World)
  {
    && w.handles == map[] && w.stopping == {}
    && w.udp == map[] && w.tcp == map[]
    && w.binding.None? && w.spawned == 0
  }

  ghost predicate Next(w: World, v: World)
  {
    exists a :: Enabled(w, a) && v == Apply(w, a)
  }

  ghost predicate StepAt(run: seq<World>, i: nat)
  {
    i + 1 < |run| && Next(run[i], run[i + 1])
  }

  /** A history of states, each reached from the one before by a step. */
  ghost predicate IsRun(run: seq<World>)
  {
    && |run| > 0
    && Initial(run[0])
    && forall i: nat | i < |run| - 1 :: StepAt(run, i)
  }

  lemma RunExtends(run: seq<World>, w: World)
    requires IsRun(run) && Next(run[|run| - 1], w)
    ensures IsRun(run + [w])
  {
    forall i: nat | i < |run|
      ensures StepAt(run + [w], i)
    {
      if i < |run| - 1 {
        assert StepAt(run, i);
      }
    }
  }

  // -------------------------------------------------------------- invariant

  predicate Owns(w: World, key: Key, task: nat)
  {
    key in w.handles && w.handles[key] == task
  }

  ghost predicate HandlesOk(w: World)
  {
    && (forall k | k in w.handles :: w.handles[k] < w.spawned)
    && (forall j, k | j in w.handles && k in w.handles && j != k :: w.handles[j] != w.handles[k])
    && (forall t | t in w.stopping :: t < w.spawned)
    && (forall k | k in w.handles :: w.handles[k] !in w.stopping)
  }

  /** A task that holds an address is being stopped, or has the handle of a
      server on that address. */
  ghost predicate HolderOk(w: World, ip: Ip, task: nat)
  {
    task in w.stopping || exists k :: Owns(w, k, task) && k.1 == ip
  }

  ghost predicate SocketsOk(w: World)
  {
    && (forall ip | ip in w.tcp :: ip in w.udp && w.udp[ip] == w.tcp[ip] && w.tcp[ip] < w.spawned)
    && (forall ip | ip in w.udp && w.binding != Some(ip) :: ip in w.tcp && HolderOk(w, ip, w.udp[ip]))
    && (w.binding.Some? ==> w.binding.value in w.udp && w.udp[w.binding.value] == w.spawned && w.stopping == {})
    && w.foreignUdp !! w.udp.Keys
    && w.foreignTcp !! w.tcp.Keys
  }

  ghost predicate Inv(w: World)
  {
    HandlesOk(w) && SocketsOk(w)
  }

  lemma SocketsReleased(w: World, task: nat)
    requires Inv(w) && task < w.spawned
    ensures Inv(w.(udp := Without(w.udp, task), tcp := Without(w.tcp, task)))
  {
    var v := w.(udp := Without(w.udp, task), tcp := Without(w.tcp, task));
    forall ip | ip in v.udp && v.binding != Some(ip)
      ensures ip in v.tcp && HolderOk(v, ip, v.udp[ip])
    {
      assert ip in w.tcp && HolderOk(w, ip, w.udp[ip]);
      if w.udp[ip] !in w.stopping {
        var k :| Owns(w, k, w.udp[ip]) && k.1 == ip;
        assert Owns(v, k, v.udp[ip]);
      }
    }
  }

  lemma StopBegun(w: World, key: Key)
    requires Inv(w) && Enabled(w, BeginStop(key))
    ensures Inv(Apply(w, BeginStop(key)))
  {
    var v := Apply(w, BeginStop(key));
    forall ip | ip in v.udp && v.binding != Some(ip)
      ensures ip in v.tcp && HolderOk(v, ip, v.udp[ip])
    {
      assert ip in w.tcp && HolderOk(w, ip, w.udp[ip]);
      if w.udp[ip] !in v.stopping {
        var k :| Owns(w, k, w.udp[ip]) && k.1 == ip;
        assert Owns(v, k, v.udp[ip]);
      }
    }
  }

  lemma StopFinished(w: World, task: nat)
    requires Inv(w) && Enabled(w, FinishStop(task))
    ensures Inv(Apply(w, FinishStop(task)))
  {
    SocketsReleased(w, task);
    var u := w.(udp := Without(w.udp, task), tcp := Without(w.tcp, task));
    var v := Apply(w, FinishStop(task));
    forall ip | ip in v.udp && v.binding != Some(ip)
      ensures HolderOk(v, ip, v.udp[ip])
    {
      assert HolderOk(u, ip, u.udp[ip]);
      if u.udp[ip] !in u.stopping {
        var k :| Owns(u, k, u.udp[ip]) && k.1 == ip;
        assert Owns(v, k, v.udp[ip]);
      }
    }
  }

  lemma HoldersKept(w: World, v: World)
    requires w.stopping <= v.stopping
    requires forall k | k in w.handles :: k in v.handles && v.handles[k] == w.handles[k]
    ensures forall ip, task :: HolderOk(w, ip, task) ==> HolderOk(v, ip, task)
  {
    forall ip, task | HolderOk(w, ip, task)
      ensures HolderOk(v, ip, task)
    {
      if task !in w.stopping {
        var k :| Owns(w, k, task) && k.1 == ip;
        assert Owns(v, k, task);
      }
    }
  }

  lemma Spawned(w: World, key: Key)
    requires Inv(w) && Enabled(w, Spawn(key))
    ensures Inv(Apply(w, Spawn(key)))
  {
    var v := Apply(w, Spawn(key));
    HoldersKept(w, v);
    assert Owns(v, key, w.spawned);
  }

  lemma ForeignChanged(w: World, udp: set<Ip>, tcp: set<Ip>)
    requires Inv(w) && Enabled(w, ForeignChange(udp, tcp))
    ensures Inv(Apply(w, ForeignChange(udp, tcp)))
  {
    HoldersKept(w, Apply(w, ForeignChange(udp, tcp)));
  }

  lemma UdpBound(w: World, ip: Ip)
    requires Inv(w) && Enabled(w, BindUdp(ip))
    ensures Inv(Apply(w, BindUdp(ip)))
  {
    HoldersKept(w, Apply(w, BindUdp(ip)));
  }

  lemma BindAbandoned(w: World)
    requires Inv(w) && Enabled(w, AbandonBind)
    ensures Inv(Apply(w, AbandonBind))
  {
    HoldersKept(w, Apply(w, AbandonBind));
  }

  /** Every step keeps the invariant. */
  lemma InvStep(w: World, a: Action)
    requires Inv(w) && Enabled(w, a)
    ensures Inv(Apply(w, a))
  {
    match a
    case TaskEnds(task) => SocketsReleased(w, task);
    case ForeignChange(udp, tcp) => ForeignChanged(w, udp, tcp);
    case BeginStop(key) => StopBegun(w, key);
    case FinishStop(task) => StopFinished(w, task);
    case BindUdp(ip) => UdpBound(w, ip);
    case AbandonBind => BindAbandoned(w);
    case Spawn(key) => Spawned(w, key);
  }

  /** The invariant holds of every state of every run. */
  lemma {:induction false} RunInv(run: seq<World>, n: nat)
    requires IsRun(run) && n < |run|
    ensures Inv(run[n])
  {
    if n > 0 {
      RunInv(run, n - 1);
      assert StepAt(run, n - 1);
      var a :| Enabled(run[n - 1], a) && run[n] == Apply(run[n - 1], a);
      InvStep(run[n - 1], a);
    }
  }

  // ----------------------------------------------------------------- safety

  /** Nothing is being stopped or started. */
  predicate AtRest(w: World)
  {
    w.stopping == {} && w.binding.None?
  }

  /** The only key whose server holds the address. */
  ghost predicate SoleHolder(w: World, ip: Ip, key: Key)
  {
    && ip in w.udp && Owns(w, key, w.udp[ip]) && key.1 == ip
    && forall k | Owns(w, k, w.udp[ip]) :: k == key
  }

  lemma Holder(w: World, ip: Ip) returns (key: Key)
    requires Inv(w) && AtRest(w) && ip in w.udp
    ensures Owns(w, key, w.udp[ip]) && key.1 == ip
  {
    assert HolderOk(w, ip, w.udp[ip]);
    key :| Owns(w, key, w.udp[ip]) && key.1 == ip;
  }

  /** In every run: an address bound for one protocol is bound for both, by one
      task; and, at rest, the task belongs to exactly one handle, of a server on
      that address. In particular a bind given up leaves nothing bound. */
  lemma RunSafety(run: seq<World>, n: nat, ip: Ip)
    requires IsRun(run) && n < |run| && AtRest(run[n])
    requires ip in run[n].udp || ip in run[n].tcp
    ensures ip in run[n].udp && ip in run[n].tcp && run[n].udp[ip] == run[n].tcp[ip]
    ensures exists key :: SoleHolder(run[n], ip, key)
    ensures ip !in run[n].foreignUdp && ip !in run[n].foreignTcp
  {
    RunInv(run, n);
    var key := Holder(run[n], ip);
    assert SoleHolder(run[n], ip, key);
  }

  /** No two addresses are held by the server of one key. */
  lemma OneAddressEach(run: seq<World>, n: nat, i: Ip, j: Ip)
    requires IsRun(run) && n < |run| && AtRest(run[n])
    requires i in run[n].udp && j in run[n].udp && run[n].udp[i] == run[n].udp[j]
    ensures i == j
  {
    RunSafety(run, n, i);
    RunSafety(run, n, j);
  }

  // --------------------------------------------------- what a handle means

  ghost predicate HoldsNothing(w: World, task: nat)
  {
    && (forall ip | ip in w.udp :: w.udp[ip] != task)
    && (forall ip | ip in w.tcp :: w.tcp[ip] != task)
  }

  /** The task of the key's handle has both sockets on its address. */
  predicate Serving(w: World, key: Key)
  {
    && key in w.handles
    && key.1 in w.udp && w.udp[key.1] == w.handles[key]
    && key.1 in w.tcp && w.tcp[key.1] == w.handles[key]
  }

  /** A task that holds no socket never gets one. */
  lemma DeadStep(w: World, a: Action, task: nat)
    requires Enabled(w, a) && task < w.spawned && HoldsNothing(w, task)
    ensures task < Apply(w, a).spawned && HoldsNothing(Apply(w, a), task)
  {
  }

  lemma StepOf(run: seq<World>, i: nat) returns (a: Action)
    requires IsRun(run) && i + 1 < |run|
    ensures Enabled(run[i], a) && run[i + 1] == Apply(run[i], a)
  {
    assert StepAt(run, i);
    a :| Enabled(run[i], a) && run[i + 1] == Apply(run[i], a);
  }

  /** In every run, a server whose task has lost its sockets does not come
      back, as long as it has that task. */
  lemma {:induction false} DeadStays(run: seq<World>, m: nat, n: nat, task: nat)
    requires IsRun(run) && m <= n < |run|
    requires task < run[m].spawned && HoldsNothing(run[m], task)
    ensures task < run[n].spawned && HoldsNothing(run[n], task)
  {
    if m < n {
      DeadStays(run, m, n - 1, task);
      var a := StepOf(run, n - 1);
      DeadStep(run[n - 1], a, task);
    }
  }

  /** A handle was there before the step with the same task, or its server was
      just started and has both sockets. */
  lemma HandleStep(w: World, a: Action, key: Key)
    requires Inv(w) && Enabled(w, a) && key in Apply(w, a).handles
    ensures Owns(w, key, Apply(w, a).handles[key]) ||
            (Apply(w, a).handles[key] == w.spawned && Serving(Apply(w, a), key))
  {
  }

  /** Only the end of its task takes the sockets of a server that is not told
      to stop. */
  lemma ServingStep(w: World, a: Action, key: Key)
    requires Inv(w) && Enabled(w, a) && Serving(w, key)
    requires Owns(Apply(w, a), key, w.handles[key]) && a != TaskEnds(w.handles[key])
    ensures Serving(Apply(w, a), key)
  {
    assert w.handles[key] < w.spawned && w.handles[key] !in w.stopping;
  }

  ghost predicate EndsAt(run: seq<World>, i: nat, task: nat)
  {
    i + 1 < |run| && Enabled(run[i], TaskEnds(task)) && run[i + 1] == Apply(run[i], TaskEnds(task))
  }

  ghost predicate Ends(run: seq<World>, m: nat, n: nat, task: nat)
  {
    exists i: nat :: m <= i < n && EndsAt(run, i, task)
  }

  lemma EndStep(w: World, task: nat)
    requires Enabled(w, TaskEnds(task))
    ensures task < Apply(w, TaskEnds(task)).spawned && HoldsNothing(Apply(w, TaskEnds(task)), task)
  {
  }

  lemma EndedIsDead(run: seq<World>, m: nat, n: nat, task: nat)
    requires IsRun(run) && n < |run| && Ends(run, m, n, task)
    ensures HoldsNothing(run[n], task)
  {
    var i: nat :| m <= i < n && EndsAt(run, i, task);
    EndStep(run[i], task);
    DeadStays(run, i + 1, n, task);
  }

  /** Where the server of a handle was started. */
  lemma {:induction false} StartedAt(run: seq<World>, n: nat, key: Key) returns (m: nat)
    requires IsRun(run) && n < |run| && key in run[n].handles
    ensures m <= n && Serving(run[m], key) && run[m].handles[key] == run[n].handles[key]
    ensures Serving(run[n], key) || Ends(run, m, n, run[n].handles[key])
  {
    var a := StepOf(run, n - 1);
    RunInv(run, n - 1);
    HandleStep(run[n - 1], a, key);
    var task := run[n].handles[key];
    if Owns(run[n - 1], key, task) {
      m := StartedAt(run, n - 1, key);
      if Ends(run, m, n - 1, task) {
        var i: nat :| m <= i < n - 1 && EndsAt(run, i, task);
        assert m <= i < n && EndsAt(run, i, task);
      } else if a == TaskEnds(task) {
        assert m <= n - 1 < n && EndsAt(run, n - 1, task);
      } else {
        ServingStep(run[n - 1], a, key);
      }
    } else {
      m := n;
    }
  }

  /** What a handle says about its server, in every run: it was started with
      both sockets, and it has them still exactly when its task has not ended
      by itself since. */
  lemma HandleMeans(run: seq<World>, n: nat, key: Key)
    requires IsRun(run) && n < |run| && key in run[n].handles
    ensures exists m: nat :: m <= n && Serving(run[m], key) && run[m].handles[key] == run[n].handles[key] &&
                        (Serving(run[n], key) <==> !Ends(run, m, n, run[n].handles[key]))
  {
    var m := StartedAt(run, n, key);
    if Ends(run, m, n, run[n].handles[key]) {
      EndedIsDead(run, m, n, run[n].handles[key]);
    }
  }

  /** So a handle does not mean that its server is bound: a server is started
      and its task ends by itself. */
  lemma EndedServerKeepsHandle(key: Key) returns (run: seq<World>)
    ensures |run| == 4 && IsRun(run) && AtRest(run[3])
    ensures key in run[3].handles && HoldsNothing(run[3], run[3].handles[key])
  {
    var w0 := World(map[], {}, map[], map[], {}, {}, None, 0);
    var w1 := Apply(w0, BindUdp(key.1));
    var w2 := Apply(w1, Spawn(key));
    var w3 := Apply(w2, TaskEnds(0));
    run := [w0, w1, w2, w3];
    assert StepAt(run, 0) && StepAt(run, 1) && StepAt(run, 2);
  }

  /** A server that was told to stop, and is awaited, has released its sockets. */
  lemma StoppedHoldsNothing(w: World, v: World, key: Key)
    requires Inv(w) && Inv(v) && AtRest(v)
    requires forall k | k in v.handles :: k in w.handles && v.handles[k] == w.handles[k]
    requires key in w.handles && key !in v.handles
    ensures HoldsNothing(v, w.handles[key])
  {
    forall ip | ip in v.udp
      ensures v.udp[ip] != w.handles[key]
    {
      var k := Holder(v, ip);
    }
  }

  // ------------------------------------------------------------- liveness

  /** Each address belongs to one network. */
  ghost predicate OneNetworkEach(expected: set<Key>)
  {
    forall j, k | j in expected && k in expected && j.1 == k.1 :: j == k
  }

  /** Once no unexpected server is left on its address, the address of an
      expected server that is not running is free, so that, without others in
      the way, it can be started. */
  lemma AddressFree(w: World, expected: set<Key>, key: Key)
    requires Inv(w) && AtRest(w) && OneNetworkEach(expected)
    requires forall k | k in w.handles && k.1 == key.1 :: k in expected
    requires key in expected && key !in w.handles
    ensures key.1 !in w.udp && key.1 !in w.tcp
  {
    if key.1 in w.udp {
      var k := Holder(w, key.1);
    }
  }
}
