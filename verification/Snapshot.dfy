/** Queries answered while the configuration is being replaced: the backend and
    the host's server list are shared and swapped at any time, and a query reads
    the backend once, when it starts, and the list at most once, later. */
module Snapshot {
  import opened Wrappers
  import opened Address
  import opened Rows
  import opened Backend
  import opened Builder
  import opened FileOrder
  import opened CoreDns
  import opened Isolation

  /** A query in flight: what it asks, on which server, and the backend that was
      current when it was loaded. */
  datatype Flight = Flight(server: Listener, query: Query, answers: seq<Record>, loaded: DNSBackend)

  datatype Shared = Shared(
    backend: DNSBackend,
    hosts: seq<SocketAddr>,
    inFlight: map<nat, Flight>,
    settled: map<nat, Outcome>)

  datatype Event =
    | SwapBackend(backend: DNSBackend)
    | SetHosts(hosts: seq<SocketAddr>)
    | Arrive(id: nat, server: Listener, query: Query, answers: seq<Record>)
    | SettleLocally(id: nat)
    | SettleWithHosts(id: nat)

  ghost predicate Enabled(s: Shared, e: Event)
  {
    match e
    case SwapBackend(_) => true
    case SetHosts(_) => true
    case Arrive(id, _, _, _) => id !in s.inFlight && id !in s.settled
    case SettleLocally(id) => id in s.inFlight && Local(s.inFlight[id]).Some?
    case SettleWithHosts(id) => id in s.inFlight && Local(s.inFlight[id]).None?
  }

  function Local(f: Flight): Option<Outcome>
  {
    DecideLocally(f.loaded, f.server, f.query, f.answers)
  }

  ghost function Apply(s: Shared, e: Event): Shared
    requires Enabled(s, e)
  {
    match e
    case SwapBackend(b) => s.(backend := b)
    case SetHosts(hosts) => s.(hosts := hosts)
    case Arrive(id, server, query, answers) =>
      s.(inFlight := s.inFlight[id := Flight(server, query, answers, s.backend)])
    case SettleLocally(id) =>
      s.(settled := s.settled[id := Local(s.inFlight[id]).value], inFlight := s.inFlight - {id})
    case SettleWithHosts(id) =>
      s.(settled := s.settled[id := Forward(s.hosts)], inFlight := s.inFlight - {id})
  }

  ghost predicate IsRun(run: seq<Shared>, events: seq<Event>)
  {
    && |run| == |events| + 1
    && run[0].inFlight == map[] && run[0].settled == map[]
    && forall i | 0 <= i < |events| :: Enabled(run[i], events[i]) && run[i + 1] == Apply(run[i], events[i])
  }

  /** The query `id` arrived at step `i`, as described by `f`, and the backend
      of that step is the one it loaded. */
  ghost predicate ArrivedAt(run: seq<Shared>, events: seq<Event>, id: nat, i: nat, f: Flight)
  {
    && i < |events| && i < |run|
    && events[i] == Arrive(id, f.server, f.query, f.answers)
    && f.loaded == run[i].backend
  }

  /** A query in flight was so before, or has just arrived. */
  lemma CameToFly(run: seq<Shared>, events: seq<Event>, n: nat, id: nat)
    requires IsRun(run, events) && 0 < n < |run| && id in run[n].inFlight
    ensures (id in run[n - 1].inFlight && run[n].inFlight[id] == run[n - 1].inFlight[id]) ||
            ArrivedAt(run, events, id, n - 1, run[n].inFlight[id])
  {
    assert Enabled(run[n - 1], events[n - 1]) && run[n - 1 + 1] == Apply(run[n - 1], events[n - 1]);
  }

  lemma {:induction false} InFlightArrived(run: seq<Shared>, events: seq<Event>, n: nat, id: nat)
    requires IsRun(run, events) && n < |run| && id in run[n].inFlight
    ensures exists i :: 0 <= i < n && ArrivedAt(run, events, id, i, run[n].inFlight[id])
  {
    CameToFly(run, events, n, id);
    if !ArrivedAt(run, events, id, n - 1, run[n].inFlight[id]) {
      InFlightArrived(run, events, n - 1, id);
    }
  }

  /** `o` is the decision for the query `id`, described by `f`, made from the
      backend of step `i`, at which it arrived, and the host list of step `j`. */
  ghost predicate Explains(
    run: seq<Shared>, events: seq<Event>, id: nat, o: Outcome, i: nat, j: nat, f: Flight)
  {
    && i < j < |run| && ArrivedAt(run, events, id, i, f)
    && o == Decide(run[i].backend, f.server, f.query, f.answers, run[j].hosts)
  }

  lemma Settles(s: Shared, e: Event, id: nat)
    requires Enabled(s, e) && id in Apply(s, e).settled
    requires id !in s.settled || Apply(s, e).settled[id] != s.settled[id]
    ensures id in s.inFlight
    ensures var f := s.inFlight[id];
            Apply(s, e).settled[id] == Decide(f.loaded, f.server, f.query, f.answers, s.hosts)
  {
  }

  /** An outcome was there before, or has just been decided. */
  lemma CameToSettle(run: seq<Shared>, events: seq<Event>, n: nat, id: nat)
    requires IsRun(run, events) && n < |run| && id in run[n].settled
    ensures n > 0
    ensures (id in run[n - 1].settled && run[n].settled[id] == run[n - 1].settled[id]) ||
            (id in run[n - 1].inFlight &&
             var f := run[n - 1].inFlight[id];
             run[n].settled[id] == Decide(f.loaded, f.server, f.query, f.answers, run[n - 1].hosts))
  {
    var before, e := run[n - 1], events[n - 1];
    assert Enabled(before, e) && run[n - 1 + 1] == Apply(before, e);
    if !(id in before.settled && run[n].settled[id] == before.settled[id]) {
      Settles(before, e, id);
    }
  }

  lemma JustSettled(run: seq<Shared>, events: seq<Event>, n: nat, id: nat, o: Outcome)
    requires IsRun(run, events) && n < |run| && id in run[n].inFlight
    requires var f := run[n].inFlight[id];
             o == Decide(f.loaded, f.server, f.query, f.answers, run[n].hosts)
    ensures exists i, f :: 0 <= i < n && Explains(run, events, id, o, i, n, f)
  {
    var f := run[n].inFlight[id];
    InFlightArrived(run, events, n, id);
    var i :| 0 <= i < n && ArrivedAt(run, events, id, i, f);
    assert Explains(run, events, id, o, i, n, f);
  }

  lemma {:induction false} OutcomeExplained(run: seq<Shared>, events: seq<Event>, n: nat, id: nat)
    returns (i: nat, j: nat, f: Flight)
    requires IsRun(run, events) && n < |run| && id in run[n].settled
    ensures i < j < n && Explains(run, events, id, run[n].settled[id], i, j, f)
  {
    CameToSettle(run, events, n, id);
    if id in run[n - 1].settled && run[n].settled[id] == run[n - 1].settled[id] {
      i, j, f := OutcomeExplained(run, events, n - 1, id);
    } else {
      JustSettled(run, events, n - 1, id, run[n].settled[id]);
      j := n - 1;
      i, f :| 0 <= i < n - 1 && Explains(run, events, id, run[n].settled[id], i, n - 1, f);
    }
  }

  /** In every interleaving, the outcome of a query is the decision made from
      one backend, the one current when the query arrived, and one list of host
      servers, current at some later step before the outcome. */
  lemma ConsistentOutcome(run: seq<Shared>, events: seq<Event>, n: nat, id: nat)
    requires IsRun(run, events) && n < |run| && id in run[n].settled
    ensures exists i, j, f :: 0 <= i < j < n && Explains(run, events, id, run[n].settled[id], i, j, f)
  {
    var i, j, f := OutcomeExplained(run, events, n, id);
  }

  /** An outcome is final: later swaps do not touch it. */
  lemma {:induction false} OutcomeFinal(run: seq<Shared>, events: seq<Event>, m: nat, n: nat, id: nat)
    requires IsRun(run, events) && m <= n < |run| && id in run[m].settled
    ensures id in run[n].settled && run[n].settled[id] == run[m].settled[id]
    ensures id !in run[n].inFlight
  {
    if m == n {
      NeverBoth(run, events, n, id);
    } else {
      OutcomeFinal(run, events, m, n - 1, id);
      assert Enabled(run[n - 1], events[n - 1]) && run[n - 1 + 1] == Apply(run[n - 1], events[n - 1]);
    }
  }

  lemma {:induction false} NeverBoth(run: seq<Shared>, events: seq<Event>, n: nat, id: nat)
    requires IsRun(run, events) && n < |run|
    ensures !(id in run[n].settled && id in run[n].inFlight)
  {
    if n > 0 {
      NeverBoth(run, events, n - 1, id);
      assert Enabled(run[n - 1], events[n - 1]) && run[n - 1 + 1] == Apply(run[n - 1], events[n - 1]);
    }
  }

  // ------------------------------------------------- backends from files

  /** The backend is built from one of the directories. */
  ghost predicate FromDirectory(b: DNSBackend, dirs: set<seq<DirEntry>>, domain: string)
  {
    exists dir :: dir in dirs && Built(b, LoadAll(dir), domain)
  }

  /** So are the first backend and all that replace it. */
  ghost predicate Reloaded(run: seq<Shared>, events: seq<Event>, dirs: set<seq<DirEntry>>, domain: string)
    requires |run| > 0
  {
    && FromDirectory(run[0].backend, dirs, domain)
    && forall e | e in events && e.SwapBackend? :: FromDirectory(e.backend, dirs, domain)
  }

  lemma {:induction false} BackendReloaded(
    run: seq<Shared>, events: seq<Event>, dirs: set<seq<DirEntry>>, domain: string, n: nat)
    requires IsRun(run, events) && Reloaded(run, events, dirs, domain) && n < |run|
    ensures FromDirectory(run[n].backend, dirs, domain)
  {
    if n > 0 {
      BackendReloaded(run, events, dirs, domain, n - 1);
      assert Enabled(run[n - 1], events[n - 1]) && run[n - 1 + 1] == Apply(run[n - 1], events[n - 1]);
      assert events[n - 1] in events;
    }
  }

  /** Then, in every interleaving, every outcome is the decision on a backend
      built from one of the directories, so that whatever is proved of such
      decisions holds of it. */
  lemma OutcomeFromDirectory(
    run: seq<Shared>, events: seq<Event>, dirs: set<seq<DirEntry>>, domain: string, n: nat, id: nat)
    returns (i: nat, j: nat, f: Flight, dir: seq<DirEntry>)
    requires IsRun(run, events) && Reloaded(run, events, dirs, domain) && n < |run| && id in run[n].settled
    ensures i < j < n && Explains(run, events, id, run[n].settled[id], i, j, f)
    ensures dir in dirs && Built(run[i].backend, LoadAll(dir), domain)
  {
    i, j, f := OutcomeExplained(run, events, n, id);
    BackendReloaded(run, events, dirs, domain, i);
    dir :| dir in dirs && Built(run[i].backend, LoadAll(dir), domain);
  }

  /** A container that joins internal networks only, in every directory read, is
      never forwarded for, however queries and reloads interleave. */
  lemma InternalThroughout(
    run: seq<Shared>, events: seq<Event>, dirs: set<seq<DirEntry>>, domain: string, n: nat, id: nat, source: Ip)
    requires IsRun(run, events) && Reloaded(run, events, dirs, domain) && n < |run| && id in run[n].settled
    requires forall e | e in events && e.Arrive? && e.id == id :: e.query.source == source
    requires forall dir | dir in dirs :: DistinctNames(LoadAll(dir)) && OnlyInternal(AllRows(LoadAll(dir)), source)
    ensures !run[n].settled[id].Forward?
  {
    var i, j, f, dir := OutcomeFromDirectory(run, events, dirs, domain, n, id);
    assert events[i] in events;
    InternalMeans(run[i].backend, LoadAll(dir), domain, source);
    InternalIsolation(run[i].backend, LoadAll(dir), domain, f.server, f.query, f.answers, run[j].hosts);
  }
}
