/** What an answer holds, and when there is one. */
module Records {
  import opened Wrappers
  import opened Text
  import opened Address
  import opened ReverseName
  import opened Collect
  import opened Backend
  import opened CoreDns

  // -------------------------------------------------- when, and what instead

  /** The backend has something to say to the query. */
  ghost predicate HasAnswer(b: DNSBackend, s: Listener, q: Query)
  {
    match q.rtype
    case A => Addresses(b, q.source, s.networkName, q.name) != []
    case AAAA => Addresses(b, q.source, s.networkName, q.name) != []
    case PTR => exists ip :: ReverseAddress(q.name) == Some(ip) && Names(b, q.source, ip).Some?
    case Other(_) => false
  }

  /** A query is answered when the backend has something to say, even if that is
      no record of the family asked for. Otherwise it is refused to sources that
      may not forward and under the search domain, and else forwarded. */
  lemma DecidedExactly(b: DNSBackend, s: Listener, q: Query, answers: seq<Record>, hosts: seq<SocketAddr>)
    ensures var o := Decide(b, s, q, answers, hosts);
            if HasAnswer(b, s, q) then o.Reply?
            else if s.noProxy || IsInternal(b, q.source) || EndsWith(q.name, b.searchDomain) then o == NxDomain
            else o.Forward?
  {
    if q.rtype == PTR && ReverseAddress(q.name).Some? {
      var ip := ReverseAddress(q.name).value;
      assert PtrNames(b, q) == Names(b, q.source, ip);
    }
  }

  /** Servers taken from the configuration are asked on port 53, in order. */
  lemma ServerPorts(ips: seq<Ip>, i: nat)
    requires i < |ips|
    ensures |Sockets(ips)| == |ips| && Sockets(ips)[i] == SocketAddr(ips[i], 53, 0)
  {
  }

  // -------------------------------------------------------- address records

  /** How often a record is due to addresses found for a name. */
  ghost function IpTimes(ips: seq<Ip>, owner: string, rtype: RecordType, r: Record): nat
  {
    if r.owner != owner then 0
    else
      match r.data
      case AData(o) => if rtype == A then Count(ips, V4(o)) else 0
      case AaaaData(g) => if rtype == AAAA then Count(ips, V6(g)) else 0
      case PtrData(_) => 0
  }

  ghost function AddressTimes(b: DNSBackend, s: Listener, q: Query, r: Record): nat
  {
    IpTimes(Addresses(b, q.source, s.networkName, q.name), q.name, q.rtype, r)
  }

  lemma OneAddressRecord(ip: Ip, owner: string, rtype: RecordType, r: Record)
    ensures Count(IpCell(owner, rtype)(ip), r) == IpTimes([ip], owner, rtype, r)
  {
  }

  lemma IpTimesSnoc(ips: seq<Ip>, ip: Ip, owner: string, rtype: RecordType, r: Record)
    ensures IpTimes(ips + [ip], owner, rtype, r) == IpTimes(ips, owner, rtype, r) + IpTimes([ip], owner, rtype, r)
  {
  }

  lemma {:induction false} AddressRecordCount(ips: seq<Ip>, owner: string, rtype: RecordType, r: Record)
    ensures Count(Gather(ips, IpCell(owner, rtype)), r) == IpTimes(ips, owner, rtype, r)
  {
    if ips != [] {
      var init, ip := ips[..|ips| - 1], ips[|ips| - 1];
      AddressRecordCount(init, owner, rtype, r);
      assert ips == init + [ip];
      OneAddressRecord(ip, owner, rtype, r);
      IpTimesSnoc(init, ip, owner, rtype, r);
    }
  }

  /** An answer to a query for addresses adds, for each address of the asked
      family, its record as often as the address was found, and nothing else. */
  lemma AddressRecords(b: DNSBackend, s: Listener, q: Query, answers: seq<Record>, hosts: seq<SocketAddr>)
    requires (q.rtype == A || q.rtype == AAAA) && Decide(b, s, q, answers, hosts).Reply?
    ensures var all := Decide(b, s, q, answers, hosts).answers;
            && answers <= all
            && forall r :: Count(all[|answers|..], r) == AddressTimes(b, s, q, r)
  {
    var ips := Addresses(b, q.source, s.networkName, q.name);
    var added := Gather(ips, IpCell(q.name, q.rtype));
    assert Decide(b, s, q, answers, hosts).answers == answers + added;
    assert (answers + added)[|answers|..] == added;
    forall r
      ensures Count(added, r) == AddressTimes(b, s, q, r)
    {
      AddressRecordCount(ips, q.name, q.rtype, r);
    }
  }

  // ------------------------------------------------------------ PTR records

  /** How often a record is due to a PTR query that the backend answers with
      these names: a name with a final dot, if that is a valid name. */
  ghost function NameTimes(s: Listener, q: Query, names: seq<string>, r: Record): nat
  {
    if r.owner == q.name && r.data.PtrData? && s.isName(r.data.name) && EndsWith(r.data.name, ".")
    then Count(names, r.data.name[..|r.data.name| - 1])
    else 0
  }

  lemma {:induction false} NameRecordCount(s: Listener, q: Query, names: seq<string>, r: Record)
    ensures Count(Gather(names, PtrCell(q.name, s.isName)), r) == NameTimes(s, q, names, r)
  {
    if names != [] {
      var init, name := names[..|names| - 1], names[|names| - 1];
      NameRecordCount(s, q, init, r);
      OneNameRecord(s, q, name, r);
      NameTimesSnoc(s, q, init, name, r);
      assert names == init + [name];
    }
  }

  lemma NameTimesSnoc(s: Listener, q: Query, names: seq<string>, name: string, r: Record)
    ensures NameTimes(s, q, names + [name], r) == NameTimes(s, q, names, r) + NameTimes(s, q, [name], r)
  {
  }

  lemma OneNameRecord(s: Listener, q: Query, name: string, r: Record)
    ensures Count(PtrCell(q.name, s.isName)(name), r) == NameTimes(s, q, [name], r)
  {
    assert (name + ".")[..|name|] == name && (name + ".")[|name|..] == ".";
    if r.data.PtrData? && EndsWith(r.data.name, ".") {
      var init := r.data.name[..|r.data.name| - 1];
      assert r.data.name == init + ".";
    }
  }

  lemma PtrAnswer(
    b: DNSBackend, s: Listener, q: Query, names: seq<string>, answers: seq<Record>, hosts: seq<SocketAddr>)
    requires q.rtype == PTR && PtrNames(b, q) == Some(names)
    ensures Decide(b, s, q, answers, hosts) == Reply(answers + Gather(names, PtrCell(q.name, s.isName)))
  {
  }

  /** An answer to a PTR query adds, for each valid name of the address asked
      about, its record as often as the name is listed, and nothing else. */
  lemma NameRecords(b: DNSBackend, s: Listener, q: Query, answers: seq<Record>, hosts: seq<SocketAddr>, ip: Ip)
    requires q.rtype == PTR && ReverseAddress(q.name) == Some(ip) && Names(b, q.source, ip).Some?
    ensures Decide(b, s, q, answers, hosts).Reply?
    ensures var all := Decide(b, s, q, answers, hosts).answers;
            && answers <= all
            && forall r :: Count(all[|answers|..], r) == NameTimes(s, q, Names(b, q.source, ip).value, r)
  {
    var names := Names(b, q.source, ip).value;
    var added := Gather(names, PtrCell(q.name, s.isName));
    PtrAnswer(b, s, q, names, answers, hosts);
    assert (answers + added)[|answers|..] == added;
    forall r
      ensures Count(added, r) == NameTimes(s, q, names, r)
    {
      NameRecordCount(s, q, names, r);
    }
  }
}
