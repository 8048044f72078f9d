/** How one query is decided: answered from the backend, refused, or forwarded,
    and to which servers. */
module CoreDns {
  import opened Wrappers
  import opened Text
  import opened Address
  import opened ReverseName
  import opened Collect
  import opened Backend

  datatype RecordType = A | AAAA | PTR | Other(code: nat)

  datatype RData = AData(v4: Octets) | AaaaData(v6: Groups) | PtrData(name: string)

  datatype Record = Record(owner: string, data: RData)

  datatype Query = Query(source: Ip, name: string, rtype: RecordType)

  datatype Outcome = Reply(answers: seq<Record>) | NxDomain | Forward(servers: seq<SocketAddr>)

  /** What the server was started with: the network it listens for, whether
      forwarding is off, and which names may be put in a record. */
  datatype Listener = Listener(networkName: string, noProxy: bool, isName: string -> bool)

  // -------------------------------------------------- the decision, as a rule

  /** The records of the requested family. */
  function IpCell(owner: string, rtype: RecordType): Ip -> seq<Record>
  {
    (ip: Ip) =>
      match ip
      case V4(o) => if rtype == A then [Record(owner, AData(o))] else []
      case V6(g) => if rtype == AAAA then [Record(owner, AaaaData(g))] else []
  }

  function PtrCell(owner: string, isName: string -> bool): string -> seq<Record>
  {
    (name: string) => if isName(name + ".") then [Record(owner, PtrData(name + "."))] else []
  }

  function PtrNames(b: DNSBackend, q: Query): Option<seq<string>>
  {
    match ReverseAddress(q.name)
    case Some(ip) => Names(b, q.source, ip)
    case None => None
  }

  /** The records found in the backend; `None` when it has no say. */
  function LocalAnswer(b: DNSBackend, s: Listener, q: Query): Option<seq<Record>>
  {
    match q.rtype
    case PTR =>
      (match PtrNames(b, q)
       case Some(names) => Some(Gather(names, PtrCell(q.name, s.isName)))
       case None => None)
    case Other(_) => None
    case _ =>
      (match Present(Addresses(b, q.source, s.networkName, q.name))
       case Some(ips) => Some(Gather(ips, IpCell(q.name, q.rtype)))
       case None => None)
  }

  predicate MayForward(b: DNSBackend, s: Listener, q: Query)
  {
    !s.noProxy && !IsInternal(b, q.source) && !EndsWith(q.name, b.searchDomain)
  }

  function Sockets(ips: seq<Ip>): (r: seq<SocketAddr>)
    ensures |r| == |ips|
  {
    seq(|ips|, i requires 0 <= i < |ips| => SocketAddr(ips[i], DNS_PORT, 0))
  }

  /** The servers configured for the requester, or else for its networks. */
  function CustomServers(b: DNSBackend, source: Ip): seq<Ip>
  {
    if source in b.ctrDnsServer && b.ctrDnsServer[source].Some?
    then b.ctrDnsServer[source].value
    else if Resolvers(b, source).Some? then Resolvers(b, source).value
    else []
  }

  /** The decision as far as the backend goes: `None` leaves the choice of
      servers to the host's list. */
  function DecideLocally(b: DNSBackend, s: Listener, q: Query, answers: seq<Record>): Option<Outcome>
  {
    match LocalAnswer(b, s, q)
    case Some(records) => Some(Reply(answers + records))
    case None =>
      if !MayForward(b, s, q) then Some(NxDomain)
      else if CustomServers(b, q.source) != [] then Some(Forward(Sockets(CustomServers(b, q.source))))
      else None
  }

  /** The whole decision, from one backend and one list of host servers. */
  function Decide(b: DNSBackend, s: Listener, q: Query, answers: seq<Record>, hosts: seq<SocketAddr>): Outcome
  {
    match DecideLocally(b, s, q, answers)
    case Some(outcome) => outcome
    case None => Forward(hosts)
  }

  // --------------------------------------------------- the decision, as code

  class Message {
    var answers: seq<Record>

    constructor (answers: seq<Record>)
      ensures this.answers == answers
    {
      this.answers := answers;
    }

    method AddAnswer(record: Record)
      modifies `answers
      ensures answers == old(answers) + [record]
    {
      answers := answers + [record];
    }
  }

  method FindPtrNames(b: DNSBackend, q: Query) returns (names: Option<seq<string>>)
    ensures names == PtrNames(b, q)
  {
    var text := DecodeReverseName(q.name);
    if text.None? {
      return None;
    }
    var ip := ParseIp(text.value);
    if ip.None? {
      return None;
    }
    names := ReverseLookup(b, q.source, ip.value);
  }

  method ReplyPtr(b: DNSBackend, s: Listener, q: Query, req: Message) returns (msg: Message?)
    ensures msg == null <==> PtrNames(b, q).None?
    ensures msg != null ==>
              fresh(msg) && msg.answers == req.answers + Gather(PtrNames(b, q).value, PtrCell(q.name, s.isName))
  {
    var names := FindPtrNames(b, q);
    if names.None? {
      return null;
    }
    msg := new Message(req.answers);
    AddPtrs(q.name, s.isName, names.value, msg);
  }

  method AddPtrs(owner: string, isName: string -> bool, entries: seq<string>, msg: Message)
    modifies msg`answers
    ensures msg.answers == old(msg.answers) + Gather(entries, PtrCell(owner, isName))
  {
    for i := 0 to |entries|
      invariant msg.answers == old(msg.answers) + Gather(entries[..i], PtrCell(owner, isName))
    {
      assert entries[..i + 1][..i] == entries[..i];
      if isName(entries[i] + ".") {
        msg.AddAnswer(Record(owner, PtrData(entries[i] + ".")));
      }
    }
    assert entries[..|entries|] == entries;
  }

  method AddV4(owner: string, ips: seq<Ip>, req: Message)
    modifies req`answers
    ensures req.answers == old(req.answers) + Gather(ips, IpCell(owner, A))
  {
    for i := 0 to |ips|
      invariant req.answers == old(req.answers) + Gather(ips[..i], IpCell(owner, A))
    {
      assert ips[..i + 1][..i] == ips[..i];
      if ips[i].V4? {
        req.AddAnswer(Record(owner, AData(ips[i].octets)));
      }
    }
    assert ips[..|ips|] == ips;
  }

  method AddV6(owner: string, ips: seq<Ip>, req: Message)
    modifies req`answers
    ensures req.answers == old(req.answers) + Gather(ips, IpCell(owner, AAAA))
  {
    for i := 0 to |ips|
      invariant req.answers == old(req.answers) + Gather(ips[..i], IpCell(owner, AAAA))
    {
      assert ips[..i + 1][..i] == ips[..i];
      if ips[i].V6? {
        req.AddAnswer(Record(owner, AaaaData(ips[i].groups)));
      }
    }
    assert ips[..|ips|] == ips;
  }

  method ReplyIp(b: DNSBackend, s: Listener, q: Query, req: Message) returns (found: bool)
    modifies req`answers
    ensures found <==> Addresses(b, q.source, s.networkName, q.name) != []
    ensures found ==>
              req.answers == old(req.answers) +
                             Gather(Addresses(b, q.source, s.networkName, q.name), IpCell(q.name, q.rtype))
    ensures !found ==> req.answers == old(req.answers)
  {
    var resolved := Lookup(b, q.source, s.networkName, q.name);
    if resolved.None? {
      return false;
    }
    if q.rtype == A {
      AddV4(q.name, resolved.value, req);
    } else if q.rtype == AAAA {
      AddV6(q.name, resolved.value, req);
    } else {
      GatherNone(resolved.value, IpCell(q.name, q.rtype));
    }
    return true;
  }

  /** The servers to forward to; `hosts` is the host's list as read now. */
  method ChooseServers(b: DNSBackend, source: Ip, hosts: seq<SocketAddr>) returns (nameservers: seq<SocketAddr>)
    ensures nameservers == if CustomServers(b, source) == [] then hosts else Sockets(CustomServers(b, source))
  {
    nameservers := [];
    var custom: seq<Ip> := [];
    if source in b.ctrDnsServer && b.ctrDnsServer[source].Some? {
      custom := b.ctrDnsServer[source].value;
    } else {
      var networks := GetNetworkScopedResolvers(b, source);
      if networks.Some? {
        custom := networks.value;
      }
    }
    for i := 0 to |custom|
      invariant nameservers == Sockets(custom[..i])
    {
      nameservers := nameservers + [SocketAddr(custom[i], DNS_PORT, 0)];
    }
    assert custom[..|custom|] == custom;
    if nameservers == [] {
      nameservers := hosts;
    }
  }

  method ProcessMessage(b: DNSBackend, s: Listener, q: Query, req: Message, hosts: seq<SocketAddr>)
    returns (outcome: Outcome)
    modifies req`answers
    ensures outcome == Decide(b, s, q, old(req.answers), hosts)
  {
    if q.rtype == PTR {
      var msg := ReplyPtr(b, s, q, req);
      if msg != null {
        return Reply(msg.answers);
      }
    } else if q.rtype == A || q.rtype == AAAA {
      var found := ReplyIp(b, s, q, req);
      if found {
        return Reply(req.answers);
      }
    }
    var internal := CtrIsInternal(b, q.source);
    if s.noProxy || internal || EndsWith(q.name, b.searchDomain) {
      return NxDomain;
    }
    var nameservers := ChooseServers(b, q.source, hosts);
    return Forward(nameservers);
  }
}
