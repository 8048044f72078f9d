/** The simple form of the configuration: a flat sequence of rows, one for each
    container entry of each file, and what every index holds, as a question
    answered by reading all rows. */
module Rows {
  import opened Wrappers
  import opened Text
  import opened Address
  import opened Collect
  import opened Config

  const PID_FILE: string := "aardvark.pid"
  const INTERNAL_SUFFIX: string := "%int"

  /** One entry of the configuration directory: its name, unless that is not
      UTF-8, and its text, unless reading it failed. */
  datatype DirEntry = Unlistable | File(name: Option<string>, content: Option<string>)

  /** The configuration path, as far as it can be read. */
  datatype Directory = NoMetadata | NoDirectory | NoListing | Listing(entries: seq<DirEntry>)

  /** A file that was read: the network it describes and whether it is internal. */
  datatype NetworkFile = NetworkFile(name: string, internal: bool, config: NetworkConfig)

  datatype Row = Row(
    net: string,
    internal: bool,
    id: string,
    ips: seq<Ip>,
    aliases: seq<string>,
    dns: Option<seq<Ip>>)

  function NetworkName(fileName: string): string
  {
    match StripSuffix(fileName, INTERNAL_SUFFIX)
    case Some(name) => name
    case None => fileName
  }

  /** The file behind a directory entry, unless it is skipped. */
  function Load(entry: DirEntry): Option<NetworkFile>
  {
    if entry.Unlistable? || entry.name == Some(PID_FILE) || entry.content.None? then None
    else
      match (entry.name, ParseText(entry.content.value))
      case (Some(name), Ok(config)) =>
        Some(NetworkFile(NetworkName(name), EndsWith(name, INTERNAL_SUFFIX), config))
      case _ => None
  }

  /** A configuration that was parsed, but whose name is not a text. */
  predicate Nameless(entry: DirEntry)
  {
    entry.File? && entry.name.None? && entry.content.Some? && ParseText(entry.content.value).Ok?
  }

  function Loaded(entry: DirEntry): seq<NetworkFile>
  {
    match Load(entry) case Some(file) => [file] case None => []
  }

  function LoadAll(dir: seq<DirEntry>): seq<NetworkFile>
  {
    Gather(dir, Loaded)
  }

  function V4Ips(v4: Option<seq<Octets>>): seq<Ip>
  {
    match v4
    case Some(list) => seq(|list|, i requires 0 <= i < |list| => V4(list[i]))
    case None => []
  }

  function V6Ips(v6: Option<seq<Groups>>): seq<Ip>
  {
    match v6
    case Some(list) => seq(|list|, i requires 0 <= i < |list| => V6(list[i]))
    case None => []
  }

  function RowOf(net: string, internal: bool, e: CtrEntry): Row
  {
    Row(net, internal, e.id, V4Ips(e.v4) + V6Ips(e.v6), e.aliases, e.dnsServers)
  }

  function FileRows(file: NetworkFile): seq<Row>
  {
    seq(|file.config.entries|, i requires 0 <= i < |file.config.entries| =>
      RowOf(file.name, file.internal, file.config.entries[i]))
  }

  function AllRows(files: seq<NetworkFile>): seq<Row>
  {
    Gather(files, FileRows)
  }

  // -------------------------------------------------- what each index holds

  function IdIps(id: string): Row -> seq<Ip>
  {
    (e: Row) => if e.id == id then e.ips else []
  }

  function NameCell(net: string, name: string): Row -> seq<Ip>
  {
    (e: Row) => if e.net == net then Scatter(e.aliases, name, e.ips) else []
  }

  function ReverseCell(net: string, ip: Ip): Row -> seq<string>
  {
    (e: Row) => if e.net == net then Scatter(e.ips, ip, e.aliases) else []
  }

  function DnsCell(ip: Ip): Row -> Option<Option<seq<Ip>>>
  {
    (e: Row) => if !e.internal && ip in e.ips then Some(e.dns) else None
  }

  function InternalCell(net: string): Row -> Option<bool>
  {
    (e: Row) => if e.net == net then Some(e.internal) else None
  }

  function NetworkDnsCell(net: string): NetworkFile -> Option<seq<Ip>>
  {
    (f: NetworkFile) => if f.name != net then None
         else if f.internal then Some([])
         else if f.config.dnsServers != [] then Some(f.config.dnsServers)
         else None
  }

  function OnlyV4(ip: Ip): seq<Octets>
  {
    match ip case V4(o) => [o] case V6(_) => []
  }

  function OnlyV6(ip: Ip): seq<Groups>
  {
    match ip case V4(_) => [] case V6(g) => [g]
  }

  /** The bind addresses of one family that a file gives a network. */
  function ListenCell<V>(net: string, only: Ip -> seq<V>): NetworkFile -> seq<V>
  {
    (f: NetworkFile) => if f.name == net then Gather(f.config.bindIps, only) else []
  }

  /** How often an address of `e` makes its container a member of `net`. */
  ghost function LinkCell(rows: seq<Row>, ip: Ip, net: string): Row -> nat
  {
    (e: Row) => if Joined(rows, e.id, net) then Count(e.ips, ip) else 0
  }

  /** The networks of a container in order of first appearance. */
  function MembershipOf(rows: seq<Row>, id: string): seq<string>
  {
    if rows == [] then []
    else
      var nets, e := MembershipOf(rows[..|rows| - 1], id), rows[|rows| - 1];
      if e.id == id && e.net !in nets then nets + [e.net] else nets
  }

  ghost predicate HasId(rows: seq<Row>, id: string)
  {
    exists e :: e in rows && e.id == id
  }

  ghost predicate HasNet(rows: seq<Row>, net: string)
  {
    exists e :: e in rows && e.net == net
  }

  /** The container has an entry in the network. */
  ghost predicate Joined(rows: seq<Row>, id: string, net: string)
  {
    exists e :: e in rows && e.id == id && e.net == net
  }

  ghost predicate Known(rows: seq<Row>, ip: Ip)
  {
    exists e :: e in rows && ip in e.ips
  }

  ghost predicate Addressed(rows: seq<Row>, net: string, ip: Ip)
  {
    exists e :: e in rows && e.net == net && ip in e.ips
  }

  ghost predicate Named(rows: seq<Row>, net: string, name: string)
  {
    exists e :: e in rows && e.net == net && name in e.aliases
  }

  /** A container's network list holds each network it has joined, once. */
  lemma {:induction false} MembershipCount(rows: seq<Row>, id: string, net: string)
    ensures Count(MembershipOf(rows, id), net) == if Joined(rows, id, net) then 1 else 0
  {
    if rows != [] {
      var init, e := rows[..|rows| - 1], rows[|rows| - 1];
      assert rows == init + [e];
      MembershipCount(init, id, net);
      assert net in MembershipOf(init, id) <==> Count(MembershipOf(init, id), net) > 0;
      assert Joined(rows, id, net) <==> Joined(init, id, net) || (e.id == id && e.net == net);
    }
  }

  /** Forward and reverse agree: a name is listed for an address exactly as
      often as the address is listed for the name. */
  lemma {:induction false} Duality(rows: seq<Row>, net: string, ip: Ip, name: string)
    ensures Count(Gather(rows, ReverseCell(net, ip)), name) == Count(Gather(rows, NameCell(net, name)), ip)
  {
    if rows != [] {
      var init, e := rows[..|rows| - 1], rows[|rows| - 1];
      Duality(init, net, ip, name);
      ScatterCount(e.ips, ip, e.aliases, name);
      ScatterCount(e.aliases, name, e.ips, ip);
    }
  }
}
