/** The text of one network's configuration file: its parser, its printer, and
    the proof that each undoes the other. */
module Config {
  import opened Wrappers
  import opened Text
  import opened Address

  datatype CtrEntry = CtrEntry(
    id: string,
    v4: Option<seq<Octets>>,
    v6: Option<seq<Groups>>,
    aliases: seq<string>,
    dnsServers: Option<seq<Ip>>)

  datatype NetworkConfig = NetworkConfig(
    bindIps: seq<Ip>,
    entries: seq<CtrEntry>,
    dnsServers: seq<Ip>)

  datatype ConfigError =
    | BadBindAddress(text: string)
    | BadNetworkDns(text: string)
    | TooFewColumns(line: string)
    | BadAddress(column: string)
    | BadDnsServer(column: string)
    | NoBindAddress

  // --------------------------------------------------------------- parsing

  /** Read every text in order; the error is that of the first one refused. */
  function TryEach<T, E>(texts: seq<string>, read: string -> Result<T, E>): Result<seq<T>, E>
  {
    if texts == [] then Ok([])
    else AddItem(TryEach(texts[..|texts| - 1], read), read(texts[|texts| - 1]))
  }

  function AddItem<T, E>(items: Result<seq<T>, E>, item: Result<T, E>): Result<seq<T>, E>
  {
    if items.Err? then items
    else if item.Err? then Err(item.error)
    else Ok(items.value + [item.value])
  }

  /** A text that does not parse is its own error. */
  function OrText<T>(parse: string -> Option<T>): string -> Result<T, string>
  {
    text => match parse(text) case Some(v) => Ok(v) case None => Err(text)
  }

  function ParseEach<T>(pieces: seq<string>, parse: string -> Option<T>): Result<seq<T>, string>
  {
    TryEach(pieces, OrText(parse))
  }

  /** The bind addresses and the network's DNS servers on the first line. */
  function ParseHeader(line: string): Result<(seq<Ip>, seq<Ip>), ConfigError>
  {
    var columns := Split(line, ' ');
    match ParseEach(Split(columns[0], ','), ParseIp)
    case Err(bad) => Err(BadBindAddress(bad))
    case Ok(bind) =>
      if |columns| > 1 then
        match ParseEach(Split(columns[1], ','), ParseIp)
        case Err(bad) => Err(BadNetworkDns(bad))
        case Ok(dns) => Ok((bind, dns))
      else Ok((bind, []))
  }

  /** An empty column is an absent list. */
  function ParseColumn<T>(column: string, parse: string -> Option<T>): Result<Option<seq<T>>, string>
  {
    if column == "" then Ok(None)
    else
      match ParseEach(Split(column, ','), parse)
      case Ok(items) => Ok(Some(items))
      case Err(_) => Err(column)
  }

  function ParseEntry(line: string): Result<CtrEntry, ConfigError>
  {
    var columns := Split(line, ' ');
    if |columns| < 4 then Err(TooFewColumns(line))
    else
      match ParseColumn(columns[1], ParseV4)
      case Err(bad) => Err(BadAddress(bad))
      case Ok(v4) =>
        match ParseColumn(columns[2], ParseV6)
        case Err(bad) => Err(BadAddress(bad))
        case Ok(v6) =>
          match ParseColumn(if |columns| == 5 then columns[4] else "", ParseIp)
          case Err(bad) => Err(BadDnsServer(bad))
          case Ok(dns) =>
            Ok(CtrEntry(Lower(columns[0]), v4, v6, LowerAll(Split(columns[3], ',')), dns))
  }

  function NonBlank(lines: seq<string>): seq<string>
  {
    if lines == [] then []
    else
      NonBlank(lines[..|lines| - 1]) +
      (if lines[|lines| - 1] == "" then [] else [lines[|lines| - 1]])
  }

  /** A header, then one entry a line. */
  function ReadLines<E>(
    lines: seq<string>,
    header: string -> Result<(seq<Ip>, seq<Ip>), E>,
    entry: string -> Result<CtrEntry, E>,
    empty: E): Result<NetworkConfig, E>
  {
    if lines == [] then Err(empty)
    else
      match header(lines[0])
      case Err(e) => Err(e)
      case Ok(first) =>
        match TryEach(lines[1..], entry)
        case Err(e) => Err(e)
        case Ok(entries) => Ok(NetworkConfig(first.0, entries, first.1))
  }

  function ParseLines(lines: seq<string>): Result<NetworkConfig, ConfigError>
  {
    ReadLines(lines, ParseHeader, ParseEntry, NoBindAddress)
  }

  /** A file is its non-blank lines: a header, then one entry a line. */
  function ParseText(content: string): Result<NetworkConfig, ConfigError>
  {
    ParseLines(NonBlank(Split(content, '\n')))
  }

  lemma {:induction false} ErrorSticks<T, E>(texts: seq<string>, n: nat, read: string -> Result<T, E>)
    requires n <= |texts| && TryEach(texts[..n], read).Err?
    ensures TryEach(texts, read) == TryEach(texts[..n], read)
  {
    if n == |texts| {
      assert texts[..n] == texts;
    } else {
      assert texts[..|texts| - 1][..n] == texts[..n];
      ErrorSticks(texts[..|texts| - 1], n, read);
    }
  }

  lemma {:induction false} NonBlankPrefix(lines: seq<string>, n: nat)
    requires n <= |lines|
    ensures NonBlank(lines[..n]) <= NonBlank(lines)
  {
    if n == |lines| {
      assert lines[..n] == lines;
    } else {
      assert lines[..|lines| - 1][..n] == lines[..n];
      NonBlankPrefix(lines[..|lines| - 1], n);
    }
  }

  /** A comma-separated list of addresses, pushed one by one. */
  method ParseAddresses(column: string) returns (r: Result<seq<Ip>, string>)
    ensures r == ParseEach(Split(column, ','), ParseIp)
  {
    var pieces := Split(column, ',');
    var ips: seq<Ip> := [];
    for i := 0 to |pieces|
      invariant ParseEach(pieces[..i], ParseIp) == Ok(ips)
    {
      assert pieces[..i + 1][..i] == pieces[..i];
      var ip := ParseIp(pieces[i]);
      if ip.None? {
        ErrorSticks(pieces, i + 1, OrText(ParseIp));
        return Err(pieces[i]);
      }
      ips := ips + [ip.value];
    }
    assert pieces[..|pieces|] == pieces;
    return Ok(ips);
  }

  lemma AppendLine<E>(
    seen: seq<string>, line: string, header: string -> Result<(seq<Ip>, seq<Ip>), E>,
    entry: string -> Result<CtrEntry, E>, empty: E)
    requires seen != []
    ensures ReadLines(seen, header, entry, empty).Ok? ==>
              var config := ReadLines(seen, header, entry, empty).value;
              ReadLines(seen + [line], header, entry, empty) ==
              if entry(line).Ok? then Ok(config.(entries := config.entries + [entry(line).value]))
              else Err(entry(line).error)
  {
    var more := seen + [line];
    assert more[0] == seen[0];
    assert more[1..][..|seen| - 1] == seen[1..];
    assert more[1..][|seen| - 1] == line;
  }

  lemma LineErrorSticks<E>(
    lines: seq<string>, n: nat, header: string -> Result<(seq<Ip>, seq<Ip>), E>,
    entry: string -> Result<CtrEntry, E>, empty: E)
    requires 0 < n <= |lines| && ReadLines(lines[..n], header, entry, empty).Err?
    ensures ReadLines(lines, header, entry, empty) == ReadLines(lines[..n], header, entry, empty)
  {
    assert lines[..n][0] == lines[0];
    assert lines[..n][1..] == lines[1..][..n - 1];
    if header(lines[0]).Ok? {
      ErrorSticks(lines[1..], n - 1, entry);
    }
  }

  /** An error in the first lines is the error of the whole file. */
  lemma FirstErrorCounts(lines: seq<string>, seen: seq<string>)
    requires seen != [] && seen <= lines && ParseLines(seen).Err?
    ensures ParseLines(lines) == ParseLines(seen)
  {
    assert seen == lines[..|seen|];
    LineErrorSticks(lines, |seen|, ParseHeader, ParseEntry, NoBindAddress);
  }

  method ParseHeaderLine(line: string) returns (r: Result<NetworkConfig, ConfigError>)
    ensures r == ParseLines([line])
  {
    var columns := Split(line, ' ');
    var bind := ParseAddresses(columns[0]);
    if bind.Err? {
      return Err(BadBindAddress(bind.error));
    }
    var networkDns: seq<Ip> := [];
    if |columns| > 1 {
      var dns := ParseAddresses(columns[1]);
      if dns.Err? {
        return Err(BadNetworkDns(dns.error));
      }
      networkDns := dns.value;
    }
    return Ok(NetworkConfig(bind.value, [], networkDns));
  }

  method ParseEntryLine(line: string, ctrs: seq<CtrEntry>, ghost seen: seq<string>)
    returns (r: Result<seq<CtrEntry>, ConfigError>)
    requires seen != [] && ParseLines(seen).Ok? && ParseLines(seen).value.entries == ctrs
    ensures ParseLines(seen + [line]) ==
            if r.Ok? then Ok(ParseLines(seen).value.(entries := r.value)) else Err(r.error)
  {
    AppendLine(seen, line, ParseHeader, ParseEntry, NoBindAddress);
    var entry := ParseEntry(line);
    if entry.Err? {
      return Err(entry.error);
    }
    return Ok(ctrs + [entry.value]);
  }

  method ParseConfig(content: string) returns (r: Result<NetworkConfig, ConfigError>)
    ensures r == ParseText(content)
  {
    var isFirst := true;
    var bindAddrs: seq<Ip> := [];
    var networkDns: seq<Ip> := [];
    var ctrs: seq<CtrEntry> := [];
    var lines := Split(content, '\n');
    ghost var seen: seq<string> := [];
    for i := 0 to |lines|
      invariant seen == NonBlank(lines[..i])
      invariant isFirst <==> seen == []
      invariant !isFirst ==> ParseLines(seen) == Ok(NetworkConfig(bindAddrs, ctrs, networkDns))
    {
      var line := lines[i];
      assert lines[..i + 1][..i] == lines[..i];
      NonBlankPrefix(lines, i + 1);
      if line == "" {
        assert NonBlank(lines[..i + 1]) == seen;
        continue;
      }
      ghost var before := seen;
      seen := seen + [line];
      if isFirst {
        assert seen == [line];
        var header := ParseHeaderLine(line);
        if header.Err? {
          FirstErrorCounts(NonBlank(lines), seen);
          return Err(header.error);
        }
        bindAddrs, networkDns, ctrs := header.value.bindIps, header.value.dnsServers, header.value.entries;
        isFirst := false;
        continue;
      }
      var entries := ParseEntryLine(line, ctrs, before);
      if entries.Err? {
        FirstErrorCounts(NonBlank(lines), seen);
        return Err(entries.error);
      }
      ctrs := entries.value;
    }
    assert lines[..|lines|] == lines;
    if isFirst {
      return Err(NoBindAddress);
    }
    return Ok(NetworkConfig(bindAddrs, ctrs, networkDns));
  }
}
