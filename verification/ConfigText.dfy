/** The documented text form of a network's configuration, as a printer, and the
    proof that printing and parsing are inverse on well-formed configurations,
    which are exactly those that parsing yields. */
module ConfigText {
  import opened Wrappers
  import opened Text
  import opened Address
  import opened Config

  // ----------------------------------------------------------- well-formed

  predicate Free(s: string, separators: set<char>)
  {
    forall c | c in separators :: c !in s
  }

  predicate WellFormedEntry(e: CtrEntry)
  {
    && Free(e.id, {' ', '\n'}) && IsLower(e.id)
    && (e.v4.Some? ==> e.v4.value != [])
    && (e.v6.Some? ==> e.v6.value != [])
    && (e.dnsServers.Some? ==> e.dnsServers.value != [])
    && e.aliases != []
    && forall i | 0 <= i < |e.aliases| :: Free(e.aliases[i], {' ', ',', '\n'}) && IsLower(e.aliases[i])
  }

  /** At least one bind address, no empty list that is present, lower-case
      names without separators. */
  predicate WellFormed(config: NetworkConfig)
  {
    && config.bindIps != []
    && forall i | 0 <= i < |config.entries| :: WellFormedEntry(config.entries[i])
  }

  // -------------------------------------------------------------- printing

  function Texts<T>(items: seq<T>, render: T -> string): (r: seq<string>)
    ensures |r| == |items|
    ensures forall i | 0 <= i < |items| :: r[i] == render(items[i])
  {
    seq(|items|, i requires 0 <= i < |items| => render(items[i]))
  }

  function Commas<T>(items: seq<T>, render: T -> string): string
  {
    Join(Texts(items, render), ",")
  }

  function OptionalCommas<T>(items: Option<seq<T>>, render: T -> string): string
  {
    match items
    case Some(present) => Commas(present, render)
    case None => ""
  }

  function HeaderColumns(config: NetworkConfig): seq<string>
  {
    [Commas(config.bindIps, RenderIp)] +
    (if config.dnsServers == [] then [] else [Commas(config.dnsServers, RenderIp)])
  }

  function EntryColumns(e: CtrEntry): seq<string>
  {
    [e.id, OptionalCommas(e.v4, RenderV4), OptionalCommas(e.v6, RenderV6), Join(e.aliases, ",")] +
    (if e.dnsServers.None? then [] else [Commas(e.dnsServers.value, RenderIp)])
  }

  function PrintEntry(e: CtrEntry): string
  {
    Join(EntryColumns(e), " ")
  }

  function PrintLines(config: NetworkConfig): seq<string>
  {
    [Join(HeaderColumns(config), " ")] + Texts(config.entries, PrintEntry)
  }

  function Print(config: NetworkConfig): string
  {
    Join(PrintLines(config), "\n")
  }

  // --------------------------------------------------------- comma columns

  /** `parse` reads back what `render` writes, which is not empty and holds
      none of the separators. */
  ghost predicate Inverse<T(!new)>(parse: string -> Option<T>, render: T -> string)
  {
    forall x :: parse(render(x)) == Some(x) && render(x) != "" && Free(render(x), {' ', ',', '\n'})
  }

  lemma IpTextFree(ip: Ip)
    ensures RenderIp(ip) != "" && Free(RenderIp(ip), {' ', ',', '\n'})
  {
    forall c | c in {' ', ',', '\n'}
      ensures c !in RenderIp(ip)
    {
      if c in RenderIp(ip) { IpTextPlain(ip, c); }
    }
    IpRoundTrip(ip);
    assert ParseIp("").None? by {
      NoDotNoQuad("");
      assert Split("", ':') == [""];
      assert ParseGroup("").None?;
    }
  }

  lemma Inverses()
    ensures Inverse(ParseIp, RenderIp)
    ensures Inverse(ParseV4, RenderV4)
    ensures Inverse(ParseV6, RenderV6)
  {
    forall ip: Ip
      ensures ParseIp(RenderIp(ip)) == Some(ip) && RenderIp(ip) != "" && Free(RenderIp(ip), {' ', ',', '\n'})
    {
      IpRoundTrip(ip);
      IpTextFree(ip);
    }
    forall o: Octets
      ensures ParseV4(RenderV4(o)) == Some(o) && RenderV4(o) != "" && Free(RenderV4(o), {' ', ',', '\n'})
    {
      V4RoundTrip(RenderV4(o), o);
      IpTextFree(V4(o));
    }
    forall g: Groups
      ensures ParseV6(RenderV6(g)) == Some(g) && RenderV6(g) != "" && Free(RenderV6(g), {' ', ',', '\n'})
    {
      V6RoundTrip(g);
      IpTextFree(V6(g));
    }
  }

  lemma {:induction false} TryEachTexts<T, E>(items: seq<T>, texts: seq<string>, read: string -> Result<T, E>)
    requires |texts| == |items|
    requires forall i | 0 <= i < |items| :: read(texts[i]) == Ok(items[i])
    ensures TryEach(texts, read) == Ok(items)
  {
    if items == [] {
    } else {
      var n := |items| - 1;
      TryEachTexts(items[..n], texts[..n], read);
      assert items == items[..n] + [items[n]];
    }
  }

  /** A comma-separated column is read back, and keeps free of blanks. */
  lemma CommasRoundTrip<T(!new)>(items: seq<T>, parse: string -> Option<T>, render: T -> string)
    requires items != [] && Inverse(parse, render)
    ensures ParseEach(Split(Commas(items, render), ','), parse) == Ok(items)
    ensures Commas(items, render) != ""
    ensures Free(Commas(items, render), {' ', '\n'})
  {
    var texts := Texts(items, render);
    SplitJoin(texts, ',');
    TryEachTexts(items, texts, OrText(parse));
    assert texts[0] != "";
    forall c | c in {' ', '\n'}
      ensures c !in Join(texts, ",")
    {
      if c in Join(texts, ",") { JoinChars(texts, ",", c); }
    }
  }

  lemma ColumnRoundTrip<T(!new)>(items: Option<seq<T>>, parse: string -> Option<T>, render: T -> string)
    requires items.Some? ==> items.value != []
    requires Inverse(parse, render)
    ensures ParseColumn(OptionalCommas(items, render), parse) == Ok(items)
    ensures Free(OptionalCommas(items, render), {' ', '\n'})
  {
    if items.Some? {
      CommasRoundTrip(items.value, parse, render);
    }
  }

  // ------------------------------------------------------------ round trip

  lemma FreeJoin(parts: seq<string>, sep: string, separators: set<char>)
    requires forall i | 0 <= i < |parts| :: Free(parts[i], separators)
    requires Free(sep, separators)
    ensures Free(Join(parts, sep), separators)
  {
    forall c | c in separators
      ensures c !in Join(parts, sep)
    {
      if c in Join(parts, sep) { JoinChars(parts, sep, c); }
    }
  }

  lemma IpsRoundTrip(ips: seq<Ip>)
    requires ips != []
    ensures ParseEach(Split(Commas(ips, RenderIp), ','), ParseIp) == Ok(ips)
    ensures Commas(ips, RenderIp) != "" && Free(Commas(ips, RenderIp), {' ', '\n'})
  {
    Inverses();
    CommasRoundTrip(ips, ParseIp, RenderIp);
  }

  lemma HeaderRoundTrip(config: NetworkConfig)
    requires WellFormed(config)
    ensures ParseHeader(Join(HeaderColumns(config), " ")) == Ok((config.bindIps, config.dnsServers))
    ensures Join(HeaderColumns(config), " ") != ""
    ensures Free(Join(HeaderColumns(config), " "), {'\n'})
  {
    var columns := HeaderColumns(config);
    IpsRoundTrip(config.bindIps);
    if config.dnsServers != [] {
      IpsRoundTrip(config.dnsServers);
    }
    SplitJoin(columns, ' ');
    FreeJoin(columns, " ", {'\n'});
  }

  lemma LowerAllSame(names: seq<string>)
    requires forall i | 0 <= i < |names| :: IsLower(names[i])
    ensures LowerAll(names) == names
  {
  }

  /** The columns of addresses are read back and keep free of blanks. */
  lemma AddressColumns(e: CtrEntry)
    requires WellFormedEntry(e)
    ensures ParseColumn(OptionalCommas(e.v4, RenderV4), ParseV4) == Ok(e.v4)
    ensures ParseColumn(OptionalCommas(e.v6, RenderV6), ParseV6) == Ok(e.v6)
    ensures ParseColumn(OptionalCommas(e.dnsServers, RenderIp), ParseIp) == Ok(e.dnsServers)
    ensures Free(OptionalCommas(e.v4, RenderV4), {' ', '\n'})
    ensures Free(OptionalCommas(e.v6, RenderV6), {' ', '\n'})
    ensures Free(OptionalCommas(e.dnsServers, RenderIp), {' ', '\n'})
  {
    Inverses();
    ColumnRoundTrip(e.v4, ParseV4, RenderV4);
    ColumnRoundTrip(e.v6, ParseV6, RenderV6);
    ColumnRoundTrip(e.dnsServers, ParseIp, RenderIp);
  }

  lemma EntryColumnsFree(e: CtrEntry)
    requires WellFormedEntry(e)
    ensures forall i | 0 <= i < |EntryColumns(e)| :: Free(EntryColumns(e)[i], {' ', '\n'})
  {
    AddressColumns(e);
    FreeJoin(e.aliases, ",", {' ', '\n'});
  }

  lemma EntryRoundTrip(e: CtrEntry)
    requires WellFormedEntry(e)
    ensures ParseEntry(PrintEntry(e)) == Ok(e)
    ensures PrintEntry(e) != ""
    ensures Free(PrintEntry(e), {'\n'})
  {
    var columns := EntryColumns(e);
    AddressColumns(e);
    EntryColumnsFree(e);
    SplitColumns(columns);
    SplitJoin(e.aliases, ',');
    LowerAllSame(e.aliases);
  }

  lemma SplitColumns(columns: seq<string>)
    requires |columns| >= 2 && forall i | 0 <= i < |columns| :: Free(columns[i], {' ', '\n'})
    ensures Split(Join(columns, " "), ' ') == columns
    ensures Join(columns, " ") != "" && Free(Join(columns, " "), {'\n'})
  {
    SplitJoin(columns, ' ');
    FreeJoin(columns, " ", {'\n'});
  }

  lemma {:induction false} NonBlankAll(lines: seq<string>)
    requires forall i | 0 <= i < |lines| :: lines[i] != ""
    ensures NonBlank(lines) == lines
  {
    if lines != [] {
      NonBlankAll(lines[..|lines| - 1]);
    }
  }

  lemma EntriesRoundTrip(entries: seq<CtrEntry>)
    requires forall i | 0 <= i < |entries| :: WellFormedEntry(entries[i])
    ensures TryEach(Texts(entries, PrintEntry), ParseEntry) == Ok(entries)
    ensures forall i | 0 <= i < |entries| ::
              Texts(entries, PrintEntry)[i] != "" && Free(Texts(entries, PrintEntry)[i], {'\n'})
  {
    forall i | 0 <= i < |entries|
      ensures ParseEntry(PrintEntry(entries[i])) == Ok(entries[i])
      ensures PrintEntry(entries[i]) != "" && Free(PrintEntry(entries[i]), {'\n'})
    {
      EntryRoundTrip(entries[i]);
    }
    TryEachTexts(entries, Texts(entries, PrintEntry), ParseEntry);
  }

  lemma LinesRoundTrip(config: NetworkConfig)
    requires WellFormed(config)
    ensures ParseLines(PrintLines(config)) == Ok(config)
    ensures forall i | 0 <= i < |PrintLines(config)| ::
              PrintLines(config)[i] != "" && Free(PrintLines(config)[i], {'\n'})
  {
    HeaderRoundTrip(config);
    EntriesRoundTrip(config.entries);
    ReadBack(Join(HeaderColumns(config), " "), Texts(config.entries, PrintEntry), config,
             ParseHeader, ParseEntry, NoBindAddress);
  }

  lemma ReadBack<E>(
    first: string, rest: seq<string>, config: NetworkConfig,
    header: string -> Result<(seq<Ip>, seq<Ip>), E>, entry: string -> Result<CtrEntry, E>, empty: E)
    requires header(first) == Ok((config.bindIps, config.dnsServers))
    requires TryEach(rest, entry) == Ok(config.entries)
    ensures ReadLines([first] + rest, header, entry, empty) == Ok(config)
  {
    assert ([first] + rest)[1..] == rest;
  }

  /** Parsing the printed form of a well-formed configuration returns it. */
  lemma PrintParse(config: NetworkConfig)
    requires WellFormed(config)
    ensures ParseText(Print(config)) == Ok(config)
  {
    LinesRoundTrip(config);
    LinesSurvive(PrintLines(config));
  }

  lemma LinesSurvive(lines: seq<string>)
    requires |lines| >= 1 && forall i | 0 <= i < |lines| :: lines[i] != "" && Free(lines[i], {'\n'})
    ensures NonBlank(Split(Join(lines, "\n"), '\n')) == lines
  {
    SplitJoin(lines, '\n');
    NonBlankAll(lines);
  }

  // --------------------------------------------- what parsing can return

  lemma SplitFree(s: string, c: char, separators: set<char>)
    requires Free(s, separators)
    ensures forall i | 0 <= i < |Split(s, c)| :: Free(Split(s, c)[i], separators + {c})
  {
    SplitPieces(s, c);
  }

  lemma {:induction false} TryEachMembers<T, E>(texts: seq<string>, read: string -> Result<T, E>)
    requires TryEach(texts, read).Ok?
    ensures |TryEach(texts, read).value| == |texts|
    ensures forall i | 0 <= i < |texts| :: read(texts[i]) == Ok(TryEach(texts, read).value[i])
  {
    if texts != [] {
      TryEachMembers(texts[..|texts| - 1], read);
    }
  }

  /** An error is that of the first text refused, after others were accepted. */
  lemma {:induction false} TryEachError<T, E>(texts: seq<string>, read: string -> Result<T, E>)
    ensures TryEach(texts, read).Err? <==> exists i :: 0 <= i < |texts| && read(texts[i]).Err?
    ensures TryEach(texts, read).Err? ==>
              exists i :: 0 <= i < |texts| && read(texts[i]).Err? &&
                          TryEach(texts, read) == Err(read(texts[i]).error) &&
                          forall j | 0 <= j < i :: read(texts[j]).Ok?
  {
    if texts != [] {
      var n := |texts| - 1;
      TryEachError(texts[..n], read);
      if TryEach(texts[..n], read).Err? {
        var i :| 0 <= i < n && read(texts[..n][i]).Err? &&
                 TryEach(texts[..n], read) == Err(read(texts[..n][i]).error) &&
                 forall j | 0 <= j < i :: read(texts[..n][j]).Ok?;
        assert read(texts[i]).Err?;
        assert forall j | 0 <= j < i :: texts[..n][j] == texts[j];
      } else {
        assert forall j | 0 <= j < n :: texts[..n][j] == texts[j];
      }
    }
  }

  lemma ColumnNotEmpty<T>(column: string, parse: string -> Option<T>)
    ensures ParseColumn(column, parse).Ok? && ParseColumn(column, parse).value.Some? ==>
              ParseColumn(column, parse).value.value != []
  {
    if column != "" && ParseEach(Split(column, ','), parse).Ok? {
      TryEachMembers(Split(column, ','), OrText(parse));
    }
  }

  lemma LowerFree(s: string, separators: set<char>)
    requires Free(s, separators) && separators <= {' ', ',', '\n'}
    ensures Free(Lower(s), separators) && IsLower(Lower(s))
  {
    forall c | c in separators
      ensures c !in Lower(s)
    {
      LowerKeeps(s, c);
    }
    LowerLaws(s, s);
  }

  lemma ParsedEntryIsWellFormed(line: string)
    requires Free(line, {'\n'}) && ParseEntry(line).Ok?
    ensures WellFormedEntry(ParseEntry(line).value)
  {
    var columns, e := Split(line, ' '), ParseEntry(line).value;
    SplitFree(line, ' ', {'\n'});
    LowerFree(columns[0], {' ', '\n'});
    ColumnNotEmpty(columns[1], ParseV4);
    ColumnNotEmpty(columns[2], ParseV6);
    ColumnNotEmpty(if |columns| == 5 then columns[4] else "", ParseIp);
    var names := Split(columns[3], ',');
    assert Free(columns[3], {' ', '\n'});
    SplitFree(columns[3], ',', {' ', '\n'});
    forall i | 0 <= i < |names|
      ensures Free(LowerAll(names)[i], {' ', ',', '\n'}) && IsLower(LowerAll(names)[i])
    {
      assert {' ', '\n'} + {','} == {' ', ',', '\n'};
      LowerFree(names[i], {' ', ',', '\n'});
    }
  }

  lemma HeaderBinds(line: string)
    ensures ParseHeader(line).Ok? ==> ParseHeader(line).value.0 != []
  {
    var first := Split(Split(line, ' ')[0], ',');
    if ParseEach(first, ParseIp).Ok? {
      TryEachMembers(first, OrText(ParseIp));
    }
  }

  lemma {:induction false} NonBlankFrom(lines: seq<string>)
    ensures forall i | 0 <= i < |NonBlank(lines)| :: NonBlank(lines)[i] in lines
  {
    if lines != [] {
      NonBlankFrom(lines[..|lines| - 1]);
    }
  }

  /** Whatever parses is well-formed: no list that is present is ever empty. */
  lemma ParsedIsWellFormed(content: string)
    requires ParseText(content).Ok?
    ensures WellFormed(ParseText(content).value)
  {
    var all := Split(content, '\n');
    var lines, config := NonBlank(all), ParseText(content).value;
    SplitPieces(content, '\n');
    NonBlankFrom(all);
    HeaderBinds(lines[0]);
    TryEachMembers(lines[1..], ParseEntry);
    forall i | 0 <= i < |config.entries|
      ensures WellFormedEntry(config.entries[i])
    {
      assert lines[1..][i] == lines[i + 1];
      ParsedEntryIsWellFormed(lines[1..][i]);
    }
  }

  /** The well-formed configurations are exactly those that some text has, and
      printing then parsing any parsed configuration changes nothing. */
  lemma WellFormedExactly(config: NetworkConfig)
    ensures WellFormed(config) <==> exists content :: ParseText(content) == Ok(config)
    ensures WellFormed(config) <==> ParseText(Print(config)) == Ok(config)
  {
    if WellFormed(config) {
      PrintParse(config);
    }
    forall content | ParseText(content) == Ok(config)
      ensures WellFormed(config)
    {
      ParsedIsWellFormed(content);
    }
  }
}
