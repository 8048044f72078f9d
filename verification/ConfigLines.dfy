/** What a configuration file says, line by line and column by column, as a
    relation between a text and a configuration. */
module ConfigLines {
  import opened Wrappers
  import opened Text
  import opened Address
  import opened Collect
  import opened Config
  import opened ConfigText

  // ----------------------------------------------------------- blank lines

  function Filled(): string -> seq<string>
  {
    line => if line == "" then [] else [line]
  }

  /** The lines that are not empty. */
  function FilledLines(content: string): seq<string>
  {
    Gather(Split(content, '\n'), Filled())
  }

  lemma {:induction false} NonBlankFilled(lines: seq<string>)
    ensures NonBlank(lines) == Gather(lines, Filled())
  {
    if lines != [] {
      NonBlankFilled(lines[..|lines| - 1]);
    }
  }

  lemma FilledJoined(a: string, b: string)
    ensures FilledLines(a + "\n" + b) == FilledLines(a) + FilledLines(b)
  {
    SplitConcat(a, b, '\n');
    GatherConcat(Split(a, '\n'), Split(b, '\n'), Filled());
  }

  lemma NothingFilled()
    ensures FilledLines("") == []
  {
    assert Split("", '\n') == [""];
    GatherSnoc([], "", Filled());
    assert [] + [""] == [""];
  }

  lemma SameLinesParse(s: string, t: string)
    requires FilledLines(s) == FilledLines(t)
    ensures ParseText(s) == ParseText(t)
  {
    NonBlankFilled(Split(s, '\n'));
    NonBlankFilled(Split(t, '\n'));
  }

  /** An empty line changes nothing, first, */
  lemma LeadingNewline(s: string)
    ensures ParseText("\n" + s) == ParseText(s)
  {
    assert "" + "\n" + s == "\n" + s;
    FilledJoined("", s);
    NothingFilled();
    SameLinesParse("\n" + s, s);
  }

  /** last, as in every text that ends in a newline, */
  lemma TrailingNewline(s: string)
    ensures ParseText(s + "\n") == ParseText(s)
  {
    FilledEnd(s);
    SameLinesParse(s + "\n", s);
  }

  /** or between two texts. */
  lemma DoubledNewline(a: string, b: string)
    ensures ParseText(a + "\n\n" + b) == ParseText(a + "\n" + b)
  {
    TwoNewlines(a, b);
    FilledEnd(a);
    FilledJoined(a + "\n", b);
    FilledJoined(a, b);
    SameLinesParse(a + "\n\n" + b, a + "\n" + b);
  }

  lemma TwoNewlines(a: string, b: string)
    ensures a + "\n\n" + b == a + "\n" + "\n" + b
  {
  }

  lemma FilledEnd(a: string)
    ensures FilledLines(a + "\n") == FilledLines(a)
  {
    assert a + "\n" + "" == a + "\n";
    FilledJoined(a, "");
    NothingFilled();
  }

  lemma PrintParseNewline(config: NetworkConfig)
    requires WellFormed(config)
    ensures ParseText(Print(config) + "\n") == Ok(config)
  {
    PrintParse(config);
    TrailingNewline(Print(config));
  }

  // --------------------------------------------------------------- columns

  /** The column is the items, separated by commas. */
  predicate Lists<T(==)>(column: string, items: seq<T>, parse: string -> Option<T>)
  {
    var pieces := Split(column, ',');
    |pieces| == |items| && forall i | 0 <= i < |items| :: parse(pieces[i]) == Some(items[i])
  }

  /** An empty column is no list. */
  predicate MayList<T(==)>(column: string, items: Option<seq<T>>, parse: string -> Option<T>)
  {
    match items
    case None => column == ""
    case Some(list) => column != "" && Lists(column, list, parse)
  }

  predicate IsHeader(line: string, bindIps: seq<Ip>, dnsServers: seq<Ip>)
  {
    var columns := Split(line, ' ');
    && Lists(columns[0], bindIps, ParseIp)
    && if |columns| > 1 then Lists(columns[1], dnsServers, ParseIp) else dnsServers == []
  }

  /** The identifier and the names in lower case; servers only in a fifth column
      that is the last. */
  predicate IsEntry(line: string, e: CtrEntry)
  {
    var columns := Split(line, ' ');
    && |columns| >= 4
    && e.id == Lower(columns[0])
    && MayList(columns[1], e.v4, ParseV4)
    && MayList(columns[2], e.v6, ParseV6)
    && e.aliases == LowerAll(Split(columns[3], ','))
    && if |columns| == 5 then MayList(columns[4], e.dnsServers, ParseIp) else e.dnsServers == None
  }

  lemma TryEachExactly<T, E>(texts: seq<string>, read: string -> Result<T, E>, items: seq<T>)
    ensures TryEach(texts, read) == Ok(items) <==>
            |texts| == |items| && forall i | 0 <= i < |items| :: read(texts[i]) == Ok(items[i])
  {
    if TryEach(texts, read) == Ok(items) {
      TryEachMembers(texts, read);
    }
    if |texts| == |items| && forall i | 0 <= i < |items| :: read(texts[i]) == Ok(items[i]) {
      TryEachTexts(items, texts, read);
    }
  }

  lemma ListsExactly<T>(column: string, items: seq<T>, parse: string -> Option<T>)
    ensures ParseEach(Split(column, ','), parse) == Ok(items) <==> Lists(column, items, parse)
  {
    var pieces := Split(column, ',');
    TryEachExactly(pieces, OrText(parse), items);
    forall i | 0 <= i < |pieces| && i < |items|
      ensures OrText(parse)(pieces[i]) == Ok(items[i]) <==> parse(pieces[i]) == Some(items[i])
    {
    }
  }

  lemma MayListExactly<T>(column: string, items: Option<seq<T>>, parse: string -> Option<T>)
    ensures ParseColumn(column, parse) == Ok(items) <==> MayList(column, items, parse)
  {
    if column != "" && items.Some? {
      ListsExactly(column, items.value, parse);
    }
  }

  lemma HeaderExactly(line: string, bindIps: seq<Ip>, dnsServers: seq<Ip>)
    ensures ParseHeader(line) == Ok((bindIps, dnsServers)) <==> IsHeader(line, bindIps, dnsServers)
  {
    var columns := Split(line, ' ');
    ListsExactly(columns[0], bindIps, ParseIp);
    if |columns| > 1 {
      ListsExactly(columns[1], dnsServers, ParseIp);
    }
  }

  lemma EntryExactly(line: string, e: CtrEntry)
    ensures ParseEntry(line) == Ok(e) <==> IsEntry(line, e)
  {
    var columns := Split(line, ' ');
    if |columns| >= 4 {
      MayListExactly(columns[1], e.v4, ParseV4);
      MayListExactly(columns[2], e.v6, ParseV6);
      MayListExactly(if |columns| == 5 then columns[4] else "", e.dnsServers, ParseIp);
    }
  }

  /** What a text is read as: of the lines that are not empty the first is the
      header and the others are the entries, in order. */
  lemma TextExactly(content: string, config: NetworkConfig)
    ensures ParseText(content) == Ok(config) <==>
            var lines := FilledLines(content);
            && |lines| == |config.entries| + 1
            && IsHeader(lines[0], config.bindIps, config.dnsServers)
            && forall i | 0 <= i < |config.entries| :: IsEntry(lines[i + 1], config.entries[i])
  {
    var lines := FilledLines(content);
    NonBlankFilled(Split(content, '\n'));
    if lines != [] {
      HeaderExactly(lines[0], config.bindIps, config.dnsServers);
      TryEachExactly(lines[1..], ParseEntry, config.entries);
      forall i | 0 <= i < |config.entries| && i + 1 < |lines|
        ensures ParseEntry(lines[1..][i]) == Ok(config.entries[i]) <==> IsEntry(lines[i + 1], config.entries[i])
      {
        EntryExactly(lines[i + 1], config.entries[i]);
      }
      LinesExactly(lines, config, ParseHeader, ParseEntry, NoBindAddress);
    }
  }

  lemma LinesExactly<E>(
    lines: seq<string>, config: NetworkConfig,
    header: string -> Result<(seq<Ip>, seq<Ip>), E>, entry: string -> Result<CtrEntry, E>, empty: E)
    requires lines != []
    ensures ReadLines(lines, header, entry, empty) == Ok(config) <==>
            && header(lines[0]) == Ok((config.bindIps, config.dnsServers))
            && TryEach(lines[1..], entry) == Ok(config.entries)
  {
  }

  // ---------------------------------------------------------------- errors

  /** The column is not empty and one of its pieces is refused. */
  predicate Bad<T(==)>(column: string, parse: string -> Option<T>)
  {
    column != "" && exists i :: 0 <= i < |Split(column, ',')| && parse(Split(column, ',')[i]) == None
  }

  /** The first piece of the column that is refused. */
  predicate FirstRefused<T(==)>(column: string, text: string, parse: string -> Option<T>)
  {
    var pieces := Split(column, ',');
    exists i :: 0 <= i < |pieces| && pieces[i] == text && parse(pieces[i]) == None &&
                forall j | 0 <= j < i :: parse(pieces[j]) != None
  }

  lemma EachRefused<T>(column: string, parse: string -> Option<T>)
    ensures var pieces, r := Split(column, ','), ParseEach(Split(column, ','), parse);
            && (r.Err? <==> exists i :: 0 <= i < |pieces| && parse(pieces[i]) == None)
            && (r.Err? ==> FirstRefused(column, r.error, parse))
  {
    var pieces, r := Split(column, ','), ParseEach(Split(column, ','), parse);
    TryEachError(pieces, OrText(parse));
    if i: int :| 0 <= i < |pieces| && parse(pieces[i]) == None {
      assert OrText(parse)(pieces[i]).Err?;
    }
    if r.Err? {
      var i :| 0 <= i < |pieces| && OrText(parse)(pieces[i]).Err? && r == Err(OrText(parse)(pieces[i]).error) &&
               forall j | 0 <= j < i :: OrText(parse)(pieces[j]).Ok?;
      assert pieces[i] == r.error && parse(pieces[i]) == None;
      forall j | 0 <= j < i
        ensures parse(pieces[j]) != None
      {
        assert OrText(parse)(pieces[j]).Ok?;
      }
    }
  }

  lemma BadExactly<T>(column: string, parse: string -> Option<T>)
    ensures ParseColumn(column, parse) == Err(column) <==> Bad(column, parse)
    ensures ParseColumn(column, parse).Err? <==> Bad(column, parse)
  {
    EachRefused(column, parse);
  }

  /** Which lines are refused as entries, and why: the first column at fault
      counts. */
  lemma EntryErrors(line: string)
    ensures var columns, r := Split(line, ' '), ParseEntry(line);
            if |columns| < 4 then r == Err(TooFewColumns(line))
            else if Bad(columns[1], ParseV4) then r == Err(BadAddress(columns[1]))
            else if Bad(columns[2], ParseV6) then r == Err(BadAddress(columns[2]))
            else if |columns| == 5 && Bad(columns[4], ParseIp) then r == Err(BadDnsServer(columns[4]))
            else r.Ok?
  {
    var columns := Split(line, ' ');
    if |columns| >= 4 {
      BadExactly(columns[1], ParseV4);
      BadExactly(columns[2], ParseV6);
      BadExactly(if |columns| == 5 then columns[4] else "", ParseIp);
    }
  }

  /** Why a line is refused as a header: the first address at fault counts, and
      the bind addresses come before the servers. */
  lemma HeaderErrors(line: string)
    requires ParseHeader(line).Err?
    ensures var columns := Split(line, ' ');
            match ParseHeader(line).error
            case BadBindAddress(text) => FirstRefused(columns[0], text, ParseIp)
            case BadNetworkDns(text) =>
              |columns| > 1 && FirstRefused(columns[1], text, ParseIp) && !Bad(columns[0], ParseIp)
            case _ => false
  {
    var columns := Split(line, ' ');
    EachRefused(columns[0], ParseIp);
    if |columns| > 1 {
      EachRefused(columns[1], ParseIp);
    }
  }

  /** The error of a text is that of its first line at fault, and a text without
      lines has no bind address. */
  lemma TextErrors(content: string)
    ensures var lines, r := FilledLines(content), ParseText(content);
            && (lines == [] ==> r == Err(NoBindAddress))
            && (lines != [] && ParseHeader(lines[0]).Err? ==> r == Err(ParseHeader(lines[0]).error))
            && (lines != [] && ParseHeader(lines[0]).Ok? && r.Err? ==>
                exists i :: 0 < i < |lines| && ParseEntry(lines[i]).Err? && r == Err(ParseEntry(lines[i]).error) &&
                            forall j | 0 < j < i :: ParseEntry(lines[j]).Ok?)
  {
    var lines, r := FilledLines(content), ParseText(content);
    NonBlankFilled(Split(content, '\n'));
    if lines != [] && ParseHeader(lines[0]).Ok? && r.Err? {
      var rest := lines[1..];
      TryEachError(rest, ParseEntry);
      var i :| 0 <= i < |rest| && ParseEntry(rest[i]).Err? &&
               TryEach(rest, ParseEntry) == Err(ParseEntry(rest[i]).error) &&
               forall j | 0 <= j < i :: ParseEntry(rest[j]).Ok?;
      assert lines[i + 1] == rest[i];
      forall j | 0 < j < i + 1
        ensures ParseEntry(lines[j]).Ok?
      {
        assert lines[j] == rest[j - 1];
      }
    }
  }

  // --------------------------------------------------------------- entries

  /** Columns after the fourth count only when there is exactly one of them:
      with six or more, they are ignored, servers and all. */
  lemma MoreColumns(columns: seq<string>)
    requires |columns| >= 6 && forall i | 0 <= i < |columns| :: ' ' !in columns[i]
    ensures ParseEntry(Join(columns, " ")) == ParseEntry(Join(columns[..4], " "))
  {
    SplitJoin(columns, ' ');
    SplitJoin(columns[..4], ' ');
    SameFour(Join(columns, " "), Join(columns[..4], " "));
  }

  lemma SameFour(p: string, q: string)
    requires |Split(p, ' ')| >= 4 && |Split(p, ' ')| != 5 && |Split(q, ' ')| == 4
    requires Split(p, ' ')[..4] == Split(q, ' ')[..4]
    ensures ParseEntry(p) == ParseEntry(q)
  {
    var a, b := Split(p, ' '), Split(q, ' ');
    assert a[0] == a[..4][0] == b[..4][0] == b[0];
    assert a[1] == a[..4][1] == b[..4][1] == b[1];
    assert a[2] == a[..4][2] == b[..4][2] == b[2];
    assert a[3] == a[..4][3] == b[..4][3] == b[3];
  }

  /** The identifier and the names are read in lower case. */
  lemma LowerCaseNames(id: string, v4: string, v6: string, names: string)
    requires ' ' !in id && ' ' !in v4 && ' ' !in v6 && ' ' !in names
    ensures var r := ParseEntry(Join([id, v4, v6, names], " "));
            r.Ok? ==>
              r.value.id == Lower(id) && r.value.aliases == LowerAll(Split(names, ',')) && r.value.dnsServers == None
    ensures ParseEntry(Join([Lower(id), v4, v6, Lower(names)], " ")) == ParseEntry(Join([id, v4, v6, names], " "))
  {
    LowerKeeps(id, ' ');
    LowerKeeps(names, ' ');
    SplitJoin([id, v4, v6, names], ' ');
    SplitJoin([Lower(id), v4, v6, Lower(names)], ' ');
    SameEntry(Join([id, v4, v6, names], " "), Join([Lower(id), v4, v6, Lower(names)], " "), id, v4, v6, names);
  }

  lemma SameEntry(p: string, q: string, id: string, v4: string, v6: string, names: string)
    requires Split(p, ' ') == [id, v4, v6, names] && Split(q, ' ') == [Lower(id), v4, v6, Lower(names)]
    ensures ParseEntry(p) == ParseEntry(q)
    ensures var r := ParseEntry(p);
            r.Ok? ==>
              r.value.id == Lower(id) && r.value.aliases == LowerAll(Split(names, ',')) && r.value.dnsServers == None
  {
    LowerLaws(id, "");
    LowerNames(names);
  }

  lemma LowerNames(names: string)
    ensures LowerAll(Split(Lower(names), ',')) == LowerAll(Split(names, ','))
  {
    SplitLower(names, ',');
    forall i | 0 <= i < |Split(names, ',')|
      ensures Lower(Lower(Split(names, ',')[i])) == Lower(Split(names, ',')[i])
    {
      LowerLaws(Split(names, ',')[i], "");
    }
  }
}
