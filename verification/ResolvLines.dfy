/** What the lines of the host's resolver file mean. */
module ResolvLines {
  import opened Wrappers
  import opened Text
  import opened Address
  import opened Collect
  import opened ResolvConf

  /** White space within a line. */
  predicate Blank(c: char)
  {
    c in [' ', '\t', 11 as char, 12 as char, '\r']
  }

  predicate Blanks(s: string)
  {
    forall c | c in s :: Blank(c)
  }

  /** One word: no white space, and no start of a comment. */
  predicate Word(s: string)
  {
    s != "" && forall c | c in s :: !Blank(c) && c != '\n' && c != '#' && c != ';'
  }

  /** Nothing, or something that ends a word. */
  predicate Tail(s: string)
  {
    '\n' !in s && (s == "" || Blank(s[0]) || s[0] == '#' || s[0] == ';')
  }

  // ----------------------------------------------------------------- words

  lemma BlankIs(c: char)
    requires c != '\n'
    ensures Blank(c) <==> IsBlank(c)
  {
  }

  lemma {:induction false} BeforePlain(a: string, b: string, kind: char -> bool)
    requires forall c | c in a :: !kind(c)
    requires b == "" || kind(b[0])
    ensures Before(a + b, kind) == a
  {
    if a == "" {
      assert a + b == b;
    } else {
      assert (a + b)[1..] == a[1..] + b;
      BeforePlain(a[1..], b, kind);
    }
  }

  lemma {:induction false} BeforePrefix(a: string, b: string, kind: char -> bool)
    requires forall c | c in a :: !kind(c)
    ensures Before(a + b, kind) == a + Before(b, kind)
  {
    if a == "" {
      assert a + b == b;
    } else {
      assert (a + b)[1..] == a[1..] + b;
      BeforePrefix(a[1..], b, kind);
      assert a == [a[0]] + a[1..];
    }
  }

  lemma {:induction false} SkipBlanks(a: string, b: string)
    requires Blanks(a) && '\n' !in a
    ensures Words(a + b) == Words(b)
  {
    if a == "" {
      assert a + b == b;
    } else {
      BlankIs(a[0]);
      assert (a + b)[1..] == a[1..] + b;
      SkipBlanks(a[1..], b);
    }
  }

  lemma OneWord(w: string, rest: string)
    requires Word(w) && (rest == "" || IsBlank(rest[0]))
    ensures Words(w + rest) == [w] + Words(rest)
  {
    forall c | c in w
      ensures !IsBlank(c)
    {
      BlankIs(c);
    }
    BeforePlain(w, rest, IsBlank);
    assert (w + rest)[0] == w[0];
    assert (w + rest)[|w|..] == rest;
  }

  lemma CommentFree(s: string)
    requires Blanks(s) || Word(s)
    ensures forall c | c in s :: !IsComment(c)
  {
  }

  // ----------------------------------------------------------------- lines

  lemma OneLine(line: string, index: string -> Option<nat>)
    requires '\n' !in line
    ensures Untruncated(line, index) == ParseLine(line, index)
  {
    SplitWhole(line, '\n');
    assert [line][..0] == [];
    if ParseLine(line, index).Ok? {
      assert [] + ParseLine(line, index).value == ParseLine(line, index).value;
    }
  }

  lemma TailWords(tail: string)
    requires Tail(tail)
    ensures var rest := Before(tail, IsComment); rest == "" || IsBlank(rest[0])
  {
    if tail != "" {
      BlankIs(tail[0]);
    }
  }

  /** The words of a line that starts with one word, and no comment before it. */
  lemma FirstWord(before: string, w: string, tail: string)
    requires Blanks(before) && '\n' !in before && Word(w) && Tail(tail)
    ensures Words(Before(before + w + tail, IsComment)) == [w] + Words(Before(tail, IsComment))
  {
    CommentFree(before);
    CommentFree(w);
    BeforePrefix(before + w, tail, IsComment);
    var rest := Before(tail, IsComment);
    assert before + w + rest == before + (w + rest);
    SkipBlanks(before, w + rest);
    TailWords(tail);
    OneWord(w, rest);
  }

  lemma SecondWord(between: string, v: string, tail: string)
    requires between != "" && Blanks(between) && '\n' !in between && Word(v) && Tail(tail)
    ensures Tail(between + v + tail)
    ensures Words(Before(between + v + tail, IsComment)) == [v] + Words(Before(tail, IsComment))
  {
    FirstWord(between, v, tail);
    assert (between + v + tail)[0] == between[0];
  }

  /** A line with two words or more. */
  lemma TwoWords(before: string, w: string, between: string, v: string, tail: string)
    requires Blanks(before) && '\n' !in before && Word(w)
    requires between != "" && Blanks(between) && '\n' !in between && Word(v) && Tail(tail)
    ensures Words(Before(before + w + (between + v + tail), IsComment)) == [w, v] + Words(Before(tail, IsComment))
  {
    SecondWord(between, v, tail);
    FirstWord(before, w, between + v + tail);
    assert [w] + ([v] + Words(Before(tail, IsComment))) == [w, v] + Words(Before(tail, IsComment));
  }

  /** Text that may stand on a server line before and after its two words. */
  predicate Around(before: string, between: string, tail: string)
  {
    && Blanks(before) && '\n' !in before
    && between != "" && Blanks(between) && '\n' !in between
    && Tail(tail)
  }

  function ServerLine(before: string, between: string, word: string, tail: string): string
  {
    before + "nameserver" + (between + word + tail)
  }

  lemma ServerLineRead(before: string, between: string, word: string, tail: string, index: string -> Option<nat>)
    requires Around(before, between, tail) && Word(word)
    ensures Untruncated(ServerLine(before, between, word, tail), index) ==
            match ParseServer(word, index) case Ok(addr) => Ok([addr]) case Err(e) => Err(e)
  {
    TwoWords(before, "nameserver", between, word, tail);
    OneLine(ServerLine(before, between, word, tail), index);
  }

  /** A line `nameserver` with a word gives the address that the word is, on port
      53, and is an error if the word is none. */
  lemma ServerOnLine(before: string, between: string, word: string, tail: string, index: string -> Option<nat>)
    requires Around(before, between, tail) && Word(word) && '%' !in word
    ensures Nameservers(ServerLine(before, between, word, tail), index) ==
            match ParseIp(word)
            case Some(ip) => Ok([SocketAddr(ip, 53, 0)])
            case None => Err(ResolvError.BadAddress(word))
  {
    ServerLineRead(before, between, word, tail, index);
    NoZone(word);
  }

  lemma NoZone(word: string)
    requires '%' !in word
    ensures Before(word, c => c == '%') == word
  {
    BeforePlain(word, "", c => c == '%');
    assert word + "" == word;
  }

  /** In particular every address is read back. */
  lemma AddressOnLine(before: string, between: string, ip: Ip, tail: string, index: string -> Option<nat>)
    requires Around(before, between, tail)
    ensures Nameservers(ServerLine(before, between, RenderIp(ip), tail), index) == Ok([SocketAddr(ip, 53, 0)])
  {
    IpRoundTrip(ip);
    IpWord(ip);
    ServerOnLine(before, between, RenderIp(ip), tail, index);
  }

  lemma IpWord(ip: Ip)
    ensures Word(RenderIp(ip)) && '%' !in RenderIp(ip)
  {
    var text := RenderIp(ip);
    forall c | c in text
      ensures !Blank(c) && c != '\n' && c != '#' && c != ';' && c != '%'
    {
      IpTextPlain(ip, c);
      IpChar(c);
    }
    EmptyIsNoIp();
    IpRoundTrip(ip);
  }

  lemma IpChar(c: char)
    requires HexValue(c).Some? || c == '.' || c == ':'
    ensures !Blank(c) && c != '\n' && c != '#' && c != ';' && c != '%'
  {
  }

  lemma EmptyIsNoIp()
    ensures ParseIp("") == None
  {
    NoDotNoQuad("");
    assert Split("", ':') == [""];
    assert ParseGroup("").None?;
  }

  // ----------------------------------------------------------------- zones

  /** A number of 32 bits in decimal digits. */
  predicate IsNumber(zone: string, n: nat)
  {
    zone != "" && zone[0] != '+' && Number(zone, 10) == Some(n) && n < 0x1_0000_0000
  }

  /** The number of a zone: itself, with or without a plus sign, or that of the
      interface it names. */
  ghost predicate ZoneIs(zone: string, scope: Option<nat>, index: string -> Option<nat>)
  {
    || (exists n :: scope == Some(n) && (IsNumber(zone, n) || (zone != "" && zone[0] == '+' && IsNumber(zone[1..], n))))
    || (scope == index(zone) &&
        forall n :: !IsNumber(zone, n) && (zone != "" && zone[0] == '+' ==> !IsNumber(zone[1..], n)))
  }

  function Zone(zone: string, index: string -> Option<nat>): Option<nat>
  {
    if ParseU32(zone).Some? then ParseU32(zone) else index(zone)
  }

  lemma PlusIsNoDigit(s: string)
    requires s != "" && s[0] == '+'
    ensures Number(s, 10) == None
  {
    NumberDigits(s, 10);
    assert s[0] in s;
  }

  lemma ZoneExactly(zone: string, index: string -> Option<nat>)
    ensures ZoneIs(zone, Zone(zone, index), index)
  {
    if zone != "" && zone[0] == '+' {
      if zone[1..] != "" && zone[1] == '+' {
        PlusIsNoDigit(zone[1..]);
      }
    }
    if ParseU32(zone).Some? {
      var n := ParseU32(zone).value;
      assert IsNumber(zone, n) || (zone != "" && zone[0] == '+' && IsNumber(zone[1..], n));
    }
  }

  /** With a zone, an IPv6 address gets its number, and an IPv4 address is
      refused; a zone without a number is refused first. */
  lemma ZoneOnLine(
    before: string, between: string, host: string, zone: string, tail: string, index: string -> Option<nat>)
    returns (scope: Option<nat>)
    requires Around(before, between, tail) && Word(host + "%" + zone) && '%' !in host
    ensures ZoneIs(zone, scope, index)
    ensures Nameservers(ServerLine(before, between, host + "%" + zone, tail), index) ==
            if scope.None? then Err(UnknownScope(zone))
            else match ParseIp(host)
                 case Some(V4(_)) => Err(ScopeOnV4)
                 case Some(V6(g)) => Ok([SocketAddr(V6(g), 53, scope.value)])
                 case None => Err(ResolvError.BadAddress(host))
  {
    scope := Zone(zone, index);
    ZoneExactly(zone, index);
    ServerLineRead(before, between, host + "%" + zone, tail, index);
    ServerWithZone(host, zone, index);
  }

  lemma ServerWithZone(host: string, zone: string, index: string -> Option<nat>)
    requires '%' !in host
    ensures ParseServer(host + "%" + zone, index) ==
            var scope := Zone(zone, index);
            if scope.None? then Err(UnknownScope(zone))
            else match ParseIp(host)
                 case Some(V4(_)) => Err(ScopeOnV4)
                 case Some(V6(g)) => Ok(SocketAddr(V6(g), 53, scope.value))
                 case None => Err(ResolvError.BadAddress(host))
  {
    var word := host + "%" + zone;
    assert word == host + ("%" + zone);
    BeforePlain(host, "%" + zone, c => c == '%');
    assert word[|host|..] == "%" + zone;
    assert ("%" + zone)[1..] == zone;
  }

  // ------------------------------------------------------------ other lines

  /** A line whose first word is another gives nothing, whatever follows; */
  lemma OtherWord(before: string, w: string, tail: string, index: string -> Option<nat>)
    requires Blanks(before) && '\n' !in before && Word(w) && Tail(tail) && w != "nameserver"
    ensures Nameservers(before + w + tail, index) == Ok([])
  {
    FirstWord(before, w, tail);
    OneLine(before + w + tail, index);
  }

  /** nor does one without a second word, */
  lemma AloneOnLine(before: string, after: string, comment: string, index: string -> Option<nat>)
    requires Blanks(before) && '\n' !in before && Blanks(after) && '\n' !in after
    requires comment == "" || ('\n' !in comment && (comment[0] == '#' || comment[0] == ';'))
    ensures Nameservers(before + "nameserver" + (after + comment), index) == Ok([])
  {
    FirstWord(before, "nameserver", after + comment);
    BlanksOnly(after, comment);
    OneLine(before + "nameserver" + (after + comment), index);
  }

  lemma BlanksOnly(after: string, comment: string)
    requires Blanks(after) && '\n' !in after
    requires comment == "" || (comment[0] == '#' || comment[0] == ';')
    ensures Words(Before(after + comment, IsComment)) == []
  {
    CommentFree(after);
    BeforePlain(after, comment, IsComment);
    SkipBlanks(after, "");
    assert after + "" == after;
  }

  /** nor a line of white space, with or without a comment. */
  lemma NothingOnLine(after: string, comment: string, index: string -> Option<nat>)
    requires Blanks(after) && '\n' !in after
    requires comment == "" || ('\n' !in comment && (comment[0] == '#' || comment[0] == ';'))
    ensures Nameservers(after + comment, index) == Ok([])
  {
    BlanksOnly(after, comment);
    OneLine(after + comment, index);
  }

  // --------------------------------------------------------------- the file

  /** Of a file's servers, taken line by line, the first three count; and one
      line in error is enough to refuse the file. */
  lemma {:induction false} LinesRead(
    lines: seq<string>, parts: seq<seq<SocketAddr>>, index: string -> Option<nat>)
    requires |lines| == |parts| && lines != []
    requires forall i | 0 <= i < |lines| :: '\n' !in lines[i] && Untruncated(lines[i], index) == Ok(parts[i])
    ensures Untruncated(Join(lines, "\n"), index) == Ok(Gather(parts, Whole()))
  {
    var n := |lines| - 1;
    if n == 0 {
      assert Gather(parts, Whole()) == parts[0];
    } else {
      LinesRead(lines[..n], parts[..n], index);
      LastLineJoined(lines, n, index);
    }
  }

  lemma LastLineJoined(lines: seq<string>, n: nat, index: string -> Option<nat>)
    requires n > 0 && |lines| == n + 1
    ensures Untruncated(Join(lines, "\n"), index) ==
            Both(Untruncated(Join(lines[..n], "\n"), index), Untruncated(lines[n], index))
  {
    LastJoined(lines, n);
    JoinedUntruncated(Join(lines[..n], "\n"), lines[n], index);
  }

  lemma LastJoined(lines: seq<string>, n: nat)
    requires n > 0 && |lines| == n + 1
    ensures Join(lines, "\n") == Join(lines[..n], "\n") + "\n" + lines[n]
  {
    assert lines == lines[..n] + [lines[n]];
    JoinSnoc(lines[..n], lines[n], "\n");
  }

  function Whole(): seq<SocketAddr> -> seq<SocketAddr>
  {
    (s: seq<SocketAddr>) => s
  }

  lemma {:induction false} Singles(addrs: seq<SocketAddr>)
    ensures Gather(seq(|addrs|, i requires 0 <= i < |addrs| => [addrs[i]]), Whole()) == addrs
  {
    if addrs != [] {
      var n := |addrs| - 1;
      var init := addrs[..n];
      Singles(init);
      var parts := seq(|addrs|, i requires 0 <= i < |addrs| => [addrs[i]]);
      assert parts[..n] == seq(|init|, i requires 0 <= i < |init| => [init[i]]);
      assert addrs == init + [addrs[n]];
    }
  }

  /** A file of server lines gives the first three of their servers, in order. */
  lemma FirstThree(lines: seq<string>, addrs: seq<SocketAddr>, index: string -> Option<nat>)
    requires |lines| == |addrs| && lines != []
    requires forall i | 0 <= i < |lines| :: '\n' !in lines[i] && Nameservers(lines[i], index) == Ok([addrs[i]])
    ensures Nameservers(Join(lines, "\n"), index) == Ok(if |addrs| <= 3 then addrs else addrs[..3])
  {
    var parts := seq(|addrs|, i requires 0 <= i < |addrs| => [addrs[i]]);
    forall i | 0 <= i < |lines|
      ensures Untruncated(lines[i], index) == Ok(parts[i])
    {
      assert Nameservers(lines[i], index) == Ok([addrs[i]]);
      OnlyOne(lines[i], addrs[i], index);
    }
    LinesRead(lines, parts, index);
    Singles(addrs);
  }

  lemma OnlyOne(line: string, addr: SocketAddr, index: string -> Option<nat>)
    requires Nameservers(line, index) == Ok([addr])
    ensures Untruncated(line, index) == Ok([addr])
  {
    var all := Untruncated(line, index).value;
    assert |Truncate(all)| == 1;
  }

  /** A comment is as good as nothing. */
  lemma CommentDropped(prefix: string, comment: string, index: string -> Option<nat>)
    requires comment != "" && '\n' !in comment && (comment[0] == '#' || comment[0] == ';')
    ensures Untruncated(prefix + comment, index) == Untruncated(prefix, index)
  {
    var before, line := LastLine(prefix);
    CommentOffLine(line, comment, index);
    if before.Some? {
      OnLastLine(before.value, line, comment);
      JoinedUntruncated(before.value, line + comment, index);
      JoinedUntruncated(before.value, line, index);
    }
  }

  lemma OnLastLine(before: string, line: string, comment: string)
    ensures before + "\n" + line + comment == before + "\n" + (line + comment)
  {
  }

  lemma CommentOffLine(line: string, comment: string, index: string -> Option<nat>)
    requires '\n' !in line && '\n' !in comment && comment != "" && IsComment(comment[0])
    ensures Untruncated(line + comment, index) == Untruncated(line, index)
  {
    OneLine(line, index);
    OneLine(line + comment, index);
    BeforeComment(line, comment);
  }

  lemma {:induction false} BeforeComment(line: string, comment: string)
    requires comment != "" && IsComment(comment[0])
    ensures Before(line + comment, IsComment) == Before(line, IsComment)
  {
    if line == "" {
      assert line + comment == comment;
    } else {
      assert (line + comment)[1..] == line[1..] + comment;
      BeforeComment(line[1..], comment);
    }
  }
}
