/** The host's resolver file. */
module ResolvConf {
  import opened Wrappers
  import opened Text
  import opened Address

  datatype ResolvError = UnknownScope(name: string) | BadAddress(text: string) | ScopeOnV4

  const MAX_NAMESERVERS: nat := 3
  const TWO_32: nat := 0x1_0000_0000

  predicate IsComment(c: char)
  {
    c == '#' || c == ';'
  }

  predicate IsBlank(c: char)
  {
    c == ' ' || '\t' <= c <= '\r'
  }

  /** The text before the first character of a kind. */
  function Before(s: string, kind: char -> bool): string
  {
    if s == "" || kind(s[0]) then "" else [s[0]] + Before(s[1..], kind)
  }

  /** `split_whitespace`: the maximal runs of other characters. */
  function Words(s: string): seq<string>
    decreases |s|
  {
    if s == "" then []
    else if IsBlank(s[0]) then Words(s[1..])
    else
      var word := Before(s, IsBlank);
      BeforeLength(s, IsBlank);
      [word] + Words(s[|word|..])
  }

  lemma {:induction false} BeforeLength(s: string, kind: char -> bool)
    ensures |Before(s, kind)| <= |s|
    ensures s != "" && !kind(s[0]) ==> |Before(s, kind)| >= 1
  {
    if s != "" && !kind(s[0]) {
      BeforeLength(s[1..], kind);
    }
  }

  /** A decimal number of 32 bits, with an optional plus sign. */
  function ParseU32(s: string): Option<nat>
  {
    var digits := if s != "" && s[0] == '+' then s[1..] else s;
    if digits == "" then None
    else
      match Number(digits, 10)
      case Some(n) => if n < TWO_32 then Some(n) else None
      case None => None
  }

  /** The address and zone of one `nameserver` word. `index` gives the number of
      an interface name. */
  function ParseServer(word: string, index: string -> Option<nat>): Result<SocketAddr, ResolvError>
  {
    var host := Before(word, c => c == '%');
    if host == word then
      match ParseIp(word)
      case Some(ip) => Ok(SocketAddr(ip, DNS_PORT, 0))
      case None => Err(BadAddress(word))
    else
      BeforeLength(word, c => c == '%');
      var zone := word[|host|..];
      var name := if zone == "" then "" else zone[1..];
      var scope := if ParseU32(name).Some? then ParseU32(name) else index(name);
      if scope.None? then Err(UnknownScope(name))
      else
        match ParseIp(host)
        case Some(V4(_)) => Err(ScopeOnV4)
        case Some(V6(g)) => Ok(SocketAddr(V6(g), DNS_PORT, scope.value))
        case None => Err(BadAddress(host))
  }

  /** What one line adds. */
  function ParseLine(line: string, index: string -> Option<nat>): Result<seq<SocketAddr>, ResolvError>
  {
    var words := Words(Before(line, IsComment));
    if |words| >= 2 && words[0] == "nameserver" then
      match ParseServer(words[1], index)
      case Ok(addr) => Ok([addr])
      case Err(e) => Err(e)
    else Ok([])
  }

  function Both<T, E>(a: Result<seq<T>, E>, b: Result<seq<T>, E>): Result<seq<T>, E>
  {
    if a.Err? then a else if b.Err? then b else Ok(a.value + b.value)
  }

  function AllServers(lines: seq<string>, index: string -> Option<nat>): Result<seq<SocketAddr>, ResolvError>
  {
    if lines == [] then Ok([])
    else Both(AllServers(lines[..|lines| - 1], index), ParseLine(lines[|lines| - 1], index))
  }

  /** Every server of the file, before the list is cut. */
  function Untruncated(content: string, index: string -> Option<nat>): Result<seq<SocketAddr>, ResolvError>
  {
    AllServers(Split(content, '\n'), index)
  }

  function Truncate<T>(items: seq<T>): seq<T>
  {
    if |items| <= MAX_NAMESERVERS then items else items[..MAX_NAMESERVERS]
  }

  function Nameservers(content: string, index: string -> Option<nat>): Result<seq<SocketAddr>, ResolvError>
  {
    match Untruncated(content, index)
    case Ok(all) => Ok(Truncate(all))
    case Err(e) => Err(e)
  }

  lemma {:induction false} FirstErrorStays(lines: seq<string>, n: nat, index: string -> Option<nat>)
    requires n <= |lines| && AllServers(lines[..n], index).Err?
    ensures AllServers(lines, index) == AllServers(lines[..n], index)
  {
    if n == |lines| {
      assert lines[..n] == lines;
    } else {
      assert lines[..|lines| - 1][..n] == lines[..n];
      FirstErrorStays(lines[..|lines| - 1], n, index);
    }
  }

  method ParseResolvConf(content: string, index: string -> Option<nat>)
    returns (r: Result<seq<SocketAddr>, ResolvError>)
    ensures r == Nameservers(content, index)
  {
    var lines := Split(content, '\n');
    var nameservers: seq<SocketAddr> := [];
    for i := 0 to |lines|
      invariant AllServers(lines[..i], index) == Ok(nameservers)
    {
      assert lines[..i + 1][..i] == lines[..i];
      assert nameservers + [] == nameservers;
      var line := Before(lines[i], IsComment);
      var lineParts := Words(line);
      if |lineParts| == 0 {
        continue;
      }
      if lineParts[0] == "nameserver" {
        if |lineParts| > 1 {
          var addr := ParseServer(lineParts[1], index);
          if addr.Err? {
            FirstErrorStays(lines, i + 1, index);
            return Err(addr.error);
          }
          nameservers := nameservers + [addr.value];
        }
      }
    }
    assert lines[..|lines|] == lines;
    return Ok(Truncate(nameservers));
  }

  // ---------------------------------------------------------- homomorphism

  lemma BothAssociates<T, E>(a: Result<seq<T>, E>, b: Result<seq<T>, E>, c: Result<seq<T>, E>)
    ensures Both(Both(a, b), c) == Both(a, Both(b, c))
    ensures Both(a, Ok([])) == a
  {
    if a.Ok? && b.Ok? && c.Ok? {
      assert a.value + b.value + c.value == a.value + (b.value + c.value);
    }
    if a.Ok? {
      assert a.value + [] == a.value;
    }
  }

  lemma {:induction false} AllServersConcat(a: seq<string>, b: seq<string>, index: string -> Option<nat>)
    ensures AllServers(a + b, index) == Both(AllServers(a, index), AllServers(b, index))
  {
    if b == [] {
      assert a + b == a;
      BothAssociates(AllServers(a, index), AllServers(a, index), AllServers(a, index));
    } else {
      var n := |b| - 1;
      BothAssociates(AllServers(a, index), AllServers(b[..n], index), ParseLine(b[n], index));
      assert (a + b)[..|a + b| - 1] == a + b[..n];
      AllServersConcat(a, b[..n], index);
    }
  }

  /** Two texts joined by a newline parse as their parts do, in order. */
  lemma JoinedUntruncated(a: string, b: string, index: string -> Option<nat>)
    ensures Untruncated(a + "\n" + b, index) == Both(Untruncated(a, index), Untruncated(b, index))
  {
    SplitConcat(a, b, '\n');
    AllServersConcat(Split(a, '\n'), Split(b, '\n'), index);
  }

  /** The joined text is accepted exactly when both parts are, and then yields
      the first three of their uncut lists, one after the other. */
  lemma JoinedTexts(a: string, b: string, index: string -> Option<nat>)
    ensures Nameservers(a + "\n" + b, index).Ok? <==>
            Nameservers(a, index).Ok? && Nameservers(b, index).Ok?
    ensures Nameservers(a + "\n" + b, index).Ok? ==>
            Nameservers(a + "\n" + b, index).value ==
            Truncate(Untruncated(a, index).value + Untruncated(b, index).value)
  {
    JoinedUntruncated(a, b, index);
  }

  lemma {:induction false} CommentIgnored(p: string, x: string, y: string, c: char)
    requires IsComment(c)
    ensures Before(p + [c] + x, IsComment) == Before(p + [c] + y, IsComment)
  {
    var s, t := p + [c] + x, p + [c] + y;
    if p != "" {
      CommentIgnored(p[1..], x, y, c);
      assert s[1..] == p[1..] + [c] + x && t[1..] == p[1..] + [c] + y;
    }
  }

  /** One line, without a newline in it, and its comment replaced. */
  lemma CommentInLine(p: string, x: string, y: string, c: char, index: string -> Option<nat>)
    requires IsComment(c) && '\n' !in p && '\n' !in x && '\n' !in y
    ensures Untruncated(p + [c] + x, index) == Untruncated(p + [c] + y, index)
  {
    var s, t := p + [c] + x, p + [c] + y;
    SplitWhole(s, '\n');
    SplitWhole(t, '\n');
    CommentIgnored(p, x, y, c);
    assert [s][..0] == [t][..0];
    assert ParseLine(s, index) == ParseLine(t, index);
  }

  /** The part of the text after its last newline, and what is before that. */
  lemma {:induction false} LastLine(s: string) returns (before: Option<string>, line: string)
    ensures '\n' !in line
    ensures before.None? ==> s == line
    ensures before.Some? ==> s == before.value + "\n" + line
  {
    if '\n' !in s {
      before, line := None, s;
    } else if s[|s| - 1] == '\n' {
      before, line := Some(s[..|s| - 1]), "";
    } else {
      before, line := LastLine(s[..|s| - 1]);
      assert s == s[..|s| - 1] + [s[|s| - 1]];
      line := line + [s[|s| - 1]];
    }
  }

  lemma CommentLast(prefix: string, c: char, x: string, y: string, index: string -> Option<nat>)
    requires IsComment(c) && '\n' !in x && '\n' !in y
    ensures Untruncated(prefix + [c] + x, index) == Untruncated(prefix + [c] + y, index)
  {
    var before, line := LastLine(prefix);
    CommentInLine(line, x, y, c, index);
    if before.Some? {
      AfterNewline(before.value, line, c, x);
      AfterNewline(before.value, line, c, y);
      JoinedUntruncated(before.value, line + [c] + x, index);
      JoinedUntruncated(before.value, line + [c] + y, index);
    }
  }

  lemma AfterNewline(before: string, line: string, c: char, x: string)
    ensures before + "\n" + line + [c] + x == before + "\n" + (line + [c] + x)
  {
  }

  lemma RestUntruncated(s: string, rest: string, index: string -> Option<nat>)
    ensures Untruncated(s + ("\n" + rest), index) == Both(Untruncated(s, index), Untruncated(rest, index))
  {
    JoinedUntruncated(s, rest, index);
    assert s + ("\n" + rest) == s + "\n" + rest;
  }

  /** Replacing the content of a comment never changes the result. */
  lemma CommentContent(
    prefix: string, c: char, x: string, y: string, rest: Option<string>, index: string -> Option<nat>)
    requires IsComment(c) && '\n' !in x && '\n' !in y
    ensures var suffix := if rest.Some? then "\n" + rest.value else "";
            Nameservers(prefix + [c] + x + suffix, index) == Nameservers(prefix + [c] + y + suffix, index)
  {
    var s, t := prefix + [c] + x, prefix + [c] + y;
    CommentLast(prefix, c, x, y, index);
    if rest.Some? {
      RestUntruncated(s, rest.value, index);
      RestUntruncated(t, rest.value, index);
    } else {
      assert s + "" == s && t + "" == t;
    }
  }
}
