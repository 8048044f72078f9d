/** IP addresses and their text forms: the dotted quad without leading zeros and
    the forms of section 2.2 of RFC 4291 (full, compressed, and with a dotted
    quad at the end), as the standard library's address parser reads them. */
module Address {
  import opened Wrappers
  import opened Text

  type Octets = o: seq<nat> | |o| == 4 && forall i | 0 <= i < 4 :: o[i] < 256
    witness [0, 0, 0, 0]

  type Groups = g: seq<nat> | |g| == 8 && forall i | 0 <= i < 8 :: g[i] < 65536
    witness [0, 0, 0, 0, 0, 0, 0, 0]

  datatype Ip = V4(octets: Octets) | V6(groups: Groups)

  datatype SocketAddr = SocketAddr(ip: Ip, port: nat, scope: nat)

  const DNS_PORT: nat := 53

  // ---------------------------------------------------------------- digits

  function HexValue(c: char): Option<nat>
  {
    if '0' <= c <= '9' then Some((c - '0') as nat)
    else if 'a' <= c <= 'f' then Some((c - 'a') as nat + 10)
    else if 'A' <= c <= 'F' then Some((c - 'A') as nat + 10)
    else None
  }

  function HexDigit(n: nat): (c: char)
    requires n < 16
    ensures HexValue(c) == Some(n)
  {
    if n < 10 then '0' + (n as char) else 'a' + ((n - 10) as char)
  }

  /** The digits, in either case, and nothing else. */
  lemma DigitValues(c: char)
    ensures '0' <= c <= '9' ==> HexValue(c) == Some(c as int - '0' as int)
    ensures 'a' <= c <= 'f' ==> HexValue(c) == Some(10 + (c as int - 'a' as int))
    ensures 'A' <= c <= 'F' ==> HexValue(c) == Some(10 + (c as int - 'A' as int))
    ensures HexValue(c).Some? ==> '0' <= c <= '9' || 'a' <= c <= 'f' || 'A' <= c <= 'F'
  {
  }

  /** One more digit after the number read so far. */
  function Extend(number: Option<nat>, c: char, base: nat): Option<nat>
  {
    var digit := HexValue(c);
    if number.Some? && digit.Some? && digit.value < base
    then Some(number.value * base + digit.value)
    else None
  }

  /** The number written by `s` in the given base, if every character is a digit. */
  function Number(s: string, base: nat): Option<nat>
  {
    if s == "" then Some(0) else Extend(Number(s[..|s| - 1], base), s[|s| - 1], base)
  }

  // ------------------------------------------------------------------ IPv4

  /** One to three decimal digits, no leading zero, at most 255. */
  function ParseOctet(s: string): (r: Option<nat>)
    ensures r.Some? ==> r.value < 256
  {
    if 1 <= |s| <= 3 && (|s| > 1 ==> s[0] != '0') then
      match Number(s, 10)
      case Some(n) => if n < 256 then Some(n) else None
      case None => None
    else None
  }

  function RenderOctet(n: nat): string
    requires n < 256
  {
    if n < 10 then [HexDigit(n)]
    else if n < 100 then [HexDigit(n / 10), HexDigit(n % 10)]
    else [HexDigit(n / 100), HexDigit(n / 10 % 10), HexDigit(n % 10)]
  }

  function ParseV4(s: string): Option<Octets>
  {
    var parts := Split(s, '.');
    if |parts| == 4 then
      match (ParseOctet(parts[0]), ParseOctet(parts[1]), ParseOctet(parts[2]), ParseOctet(parts[3]))
      case (Some(a), Some(b), Some(c), Some(d)) => Some([a, b, c, d])
      case _ => None
    else None
  }

  function OctetTexts(o: Octets): seq<string>
  {
    [RenderOctet(o[0]), RenderOctet(o[1]), RenderOctet(o[2]), RenderOctet(o[3])]
  }

  function RenderV4(o: Octets): string
  {
    Join(OctetTexts(o), ".")
  }

  // ------------------------------------------------------------------ IPv6

  /** One to four hexadecimal digits. */
  function ParseGroup(s: string): Option<nat>
  {
    if 1 <= |s| <= 4 then Number(s, 16) else None
  }

  /** The groups written by colon-separated pieces; the last piece may be a
      dotted quad, which stands for two groups. */
  function ParsePieces(pieces: seq<string>): Option<seq<nat>>
  {
    if pieces == [] then Some([])
    else if |pieces| == 1 && ParseV4(pieces[0]).Some? then
      var o := ParseV4(pieces[0]).value;
      Some([o[0] * 256 + o[1], o[2] * 256 + o[3]])
    else
      match (ParseGroup(pieces[0]), ParsePieces(pieces[1..]))
      case (Some(g), Some(rest)) => Some([g] + rest)
      case _ => None
  }

  /** As `ParsePieces`, for a side of "::", where the empty text has no groups;
      a dotted quad may only end the address. */
  function ParseSide(pieces: seq<string>, last: bool): Option<seq<nat>>
  {
    if pieces == [""] then Some([])
    else if !last && pieces != [] && ParseV4(pieces[|pieces| - 1]).Some? then None
    else ParsePieces(pieces)
  }

  /** The position of the first "::", seen as an empty piece inside the list. */
  function FirstGap(pieces: seq<string>, from: nat): (r: Option<nat>)
    requires 1 <= from
    ensures r.Some? ==> from <= r.value < |pieces| - 1 && pieces[r.value] == ""
    decreases |pieces| - from
  {
    if from + 1 >= |pieces| then None
    else if pieces[from] == "" then Some(from)
    else FirstGap(pieces, from + 1)
  }

  function Zeros(n: nat): seq<nat>
  {
    seq(n, i => 0)
  }

  /** Two lists of groups with zeros between them, eight in all. */
  function Filled(head: seq<nat>, tail: seq<nat>): seq<nat>
    requires |head| + |tail| <= 8
  {
    head + Zeros(8 - |head| - |tail|) + tail
  }

  predicate AreGroups(g: seq<nat>)
  {
    |g| == 8 && forall i | 0 <= i < 8 :: g[i] < 65536
  }

  function ParseV6(s: string): Option<Groups>
  {
    var pieces := Split(s, ':');
    match FirstGap(pieces, 1)
    case None =>
      (match ParsePieces(pieces)
       case Some(g) => if AreGroups(g) then Some(g) else None
       case None => None)
    case Some(i) =>
      (match (ParseSide(pieces[..i], false), ParseSide(pieces[i + 1..], true))
       case (Some(head), Some(tail)) =>
         if |head| + |tail| <= 7 then
           var g := Filled(head, tail);
           if AreGroups(g) then Some(g) else None
         else None
       case _ => None)
  }

  function ParseIp(s: string): Option<Ip>
  {
    match ParseV4(s)
    case Some(o) => Some(V4(o))
    case None =>
      match ParseV6(s)
      case Some(g) => Some(V6(g))
      case None => None
  }

  /** The four hexadecimal digits of a group, highest first. */
  function Nibbles(g: nat): (r: seq<nat>)
    requires g < 65536
    ensures |r| == 4 && forall i | 0 <= i < 4 :: r[i] < 16
  {
    [g / 4096, g / 256 % 16, g / 16 % 16, g % 16]
  }

  function RenderGroup(g: nat): (s: string)
    requires g < 65536
    ensures |s| == 4
  {
    var n := Nibbles(g);
    [HexDigit(n[0]), HexDigit(n[1]), HexDigit(n[2]), HexDigit(n[3])]
  }

  function GroupTexts(g: seq<nat>): (r: seq<string>)
    requires forall i | 0 <= i < |g| :: g[i] < 65536
    ensures |r| == |g| && forall i | 0 <= i < |g| :: r[i] == RenderGroup(g[i])
  {
    seq(|g|, i requires 0 <= i < |g| => RenderGroup(g[i]))
  }

  /** The full form: eight groups of four digits. */
  function RenderV6(g: Groups): string
  {
    Join(GroupTexts(g), ":")
  }

  function RenderIp(ip: Ip): string
  {
    match ip
    case V4(o) => RenderV4(o)
    case V6(g) => RenderV6(g)
  }

  // ------------------------------------------------------- IPv4 round trip

  lemma NumberSnoc(s: string, c: char, base: nat)
    ensures Number(s + [c], base) == Extend(Number(s, base), c, base)
  {
    assert (s + [c])[..|s|] == s;
  }

  lemma NumberShort(a: char, b: char, c: char, d: char, base: nat)
    ensures Number([a], base) == Extend(Some(0), a, base)
    ensures Number([a, b], base) == Extend(Number([a], base), b, base)
    ensures Number([a, b, c], base) == Extend(Number([a, b], base), c, base)
    ensures Number([a, b, c, d], base) == Extend(Number([a, b, c], base), d, base)
  {
    NumberSnoc("", a, base);
    NumberSnoc([a], b, base);
    NumberSnoc([a, b], c, base);
    NumberSnoc([a, b, c], d, base);
    assert "" + [a] == [a];
    assert [a] + [b] == [a, b];
    assert [a, b] + [c] == [a, b, c];
    assert [a, b, c] + [d] == [a, b, c, d];
  }

  lemma DigitCanonical(c: char)
    requires HexValue(c).Some? && HexValue(c).value < 10
    ensures c == HexDigit(HexValue(c).value)
    ensures c == '0' <==> HexValue(c).value == 0
  {
  }

  lemma OctetDigits(n: nat)
    requires n < 256
    ensures n >= 10 ==> n / 10 * 10 + n % 10 == n
    ensures n >= 100 ==> (n / 100 * 10 + n / 10 % 10) * 10 + n % 10 == n && 0 < n / 100 < 10
    ensures n < 100 ==> n / 10 < 10
  {
  }

  lemma OctetNumber(n: nat)
    requires n < 256
    ensures Number(RenderOctet(n), 10) == Some(n)
  {
    OctetDigits(n);
    var a, b, c := HexDigit(n / 100), HexDigit(n / 10 % 10), HexDigit(n % 10);
    if n < 10 {
      NumberShort(HexDigit(n), c, c, c, 10);
    } else if n < 100 {
      NumberShort(HexDigit(n / 10), c, c, c, 10);
    } else {
      NumberShort(a, b, c, c, 10);
    }
  }

  lemma OctetParses(n: nat)
    requires n < 256
    ensures ParseOctet(RenderOctet(n)) == Some(n)
  {
    OctetNumber(n);
    OctetDigits(n);
    DigitCanonical(RenderOctet(n)[0]);
  }

  lemma OctetCanonical(s: string)
    requires ParseOctet(s).Some?
    ensures s == RenderOctet(ParseOctet(s).value)
  {
    if |s| == 1 {
      OneDigitCanonical(s);
    } else if |s| == 2 {
      TwoDigitsCanonical(s);
    } else {
      ThreeDigitsCanonical(s);
    }
  }

  lemma OneDigitCanonical(s: string)
    requires ParseOctet(s).Some? && |s| == 1
    ensures s == RenderOctet(ParseOctet(s).value)
  {
    assert s == [s[0]];
    NumberShort(s[0], s[0], s[0], s[0], 10);
    DigitCanonical(s[0]);
  }

  lemma TwoDigitsCanonical(s: string)
    requires ParseOctet(s).Some? && |s| == 2
    ensures s == RenderOctet(ParseOctet(s).value)
  {
    assert s == [s[0], s[1]];
    NumberShort(s[0], s[1], s[0], s[0], 10);
    DigitCanonical(s[0]);
    DigitCanonical(s[1]);
  }

  lemma ThreeDigitsCanonical(s: string)
    requires ParseOctet(s).Some? && |s| == 3
    ensures s == RenderOctet(ParseOctet(s).value)
  {
    assert s == [s[0], s[1], s[2]];
    NumberShort(s[0], s[1], s[2], s[0], 10);
    DigitCanonical(s[0]);
    DigitCanonical(s[1]);
    DigitCanonical(s[2]);
    ThreeDigits(HexValue(s[0]).value, HexValue(s[1]).value, HexValue(s[2]).value);
  }

  lemma ThreeDigits(a: nat, b: nat, c: nat)
    requires 0 < a && a < 10 && b < 10 && c < 10
    ensures var n := ((0 * 10 + a) * 10 + b) * 10 + c;
            n >= 100 && n / 100 == a && n / 10 % 10 == b && n % 10 == c
  {
  }

  lemma OctetTextPlain(n: nat, d: char)
    requires n < 256 && d in RenderOctet(n)
    ensures '0' <= d <= '9'
  {
  }

  /** A dotted quad has exactly one text. */
  lemma V4RoundTrip(s: string, o: Octets)
    ensures ParseV4(s) == Some(o) <==> s == RenderV4(o)
  {
    if s == RenderV4(o) {
      V4Parses(o);
    }
    if ParseV4(s) == Some(o) {
      V4Canonical(s);
    }
  }

  lemma V4Parses(o: Octets)
    ensures ParseV4(RenderV4(o)) == Some(o)
  {
    forall i | 0 <= i < 4
      ensures '.' !in OctetTexts(o)[i]
    {
      if '.' in OctetTexts(o)[i] { OctetTextPlain(o[i], '.'); }
    }
    SplitJoin(OctetTexts(o), '.');
    forall i | 0 <= i < 4
      ensures ParseOctet(OctetTexts(o)[i]) == Some(o[i])
    {
      OctetParses(o[i]);
    }
    assert o == [o[0], o[1], o[2], o[3]];
  }

  lemma V4Canonical(s: string)
    requires ParseV4(s).Some?
    ensures s == RenderV4(ParseV4(s).value)
  {
    var parts, o := Split(s, '.'), ParseV4(s).value;
    SplitPieces(s, '.');
    forall i | 0 <= i < 4
      ensures parts[i] == OctetTexts(o)[i]
    {
      OctetCanonical(parts[i]);
    }
    assert parts == OctetTexts(o);
  }

  // ------------------------------------------------------- IPv6 round trip

  lemma FourDigits(a: nat, b: nat, c: nat, d: nat)
    requires a < 16 && b < 16 && c < 16 && d < 16
    ensures Number([HexDigit(a), HexDigit(b), HexDigit(c), HexDigit(d)], 16)
         == Some(a * 4096 + b * 256 + c * 16 + d)
  {
    NumberShort(HexDigit(a), HexDigit(b), HexDigit(c), HexDigit(d), 16);
  }

  lemma NibblesCompose(g: nat)
    requires g < 65536
    ensures var n := Nibbles(g); n[0] * 4096 + n[1] * 256 + n[2] * 16 + n[3] == g
  {
    var a, b := g / 256, g % 256;
    assert g / 4096 == a / 16 && g / 16 % 16 == b / 16 && g % 16 == b % 16;
  }

  lemma GroupParses(g: nat)
    requires g < 65536
    ensures ParseGroup(RenderGroup(g)) == Some(g)
  {
    var n := Nibbles(g);
    FourDigits(n[0], n[1], n[2], n[3]);
    NibblesCompose(g);
  }

  lemma GroupTextPlain(g: nat, d: char)
    requires g < 65536 && d in RenderGroup(g)
    ensures HexValue(d).Some?
  {
  }

  /** Four digits without a dot are never a dotted quad. */
  lemma NoDotNoQuad(s: string)
    requires '.' !in s
    ensures ParseV4(s).None?
  {
    SplitWhole(s, '.');
  }

  lemma {:induction false} NumberDigits(s: string, base: nat)
    ensures Number(s, base).Some? <==> forall c | c in s :: HexValue(c).Some? && HexValue(c).value < base
  {
    if s != "" {
      NumberDigits(s[..|s| - 1], base);
      assert s == s[..|s| - 1] + [s[|s| - 1]];
    }
  }

  /** A group is one to four hexadecimal digits. */
  lemma GroupDigits(s: string)
    ensures ParseGroup(s).Some? <==> 1 <= |s| <= 4 && forall c | c in s :: HexValue(c).Some?
  {
    NumberDigits(s, 16);
  }

  lemma {:induction false} NumberBelow(s: string)
    requires |s| <= 4 && Number(s, 16).Some?
    ensures Number(s, 16).value < [1, 16, 256, 4096, 65536][|s|]
  {
    if s != "" {
      NumberBelow(s[..|s| - 1]);
    }
  }

  predicate AreGroupTexts(texts: seq<string>)
  {
    forall i | 0 <= i < |texts| :: ParseGroup(texts[i]).Some?
  }

  function GroupValues(texts: seq<string>): (g: seq<nat>)
    requires AreGroupTexts(texts)
    ensures |g| == |texts| && forall i | 0 <= i < |g| :: ParseGroup(texts[i]) == Some(g[i]) && g[i] < 65536
  {
    ValuesBelow(texts);
    seq(|texts|, i requires 0 <= i < |texts| => ParseGroup(texts[i]).value)
  }

  lemma ValuesBelow(texts: seq<string>)
    requires AreGroupTexts(texts)
    ensures forall i | 0 <= i < |texts| :: ParseGroup(texts[i]).value < 65536
  {
    forall i | 0 <= i < |texts|
      ensures ParseGroup(texts[i]).value < 65536
    {
      NumberBelow(texts[i]);
    }
  }

  lemma PlainTexts(texts: seq<string>)
    requires AreGroupTexts(texts)
    ensures forall i | 0 <= i < |texts| :: ':' !in texts[i] && '.' !in texts[i] && texts[i] != ""
  {
    forall i | 0 <= i < |texts|
      ensures ':' !in texts[i] && '.' !in texts[i] && texts[i] != ""
    {
      GroupDigits(texts[i]);
    }
  }

  /** Pieces without a dot are read as groups, all or none. */
  lemma {:induction false} PiecesExactly(texts: seq<string>)
    requires forall i | 0 <= i < |texts| :: '.' !in texts[i]
    ensures ParsePieces(texts) == if AreGroupTexts(texts) then Some(GroupValues(texts)) else None
  {
    if texts == [] {
    } else {
      var rest := texts[1..];
      NoDotNoQuad(texts[0]);
      PiecesExactly(rest);
      assert AreGroupTexts(texts) <==> ParseGroup(texts[0]).Some? && AreGroupTexts(rest) by {
        if ParseGroup(texts[0]).Some? && AreGroupTexts(rest) {
          forall i | 0 <= i < |texts|
            ensures ParseGroup(texts[i]).Some?
          {
            assert i > 0 ==> texts[i] == rest[i - 1];
          }
        }
        if AreGroupTexts(texts) {
          assert forall i | 0 <= i < |rest| :: rest[i] == texts[i + 1];
        }
      }
      if AreGroupTexts(texts) {
        assert GroupValues(texts) == [ParseGroup(texts[0]).value] + GroupValues(rest);
      }
    }
  }

  lemma {:induction false} NoGap(pieces: seq<string>, from: nat)
    requires 1 <= from
    requires forall i | 0 <= i < |pieces| - 1 :: pieces[i] != ""
    ensures FirstGap(pieces, from).None?
    decreases |pieces| - from
  {
    if from + 1 < |pieces| {
      NoGap(pieces, from + 1);
    }
  }

  /** Pieces without dots, none of them empty before the last, are an address
      exactly when they are eight, each of hexadecimal digits. */
  lemma FullForm(texts: seq<string>)
    requires |texts| >= 1
    requires forall i | 0 <= i < |texts| :: '.' !in texts[i] && ':' !in texts[i]
    requires forall i | 0 <= i < |texts| - 1 :: texts[i] != ""
    ensures ParseIp(Join(texts, ":")) ==
            if |texts| == 8 && AreGroupTexts(texts) then Some(V6(GroupValues(texts))) else None
  {
    var s := Join(texts, ":");
    SplitJoin(texts, ':');
    NoGap(texts, 1);
    PiecesExactly(texts);
    if '.' in s { JoinChars(texts, ":", '.'); }
    NoDotNoQuad(s);
  }

  lemma GroupTextsParse(g: Groups)
    ensures AreGroupTexts(GroupTexts(g)) && GroupValues(GroupTexts(g)) == g
  {
    forall i | 0 <= i < 8
      ensures ParseGroup(GroupTexts(g)[i]) == Some(g[i])
    {
      GroupParses(g[i]);
    }
  }

  lemma V6RoundTrip(g: Groups)
    ensures ParseIp(RenderV6(g)) == Some(V6(g))
  {
    GroupTextsParse(g);
    PlainTexts(GroupTexts(g));
    FullForm(GroupTexts(g));
  }

  // ------------------------------------------------------- compressed form

  predicate ArePlain(texts: seq<string>)
  {
    forall i | 0 <= i < |texts| :: ':' !in texts[i] && '.' !in texts[i] && texts[i] != ""
  }

  /** The pieces of one side of "::". */
  function SidePieces(texts: seq<string>): seq<string>
  {
    if texts == [] then [""] else texts
  }

  lemma SideSplits(texts: seq<string>)
    requires forall i | 0 <= i < |texts| :: ':' !in texts[i]
    ensures Split(Join(texts, ":"), ':') == SidePieces(texts)
  {
    if texts != [] {
      SplitJoin(texts, ':');
    }
  }

  lemma SideParses(texts: seq<string>, last: bool)
    requires ArePlain(texts)
    ensures ParseSide(SidePieces(texts), last) ==
            if AreGroupTexts(texts) then Some(GroupValues(texts)) else None
  {
    if texts == [] {
    } else {
      PiecesExactly(texts);
      assert texts[0] != "";
      NoDotNoQuad(texts[|texts| - 1]);
    }
  }

  lemma {:induction false} GapAt(pieces: seq<string>, from: nat, i: nat)
    requires 1 <= from <= i < |pieces| - 1 && pieces[i] == ""
    requires forall j | from <= j < i :: pieces[j] != ""
    ensures FirstGap(pieces, from) == Some(i)
    decreases i - from
  {
    if from < i {
      GapAt(pieces, from + 1, i);
    }
  }

  /** What "::" between two lists of pieces means, given how they are read. */
  lemma GapForm(head: seq<string>, tail: seq<string>, h: Option<seq<nat>>, t: Option<seq<nat>>)
    requires forall i | 0 <= i < |head| :: ':' !in head[i] && head[i] != ""
    requires forall i | 0 <= i < |tail| :: ':' !in tail[i]
    requires ParseSide(SidePieces(head), false) == h && ParseSide(SidePieces(tail), true) == t
    requires h.Some? ==> forall i | 0 <= i < |h.value| :: h.value[i] < 65536
    requires t.Some? ==> forall i | 0 <= i < |t.value| :: t.value[i] < 65536
    ensures ParseV6(Join(head, ":") + "::" + Join(tail, ":")) ==
            if h.Some? && t.Some? && |h.value| + |t.value| <= 7
            then Some(Filled(h.value, t.value))
            else None
  {
    var left, right := SidePieces(head), SidePieces(tail);
    SideSplits(head);
    SideSplits(tail);
    GapSplit(Join(head, ":"), Join(tail, ":"));
    FirstGapFound(head, right);
    assert (left + [""] + right)[..|left|] == left && (left + [""] + right)[|left| + 1..] == right;
    if h.Some? && t.Some? && |h.value| + |t.value| <= 7 {
      FilledUp(h.value, t.value);
    }
  }

  lemma FilledUp(head: seq<nat>, tail: seq<nat>)
    requires |head| + |tail| <= 7
    requires (forall i | 0 <= i < |head| :: head[i] < 65536) && (forall i | 0 <= i < |tail| :: tail[i] < 65536)
    ensures AreGroups(Filled(head, tail))
  {
  }

  lemma FirstGapFound(head: seq<string>, right: seq<string>)
    requires right != [] && forall i | 0 <= i < |head| :: head[i] != ""
    ensures FirstGap(SidePieces(head) + [""] + right, 1) == Some(|SidePieces(head)|)
  {
    var left := SidePieces(head);
    var pieces := left + [""] + right;
    forall j | 1 <= j < |left|
      ensures pieces[j] != ""
    {
      assert pieces[j] == left[j];
    }
    GapAt(pieces, 1, |left|);
  }

  /** The compressed form: "::" between pieces without dots stands for the groups
      of zeros that are missing from eight, at least one of them; and the pieces
      must be groups. */
  lemma V6Compressed(head: seq<string>, tail: seq<string>)
    requires ArePlain(head) && ArePlain(tail)
    ensures ParseV6(Join(head, ":") + "::" + Join(tail, ":")) ==
            if AreGroupTexts(head) && AreGroupTexts(tail) && |head| + |tail| <= 7
            then Some(Filled(GroupValues(head), GroupValues(tail)))
            else None
  {
    SideParses(head, false);
    SideParses(tail, true);
    GapForm(head, tail, ParseSide(SidePieces(head), false), ParseSide(SidePieces(tail), true));
  }

  // ------------------------------------------------- a dotted quad at the end

  function QuadGroups(o: Octets): (g: seq<nat>)
    ensures |g| == 2 && g[0] < 65536 && g[1] < 65536
  {
    [o[0] * 256 + o[1], o[2] * 256 + o[3]]
  }

  lemma {:induction false} PiecesWithQuad(texts: seq<string>, o: Octets)
    requires AreGroupTexts(texts)
    ensures ParsePieces(texts + [RenderV4(o)]) == Some(GroupValues(texts) + QuadGroups(o))
  {
    var pieces := texts + [RenderV4(o)];
    if texts == [] {
      assert pieces == [RenderV4(o)];
      assert GroupValues(texts) + QuadGroups(o) == QuadGroups(o);
      V4RoundTrip(RenderV4(o), o);
    } else {
      assert pieces[1..] == texts[1..] + [RenderV4(o)];
      var rest := texts[1..];
      assert forall i | 0 <= i < |rest| :: rest[i] == texts[i + 1];
      PiecesWithQuad(rest, o);
      var first := [ParseGroup(texts[0]).value];
      assert GroupValues(texts) == first + GroupValues(rest);
      assert first + (GroupValues(rest) + QuadGroups(o)) == GroupValues(texts) + QuadGroups(o);
      assert pieces[0] == texts[0] && |pieces| > 1;
    }
  }

  lemma QuadText(o: Octets)
    ensures RenderV4(o) != "" && ':' !in RenderV4(o)
  {
    if ':' in RenderV4(o) {
      JoinChars(OctetTexts(o), ".", ':');
      var i :| 0 <= i < 4 && ':' in OctetTexts(o)[i];
      OctetTextPlain(o[i], ':');
    }
  }

  /** Six groups and a dotted quad are an address, */
  lemma V6Mixed(texts: seq<string>, o: Octets)
    requires AreGroupTexts(texts) && |texts| == 6
    ensures ParseV6(Join(texts + [RenderV4(o)], ":")) == Some(GroupValues(texts) + QuadGroups(o))
  {
    var pieces := texts + [RenderV4(o)];
    PlainTexts(texts);
    QuadText(o);
    SplitJoin(pieces, ':');
    NoGap(pieces, 1);
    PiecesWithQuad(texts, o);
  }

  /** and so they are with fewer groups and "::"; */
  lemma V6CompressedMixed(head: seq<string>, tail: seq<string>, o: Octets)
    requires AreGroupTexts(head) && AreGroupTexts(tail) && |head| + |tail| <= 5
    ensures ParseV6(Join(head, ":") + "::" + Join(tail + [RenderV4(o)], ":")) ==
            Some(Filled(GroupValues(head), GroupValues(tail) + QuadGroups(o)))
  {
    QuadSide(tail, o);
    GroupsBeforeGap(head, tail + [RenderV4(o)], GroupValues(tail) + QuadGroups(o));
  }

  lemma GroupsBeforeGap(head: seq<string>, pieces: seq<string>, t: seq<nat>)
    requires AreGroupTexts(head) && |head| + |t| <= 7
    requires (forall i | 0 <= i < |pieces| :: ':' !in pieces[i]) && ParseSide(SidePieces(pieces), true) == Some(t)
    requires forall i | 0 <= i < |t| :: t[i] < 65536
    ensures ParseV6(Join(head, ":") + "::" + Join(pieces, ":")) ==
            Some(Filled(GroupValues(head), t))
  {
    PlainTexts(head);
    SideParses(head, false);
    GapForm(head, pieces, Some(GroupValues(head)), Some(t));
  }

  lemma QuadSide(tail: seq<string>, o: Octets)
    requires AreGroupTexts(tail)
    ensures var pieces := tail + [RenderV4(o)];
            && (forall i | 0 <= i < |pieces| :: ':' !in pieces[i])
            && SidePieces(pieces) == pieces
            && ParseSide(pieces, true) == Some(GroupValues(tail) + QuadGroups(o))
  {
    var pieces := tail + [RenderV4(o)];
    PlainTexts(tail);
    QuadText(o);
    PiecesWithQuad(tail, o);
    assert pieces[|pieces| - 1] != "";
  }

  /** but before "::" no quad is read. */
  lemma QuadBeforeGap(head: seq<string>, tail: seq<string>, o: Octets)
    requires AreGroupTexts(head) && ArePlain(tail)
    ensures ParseV6(Join(head + [RenderV4(o)], ":") + "::" + Join(tail, ":")) == None
  {
    PlainTexts(head);
    QuadText(o);
    V4RoundTrip(RenderV4(o), o);
    var pieces := head + [RenderV4(o)];
    assert pieces[|pieces| - 1] == RenderV4(o) != "";
    SideParses(tail, true);
    GapForm(pieces, tail, None, ParseSide(SidePieces(tail), true));
  }

  lemma GapSplit(h: string, t: string)
    ensures Split(h + "::" + t, ':') == Split(h, ':') + [""] + Split(t, ':')
  {
    SplitConcat(h, ":" + t, ':');
    SplitConcat("", t, ':');
    assert h + "::" + t == h + [':'] + (":" + t);
    assert ":" + t == "" + [':'] + t;
    assert Split("", ':') == [""];
  }

  /** Every address is read back from its text. */
  lemma IpRoundTrip(ip: Ip)
    ensures ParseIp(RenderIp(ip)) == Some(ip)
  {
    match ip
    case V4(o) => V4RoundTrip(RenderV4(o), o);
    case V6(g) => V6RoundTrip(g);
  }

  /** Address texts hold only hexadecimal digits, dots and colons. */
  lemma IpTextPlain(ip: Ip, d: char)
    requires d in RenderIp(ip)
    ensures HexValue(d).Some? || d == '.' || d == ':'
  {
    match ip
    case V4(o) =>
      JoinChars(OctetTexts(o), ".", d);
    case V6(g) =>
      JoinChars(GroupTexts(g), ":", d);
      if d != ':' {
        var i :| 0 <= i < 8 && d in GroupTexts(g)[i];
        GroupTextPlain(g[i], d);
      }
  }
}
