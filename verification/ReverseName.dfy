/** Reverse lookup names (section 3.5 of RFC 1035 and section 2.5 of RFC 3596)
    and the decoding that a PTR query goes through. */
module ReverseName {
  import opened Wrappers
  import opened Text
  import opened Address

  const IN_ADDR_SUFFIX: string := ".in-addr.arpa."
  const IP6_SUFFIX: string := ".ip6.arpa."

  // -------------------------------------------------------------- encoding

  /** The 32 hexadecimal digits of an address, each as a label. */
  function NibbleTexts(g: Groups): (r: seq<string>)
    ensures |r| == 32 && forall i | 0 <= i < 32 :: |r[i]| == 1
  {
    seq(32, i requires 0 <= i < 32 => [HexDigit(Nibbles(g[i / 4])[i % 4])])
  }

  /** The canonical reverse name of an address, as an absolute name. */
  function ArpaName(ip: Ip): string
  {
    match ip
    case V4(o) => Join(Reverse(OctetTexts(o)), ".") + IN_ADDR_SUFFIX
    case V6(g) => Join(Reverse(NibbleTexts(g)), ".") + IP6_SUFFIX
  }

  // -------------------------------------------------------------- decoding

  /** The labels run together, with a colon after every fourth but no later
      than the 28th. */
  function Colonise(labels: seq<string>): string
  {
    if labels == [] then ""
    else
      var i := |labels| - 1;
      Colonise(labels[..i]) + labels[i] + (if i % 4 == 3 && i < 31 then ":" else "")
  }

  /** The address text that a name asks about. */
  function ReverseText(name: string): Option<string>
  {
    match StripSuffix(name, IN_ADDR_SUFFIX)
    case Some(n) => Some(Join(Reverse(Split(n, '.')), "."))
    case None =>
      match StripSuffix(name, IP6_SUFFIX)
      case Some(n) => Some(Colonise(Reverse(Split(n, '.'))))
      case None => None
  }

  /** The address that a name asks about, if it names one. */
  function ReverseAddress(name: string): Option<Ip>
  {
    match ReverseText(name)
    case Some(text) => ParseIp(text)
    case None => None
  }

  method DecodeReverseName(name: string) returns (text: Option<string>)
    ensures text == ReverseText(name)
  {
    var v4 := StripSuffix(name, IN_ADDR_SUFFIX);
    if v4.Some? {
      return Some(Join(Reverse(Split(v4.value, '.')), "."));
    }
    var v6 := StripSuffix(name, IP6_SUFFIX);
    if v6.None? {
      return None;
    }
    var labels := Reverse(Split(v6.value, '.'));
    var ip := "";
    for i := 0 to |labels|
      invariant ip == Colonise(labels[..i])
    {
      assert labels[..i + 1][..i] == labels[..i];
      ip := ip + labels[i];
      if i % 4 == 3 && i < 31 {
        ip := ip + ":";
      }
    }
    assert labels[..|labels|] == labels;
    return Some(ip);
  }

  // ------------------------------------------------------------ round trip

  lemma ReverseTwice<T>(s: seq<T>)
    ensures Reverse(Reverse(s)) == s
  {
  }

  /** Splitting a joined list of labels and reversing it undoes the encoding. */
  lemma LabelsDecode(labels: seq<string>)
    requires |labels| >= 1
    requires forall i | 0 <= i < |labels| :: '.' !in labels[i]
    ensures Reverse(Split(Join(Reverse(labels), "."), '.')) == labels
  {
    SplitJoin(Reverse(labels), '.');
    ReverseTwice(labels);
  }

  function Colons(n: nat): nat
  {
    if n / 4 < 7 then n / 4 else 7
  }

  lemma ColonsStep(n: nat)
    requires n < 32
    ensures Colons(n + 1) == if n % 4 == 3 && n < 31 then Colons(n) + 1 else Colons(n)
    ensures Colons(n) == n / 4
    ensures n % 4 == 3 ==> n + n / 4 + 1 == 5 * (n / 4) + 4
  {
  }

  /** Where each one-character label, and each colon, ends up. */
  lemma {:induction false} ColoniseShape(labels: seq<string>)
    requires |labels| <= 32
    requires forall i | 0 <= i < |labels| :: |labels[i]| == 1
    ensures |Colonise(labels)| == |labels| + Colons(|labels|)
    ensures forall i | 0 <= i < |labels| ::
              i + i / 4 < |Colonise(labels)| && Colonise(labels)[i + i / 4] == labels[i][0]
    ensures forall k | 0 <= k < Colons(|labels|) ::
              5 * k + 4 < |Colonise(labels)| && Colonise(labels)[5 * k + 4] == ':'
  {
    if labels != [] {
      var n := |labels| - 1;
      ColoniseShape(labels[..n]);
      ColonsStep(n);
    }
  }

  /** The decoded text of 32 one-digit labels: 39 characters, a colon after
      each group of four except the last, and the labels in between. */
  lemma Ip6TextShape(labels: seq<string>)
    requires |labels| == 32
    requires forall i | 0 <= i < 32 :: |labels[i]| == 1
    ensures |Colonise(labels)| == 39
    ensures forall j | 0 <= j < 39 && j % 5 == 4 :: Colonise(labels)[j] == ':'
    ensures forall j | 0 <= j < 39 && j % 5 != 4 :: Colonise(labels)[j] == labels[j - j / 5][0]
  {
    ColoniseShape(labels);
    forall j | 0 <= j < 39 && j % 5 == 4
      ensures Colonise(labels)[j] == ':'
    {
      var k := j / 5;
      assert j == 5 * k + 4;
    }
    forall j | 0 <= j < 39 && j % 5 != 4
      ensures Colonise(labels)[j] == labels[j - j / 5][0]
    {
      var i := j - j / 5;
      assert i / 4 == j / 5;
      assert i + i / 4 == j;
    }
  }

  // --------------------------------------------- what the labels spell

  /** The labels run together. */
  function Run(labels: seq<string>): string
  {
    if labels == [] then "" else Run(labels[..|labels| - 1]) + labels[|labels| - 1]
  }

  /** Where a piece ends: after four labels, but the eighth takes all the rest. */
  function PieceEnd(k: nat, n: nat): nat
  {
    if k < 7 && 4 * k + 4 < n then 4 * k + 4 else n
  }

  function Piece(labels: seq<string>, k: nat): string
    requires 4 * k <= |labels|
  {
    Run(labels[4 * k..PieceEnd(k, |labels|)])
  }

  /** The pieces between the colons. */
  function Pieces(labels: seq<string>): (r: seq<string>)
    ensures |r| == Colons(|labels|) + 1
  {
    ColonsBound(|labels|);
    seq(Colons(|labels|) + 1, k requires 0 <= k <= Colons(|labels|) => Piece(labels, k))
  }

  lemma ColonsBound(n: nat)
    ensures 4 * Colons(n) <= n && Colons(n) <= 7
    ensures n >= 28 ==> Colons(n) == 7
  {
  }

  lemma ColonsNext(i: nat)
    ensures Colons(i + 1) == if i % 4 == 3 && i < 31 then Colons(i) + 1 else Colons(i)
    ensures i % 4 == 3 && i < 31 ==> 4 * Colons(i) + 4 == i + 1
    ensures 4 * Colons(i) <= i && (Colons(i) == 7 || i < 4 * Colons(i) + 4)
    ensures Colons(i) <= 7
  {
  }

  lemma RunSnoc(labels: seq<string>, last: string)
    ensures Run(labels + [last]) == Run(labels) + last
  {
    assert (labels + [last])[..|labels|] == labels;
  }

  lemma TakeSlice<T>(s: seq<T>, n: nat, low: nat, high: nat)
    requires low <= high <= n <= |s|
    ensures s[..n][low..high] == s[low..high]
  {
  }

  lemma PieceClosed(labels: seq<string>, i: nat, k: nat)
    requires |labels| == i + 1 && k < 7 && 4 * k + 4 <= i
    ensures Piece(labels, k) == Piece(labels[..i], k)
  {
    TakeSlice(labels, i, 4 * k, 4 * k + 4);
  }

  lemma PieceOpen(labels: seq<string>, i: nat, k: nat)
    requires |labels| == i + 1 && 4 * k <= i && (k >= 7 || i < 4 * k + 4)
    ensures Piece(labels, k) == Piece(labels[..i], k) + labels[i]
  {
    TakeSlice(labels, i, 4 * k, i);
    assert labels[4 * k..i + 1] == labels[4 * k..i] + [labels[i]];
    RunSnoc(labels[4 * k..i], labels[i]);
  }

  function Append(pieces: seq<string>, text: string): (r: seq<string>)
    requires |pieces| >= 1
    ensures |r| == |pieces|
  {
    pieces[..|pieces| - 1] + [pieces[|pieces| - 1] + text]
  }

  /** One more label extends the last piece, and may close it. */
  lemma PiecesNext(labels: seq<string>, i: nat)
    requires |labels| == i + 1
    ensures Pieces(labels) ==
            Append(Pieces(labels[..i]), labels[i]) + (if i % 4 == 3 && i < 31 then [""] else [])
  {
    ColonsNext(i);
    var c := Colons(i);
    forall k | 0 <= k < c
      ensures Piece(labels, k) == Piece(labels[..i], k)
    {
      PieceClosed(labels, i, k);
    }
    PieceOpen(labels, i, c);
    if i % 4 == 3 && i < 31 {
      assert labels[4 * (c + 1)..PieceEnd(c + 1, i + 1)] == [];
    }
  }

  lemma {:induction false} ColoniseJoins(labels: seq<string>)
    ensures Colonise(labels) == Join(Pieces(labels), ":")
  {
    if labels != [] {
      var i := |labels| - 1;
      ColoniseJoins(labels[..i]);
      PiecesNext(labels, i);
      var pieces := Pieces(labels[..i]);
      JoinExtend(pieces, labels[i], ":");
      if i % 4 == 3 && i < 31 {
        JoinSnoc(Append(pieces, labels[i]), "", ":");
        assert Join(Append(pieces, labels[i]), ":") + ":" + "" == Colonise(labels[..i]) + labels[i] + ":";
      } else {
        assert Append(pieces, labels[i]) + [] == Append(pieces, labels[i]);
      }
    } else {
      assert Pieces(labels) == [""];
    }
  }

  lemma {:induction false} RunChars(labels: seq<string>, d: char)
    ensures d in Run(labels) <==> exists i :: 0 <= i < |labels| && d in labels[i]
  {
    if labels != [] {
      var init := labels[..|labels| - 1];
      RunChars(init, d);
      assert forall i | 0 <= i < |init| :: init[i] == labels[i];
    }
  }

  predicate NonEmpty(labels: seq<string>)
  {
    forall i | 0 <= i < |labels| :: labels[i] != ""
  }

  /** Labels that are not empty are as long together as they are many exactly
      when each is one character. */
  lemma {:induction false} RunLength(labels: seq<string>)
    requires NonEmpty(labels)
    ensures |Run(labels)| >= |labels|
    ensures |Run(labels)| == |labels| <==> forall i | 0 <= i < |labels| :: |labels[i]| == 1
  {
    if labels != [] {
      var init := labels[..|labels| - 1];
      RunLength(init);
      assert forall i | 0 <= i < |init| :: init[i] == labels[i];
    }
  }

  lemma NibbleLabel(g: Groups, k: nat, i: nat)
    requires k < 8 && i < 4
    ensures NibbleTexts(g)[4 * k + i] == [RenderGroup(g[k])[i]]
  {
    assert (4 * k + i) / 4 == k && (4 * k + i) % 4 == i;
  }

  lemma NibbleGroup(g: Groups, k: nat)
    requires k < 8
    ensures Pieces(NibbleTexts(g))[k] == RenderGroup(g[k])
  {
    var labels, text := NibbleTexts(g), RenderGroup(g[k]);
    FourRun(labels[4 * k..4 * k + 4]);
    NibbleLabel(g, k, 0);
    NibbleLabel(g, k, 1);
    NibbleLabel(g, k, 2);
    NibbleLabel(g, k, 3);
    assert text == [text[0]] + [text[1]] + [text[2]] + [text[3]];
  }

  lemma FourRun(labels: seq<string>)
    requires |labels| == 4
    ensures Run(labels) == labels[0] + labels[1] + labels[2] + labels[3]
  {
    assert labels[..3][..2] == labels[..2] && labels[..2][..1] == labels[..1] && labels[..1][..0] == [];
    assert Run(labels[..1]) == labels[0];
    assert Run(labels[..2]) == labels[0] + labels[1];
    assert Run(labels[..3]) == labels[0] + labels[1] + labels[2];
  }

  lemma NibblesSpellGroups(g: Groups)
    ensures Colonise(NibbleTexts(g)) == RenderV6(g)
  {
    var pieces := Pieces(NibbleTexts(g));
    ColoniseJoins(NibbleTexts(g));
    forall k | 0 <= k < 8
      ensures pieces[k] == RenderGroup(g[k])
    {
      NibbleGroup(g, k);
    }
    assert pieces == GroupTexts(g);
  }

  lemma Ip6NotInAddr(n: string)
    ensures StripSuffix(n + IP6_SUFFIX, IN_ADDR_SUFFIX).None?
  {
    var s := n + IP6_SUFFIX;
    assert s[|s| - 10] == '.';
    SuffixChar(s, IN_ADDR_SUFFIX, 4);
  }

  /** Decoding the reverse name of an address gives the address. */
  lemma ReverseRoundTrip(ip: Ip)
    ensures ReverseText(ArpaName(ip)) == Some(RenderIp(ip))
    ensures ReverseAddress(ArpaName(ip)) == Some(ip)
  {
    IpRoundTrip(ip);
    match ip
    case V4(o) =>
      var labels := OctetTexts(o);
      forall i | 0 <= i < 4
        ensures '.' !in labels[i]
      {
        if '.' in labels[i] { OctetTextPlain(o[i], '.'); }
      }
      LabelsDecode(labels);
      StripSuffixConcat(Join(Reverse(labels), "."), IN_ADDR_SUFFIX);
    case V6(g) =>
      var labels := NibbleTexts(g);
      LabelsDecode(labels);
      var n := Join(Reverse(labels), ".");
      Ip6NotInAddr(n);
      StripSuffixConcat(n, IP6_SUFFIX);
      NibblesSpellGroups(g);
  }

  /** The canonical names stand under the two domains for reverse lookup. */
  lemma ArpaDomains(ip: Ip)
    ensures EndsWith(ArpaName(ip), if ip.V4? then ".in-addr.arpa." else ".ip6.arpa.")
  {
  }

  lemma {:induction false} ColoniseChars(labels: seq<string>, d: char)
    requires d in Colonise(labels)
    ensures d == ':' || exists i :: 0 <= i < |labels| && d in labels[i]
  {
    var n := |labels| - 1;
    if d in Colonise(labels[..n]) {
      ColoniseChars(labels[..n], d);
    } else if d != ':' {
      assert d in labels[n];
    }
  }

  /** An IPv4 address is asked about by exactly one name. */
  lemma InAddrExact(name: string, o: Octets)
    ensures ReverseAddress(name) == Some(V4(o)) <==> name == ArpaName(V4(o))
  {
    ReverseRoundTrip(V4(o));
    if ReverseAddress(name) == Some(V4(o)) {
      var text := ReverseText(name).value;
      V4RoundTrip(text, o);
      match StripSuffix(name, IN_ADDR_SUFFIX)
      case Some(n) =>
        InAddrUnique(n, o);
      case None =>
        var n := StripSuffix(name, IP6_SUFFIX).value;
        var labels := Reverse(Split(n, '.'));
        SplitPieces(n, '.');
        if '.' in Colonise(labels) { ColoniseChars(labels, '.'); }
        NoDotNoQuad(text);
        assert false;
    }
  }

  // ------------------------------------------- which IPv6 names there are

  predicate IsHex(text: string)
  {
    forall c | c in text :: HexValue(c).Some?
  }

  predicate OneHex(text: string)
  {
    |text| == 1 && IsHex(text)
  }

  /** Labels as in a domain name, without colons. */
  predicate PlainLabels(labels: seq<string>)
  {
    |labels| >= 1 && NonEmpty(labels) && forall i | 0 <= i < |labels| :: '.' !in labels[i] && ':' !in labels[i]
  }

  /** One hexadecimal digit in each of the 28 highest labels, and one to four
      in the others together. */
  predicate Ip6Labels(labels: seq<string>)
  {
    && |labels| >= 29
    && (forall i | 0 <= i < 28 :: OneHex(labels[i]))
    && |Run(labels[28..])| <= 4 && IsHex(Run(labels[28..]))
  }

  lemma RunPlain(labels: seq<string>, low: nat, high: nat)
    requires PlainLabels(labels) && low <= high <= |labels|
    ensures '.' !in Run(labels[low..high]) && ':' !in Run(labels[low..high])
    ensures |Run(labels[low..high])| >= high - low
  {
    var part := labels[low..high];
    forall i | 0 <= i < |part|
      ensures '.' !in part[i] && ':' !in part[i] && part[i] != ""
    {
      assert part[i] == labels[low + i];
    }
    RunChars(part, '.');
    RunChars(part, ':');
    RunLength(part);
  }

  lemma PiecePlain(labels: seq<string>, k: nat)
    requires PlainLabels(labels) && k <= Colons(|labels|)
    ensures '.' !in Pieces(labels)[k] && ':' !in Pieces(labels)[k]
    ensures k < Colons(|labels|) ==> Pieces(labels)[k] != ""
  {
    ColonsNext(|labels|);
    RunPlain(labels, 4 * k, PieceEnd(k, |labels|));
  }

  lemma IsHexConcat(a: string, b: string)
    ensures IsHex(a + b) <==> IsHex(a) && IsHex(b)
  {
    assert forall c :: c in a + b <==> c in a || c in b;
  }

  lemma FourGroup(a: string, b: string, c: string, d: string)
    requires a != "" && b != "" && c != "" && d != ""
    ensures ParseGroup(a + b + c + d).Some? <==> OneHex(a) && OneHex(b) && OneHex(c) && OneHex(d)
  {
    GroupDigits(a + b + c + d);
    IsHexConcat(a, b);
    IsHexConcat(a + b, c);
    IsHexConcat(a + b + c, d);
    assert ParseGroup(a + b + c + d).Some? <==> |a + b + c + d| <= 4 && IsHex(a + b + c + d);
  }

  lemma HighPieceText(labels: seq<string>, k: nat)
    requires k < 7 && |labels| >= 28
    ensures k < |Pieces(labels)|
    ensures Pieces(labels)[k] == labels[4 * k] + labels[4 * k + 1] + labels[4 * k + 2] + labels[4 * k + 3]
  {
    ColonsBound(|labels|);
    FourRun(labels[4 * k..4 * k + 4]);
  }

  /** Each of four labels is one hexadecimal digit. */
  predicate FourHex(labels: seq<string>, k: nat)
    requires 4 * k + 4 <= |labels|
  {
    OneHex(labels[4 * k]) && OneHex(labels[4 * k + 1]) && OneHex(labels[4 * k + 2]) && OneHex(labels[4 * k + 3])
  }

  lemma HighPiece(labels: seq<string>, k: nat)
    requires NonEmpty(labels) && k < 7 && |labels| >= 28
    ensures k < |Pieces(labels)| && (ParseGroup(Pieces(labels)[k]).Some? <==> FourHex(labels, k))
  {
    HighPieceText(labels, k);
    FourGroup(labels[4 * k], labels[4 * k + 1], labels[4 * k + 2], labels[4 * k + 3]);
  }

  lemma LastPiece(labels: seq<string>)
    requires PlainLabels(labels) && |labels| >= 28
    ensures ParseGroup(Pieces(labels)[7]).Some? <==>
            |labels| >= 29 && |Run(labels[28..])| <= 4 && IsHex(Run(labels[28..]))
  {
    ColonsBound(|labels|);
    assert labels[4 * 7..PieceEnd(7, |labels|)] == labels[28..];
    RunLength(labels[28..]);
    GroupDigits(Run(labels[28..]));
  }

  lemma FourEach(labels: seq<string>, pieces: seq<string>)
    requires |labels| >= 28 && |pieces| >= 7
    requires forall k | 0 <= k < 7 :: ParseGroup(pieces[k]).Some? <==> FourHex(labels, k)
    ensures (forall k | 0 <= k < 7 :: ParseGroup(pieces[k]).Some?) <==> forall i | 0 <= i < 28 :: OneHex(labels[i])
  {
    if forall k | 0 <= k < 7 :: ParseGroup(pieces[k]).Some? {
      forall i | 0 <= i < 28
        ensures OneHex(labels[i])
      {
        assert ParseGroup(pieces[i / 4]).Some? && FourHex(labels, i / 4);
        assert i == 4 * (i / 4) + i % 4;
      }
    } else {
      var k :| 0 <= k < 7 && ParseGroup(pieces[k]).None?;
      assert !FourHex(labels, k);
    }
  }

  lemma HighPieces(labels: seq<string>)
    requires PlainLabels(labels) && |labels| >= 28
    ensures (forall k | 0 <= k < 7 :: ParseGroup(Pieces(labels)[k]).Some?) <==>
            forall i | 0 <= i < 28 :: OneHex(labels[i])
  {
    var pieces := Pieces(labels);
    forall k | 0 <= k < 7
      ensures ParseGroup(pieces[k]).Some? <==> FourHex(labels, k)
    {
      HighPiece(labels, k);
    }
    FourEach(labels, pieces);
  }

  lemma PiecesAreGroups(labels: seq<string>)
    requires PlainLabels(labels) && |labels| >= 28
    ensures AreGroupTexts(Pieces(labels)) <==> Ip6Labels(labels)
  {
    HighPieces(labels);
    LastPiece(labels);
  }

  /** A name under `ip6.arpa` asks about an address exactly when its labels are
      such, so that there are 29 to 32; and the address is the one that its
      digits spell, four to a group. */
  lemma Ip6Exact(labels: seq<string>)
    requires PlainLabels(labels)
    ensures var asked := ReverseAddress(Join(Reverse(labels), ".") + IP6_SUFFIX);
            && (asked.Some? <==> Ip6Labels(labels))
            && (asked.Some? ==> |labels| <= 32)
            && (asked.Some? ==> AreGroupTexts(Pieces(labels)) && asked == Some(V6(GroupValues(Pieces(labels)))))
  {
    var pieces, n := Pieces(labels), Join(Reverse(labels), ".");
    LabelsDecode(labels);
    Ip6NotInAddr(n);
    StripSuffixConcat(n, IP6_SUFFIX);
    ColoniseJoins(labels);
    forall k | 0 <= k < |pieces|
      ensures '.' !in pieces[k] && ':' !in pieces[k] && (k < |pieces| - 1 ==> pieces[k] != "")
    {
      PiecePlain(labels, k);
    }
    FullForm(pieces);
    if |labels| >= 28 {
      PiecesAreGroups(labels);
      RunLength(labels[28..]);
    }
  }

  lemma InAddrUnique(n: string, o: Octets)
    requires Join(Reverse(Split(n, '.')), ".") == RenderV4(o)
    ensures n == Join(Reverse(OctetTexts(o)), ".")
  {
    var labels := Split(n, '.');
    SplitPieces(n, '.');
    SplitJoin(Reverse(labels), '.');
    V4RoundTrip(RenderV4(o), o);
    V4Pieces(o);
    assert Reverse(labels) == OctetTexts(o);
    ReverseTwice(labels);
  }

  lemma V4Pieces(o: Octets)
    ensures Split(RenderV4(o), '.') == OctetTexts(o)
  {
    forall i | 0 <= i < 4
      ensures '.' !in OctetTexts(o)[i]
    {
      if '.' in OctetTexts(o)[i] { OctetTextPlain(o[i], '.'); }
    }
    SplitJoin(OctetTexts(o), '.');
  }
}
