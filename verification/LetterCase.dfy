/** Letter case in reverse names: addresses are read in either case, but the
    suffixes are compared as spelled. */
module LetterCase {
  import opened Wrappers
  import opened Text
  import opened Address
  import opened ReverseName

  // ------------------------------------------------------------------ text

  lemma {:induction false} JoinLower(parts: seq<string>, sep: string)
    ensures Join(LowerAll(parts), Lower(sep)) == Lower(Join(parts, sep))
  {
    if |parts| > 1 {
      var rest := parts[1..];
      JoinLower(rest, sep);
      assert LowerAll(parts)[1..] == LowerAll(rest);
      LowerLaws(parts[0] + sep, Join(rest, sep));
      LowerLaws(parts[0], sep);
    }
  }

  lemma ReverseLower(parts: seq<string>)
    ensures Reverse(LowerAll(parts)) == LowerAll(Reverse(parts))
  {
  }

  lemma {:induction false} ColoniseLower(labels: seq<string>)
    ensures Colonise(LowerAll(labels)) == Lower(Colonise(labels))
  {
    if labels != [] {
      var i := |labels| - 1;
      ColoniseLower(labels[..i]);
      assert LowerAll(labels)[..i] == LowerAll(labels[..i]);
      LowerLaws(Colonise(labels[..i]), labels[i]);
      LowerLaws(Colonise(labels[..i]) + labels[i], ":");
      assert Lower(":") == ":";
    }
  }

  // ------------------------------------------------------------- addresses

  lemma {:induction false} NumberLower(s: string, base: nat)
    ensures Number(Lower(s), base) == Number(s, base)
  {
    if s != "" {
      NumberLower(s[..|s| - 1], base);
      assert Lower(s)[..|s| - 1] == Lower(s[..|s| - 1]);
    }
  }

  lemma OctetLower(s: string)
    ensures ParseOctet(Lower(s)) == ParseOctet(s)
  {
    NumberLower(s, 10);
  }

  lemma QuadLower(s: string)
    ensures ParseV4(Lower(s)) == ParseV4(s)
  {
    SplitLower(s, '.');
    var parts := Split(s, '.');
    if |parts| == 4 {
      OctetLower(parts[0]);
      OctetLower(parts[1]);
      OctetLower(parts[2]);
      OctetLower(parts[3]);
    }
  }

  lemma {:induction false} PiecesLower(pieces: seq<string>)
    ensures ParsePieces(LowerAll(pieces)) == ParsePieces(pieces)
  {
    if pieces != [] {
      QuadLower(pieces[0]);
      NumberLower(pieces[0], 16);
      PiecesLower(pieces[1..]);
      assert LowerAll(pieces)[1..] == LowerAll(pieces[1..]);
    }
  }

  lemma SideLower(pieces: seq<string>, last: bool)
    ensures ParseSide(LowerAll(pieces), last) == ParseSide(pieces, last)
  {
    PiecesLower(pieces);
    assert LowerAll(pieces) == [""] <==> pieces == [""] by {
      if LowerAll(pieces) == [""] {
        assert pieces == [pieces[0]];
      }
    }
    if pieces != [] {
      QuadLower(pieces[|pieces| - 1]);
    }
  }

  lemma {:induction false} GapLower(pieces: seq<string>, from: nat)
    requires 1 <= from
    ensures FirstGap(LowerAll(pieces), from) == FirstGap(pieces, from)
    decreases |pieces| - from
  {
    if from + 1 < |pieces| {
      GapLower(pieces, from + 1);
    }
  }

  lemma SidesLower(pieces: seq<string>, i: nat)
    requires i < |pieces|
    ensures ParseSide(LowerAll(pieces)[..i], false) == ParseSide(pieces[..i], false)
    ensures ParseSide(LowerAll(pieces)[i + 1..], true) == ParseSide(pieces[i + 1..], true)
  {
    assert LowerAll(pieces)[..i] == LowerAll(pieces[..i]);
    assert LowerAll(pieces)[i + 1..] == LowerAll(pieces[i + 1..]);
    SideLower(pieces[..i], false);
    SideLower(pieces[i + 1..], true);
  }

  lemma GroupsLower(s: string)
    ensures ParseV6(Lower(s)) == ParseV6(s)
  {
    var pieces := Split(s, ':');
    SplitLower(s, ':');
    GapLower(pieces, 1);
    if FirstGap(pieces, 1).Some? {
      SidesLower(pieces, FirstGap(pieces, 1).value);
    } else {
      PiecesLower(pieces);
    }
  }

  /** The text of an address may be in either case. */
  lemma AddressLower(s: string)
    ensures ParseIp(Lower(s)) == ParseIp(s)
  {
    QuadLower(s);
    GroupsLower(s);
  }

  // --------------------------------------------------------- reverse names

  lemma LabelsLower(n: string)
    ensures Reverse(Split(Lower(n), '.')) == LowerAll(Reverse(Split(n, '.')))
  {
    SplitLower(n, '.');
    ReverseLower(Split(n, '.'));
  }

  lemma InAddrLower(n: string)
    ensures ReverseAddress(Lower(n + IN_ADDR_SUFFIX)) == ReverseAddress(n + IN_ADDR_SUFFIX)
  {
    LowerLaws(n, IN_ADDR_SUFFIX);
    assert Lower(IN_ADDR_SUFFIX) == IN_ADDR_SUFFIX;
    StripSuffixConcat(n, IN_ADDR_SUFFIX);
    StripSuffixConcat(Lower(n), IN_ADDR_SUFFIX);
    LabelsLower(n);
    JoinLower(Reverse(Split(n, '.')), ".");
    assert Lower(".") == ".";
    AddressLower(Join(Reverse(Split(n, '.')), "."));
  }

  lemma Ip6Lower(n: string)
    ensures ReverseAddress(Lower(n + IP6_SUFFIX)) == ReverseAddress(n + IP6_SUFFIX)
  {
    LowerLaws(n, IP6_SUFFIX);
    assert Lower(IP6_SUFFIX) == IP6_SUFFIX;
    Ip6NotInAddr(n);
    Ip6NotInAddr(Lower(n));
    StripSuffixConcat(n, IP6_SUFFIX);
    StripSuffixConcat(Lower(n), IP6_SUFFIX);
    LabelsLower(n);
    ColoniseLower(Reverse(Split(n, '.')));
    AddressLower(Colonise(Reverse(Split(n, '.'))));
  }

  /** The two suffixes are compared with their case, although DNS names are not:
      a name asks about the same address as its lower-case form exactly when it
      ends in one of them as spelled, or neither asks about any. */
  lemma SuffixCaseMatters(name: string)
    ensures ReverseAddress(name) == ReverseAddress(Lower(name)) <==>
            || EndsWith(name, IN_ADDR_SUFFIX)
            || EndsWith(name, IP6_SUFFIX)
            || ReverseAddress(Lower(name)).None?
    ensures ReverseAddress(name).Some? ==> EndsWith(name, IN_ADDR_SUFFIX) || EndsWith(name, IP6_SUFFIX)
  {
    if EndsWith(name, IN_ADDR_SUFFIX) {
      InAddrLower(StripSuffix(name, IN_ADDR_SUFFIX).value);
    } else if EndsWith(name, IP6_SUFFIX) {
      Ip6Lower(StripSuffix(name, IP6_SUFFIX).value);
    }
  }

  const UPPER_SUFFIX: string := ".IN-ADDR.arpa."

  lemma NotAsSpelled(n: string)
    ensures !EndsWith(n + UPPER_SUFFIX, IN_ADDR_SUFFIX) && !EndsWith(n + UPPER_SUFFIX, IP6_SUFFIX)
  {
    var name := n + UPPER_SUFFIX;
    assert name[|name| - 13] == 'I' && name[|name| - 10] == 'A';
    SuffixChar(name, IN_ADDR_SUFFIX, 1);
    SuffixChar(name, IP6_SUFFIX, 0);
  }

  lemma LowerSuffix()
    ensures Lower(UPPER_SUFFIX) == IN_ADDR_SUFFIX
  {
  }

  lemma UpperInAddr(n: string, o: Octets)
    requires n + IN_ADDR_SUFFIX == ArpaName(V4(o)) && IsLower(n)
    ensures ReverseAddress(n + UPPER_SUFFIX) == None
    ensures ReverseAddress(Lower(n + UPPER_SUFFIX)) == Some(V4(o))
  {
    NotAsSpelled(n);
    SuffixCaseMatters(n + UPPER_SUFFIX);
    LowerLaws(n, UPPER_SUFFIX);
    LowerSuffix();
    ReverseRoundTrip(V4(o));
  }

  /** `1.0.0.10.IN-ADDR.arpa.` asks about nothing, its lower-case form about
      10.0.0.1. */
  lemma UpperSuffix(name: string)
    requires name == "1.0.0.10" + UPPER_SUFFIX
    ensures ReverseAddress(name) == None
    ensures ReverseAddress(Lower(name)) == Some(V4([10, 0, 0, 1]))
  {
    ReversedQuad();
    var n := Join(Reverse(OctetTexts([10, 0, 0, 1])), ".");
    UpperInAddr(n, [10, 0, 0, 1]);
  }

  lemma ReversedQuad()
    ensures Join(Reverse(OctetTexts([10, 0, 0, 1])), ".") == "1.0.0.10"
    ensures IsLower("1.0.0.10")
  {
    var texts := Reverse(OctetTexts([10, 0, 0, 1]));
    assert texts[0] == "1" && texts[1] == "0" && texts[2] == "0" && texts[3] == "10";
    assert texts == ["1"] + (["0"] + (["0"] + ["10"]));
    JoinCons("0", ["10"], ".");
    JoinCons("0", ["0"] + ["10"], ".");
    JoinCons("1", ["0"] + (["0"] + ["10"]), ".");
  }
}
