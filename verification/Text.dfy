/** The string operations the source takes from the standard library: `split`,
    `join`, `rev`, `to_lowercase` (on ASCII), `ends_with` and `strip_suffix`. */
module Text {
  import opened Wrappers

  function Join(parts: seq<string>, sep: string): string
  {
    if |parts| == 0 then ""
    else if |parts| == 1 then parts[0]
    else parts[0] + sep + Join(parts[1..], sep)
  }

  /** One more character in front of a text already split. */
  function Prepend(d: char, c: char, rest: seq<string>): (parts: seq<string>)
    requires |rest| >= 1
    ensures |parts| >= 1
  {
    if d == c then [""] + rest else [[d] + rest[0]] + rest[1..]
  }

  /** `s.split(c)`: never empty, so a list split off a column always has a
      first item. */
  function Split(s: string, c: char): (parts: seq<string>)
    ensures |parts| >= 1
  {
    if s == "" then [""] else Prepend(s[0], c, Split(s[1..], c))
  }

  lemma ConsAssociates(d: char, first: string, c: char, rest: string)
    ensures ([d] + first) + [c] + rest == [d] + (first + [c] + rest)
  {
  }

  lemma JoinCons(first: string, rest: seq<string>, sep: string)
    requires |rest| >= 1
    ensures Join([first] + rest, sep) == first + sep + Join(rest, sep)
  {
    assert ([first] + rest)[1..] == rest;
  }

  lemma PrependJoin(d: char, c: char, rest: seq<string>)
    requires |rest| >= 1
    ensures Join(Prepend(d, c, rest), [c]) == [d] + Join(rest, [c])
  {
    if d == c {
      JoinCons("", rest, [c]);
      assert "" + [c] == [d];
    } else if |rest| == 1 {
      assert Prepend(d, c, rest) == [[d] + rest[0]];
    } else {
      JoinCons([d] + rest[0], rest[1..], [c]);
      ConsAssociates(d, rest[0], c, Join(rest[1..], [c]));
    }
  }

  lemma PrependConcat(d: char, c: char, rest: seq<string>, more: seq<string>)
    requires |rest| >= 1
    ensures Prepend(d, c, rest + more) == Prepend(d, c, rest) + more
  {
    assert (rest + more)[1..] == rest[1..] + more;
  }

  /** The pieces are free of the separator, hold only characters of the text,
      and give the text back when joined. */
  lemma {:induction false} SplitPieces(s: string, c: char)
    ensures forall i | 0 <= i < |Split(s, c)| :: c !in Split(s, c)[i]
    ensures forall i, d | 0 <= i < |Split(s, c)| && d in Split(s, c)[i] :: d in s
    ensures Join(Split(s, c), [c]) == s
  {
    if s == "" {
    } else {
      var rest := Split(s[1..], c);
      SplitPieces(s[1..], c);
      PrependJoin(s[0], c, rest);
      assert s == [s[0]] + s[1..];
      forall i | 0 <= i < |Split(s, c)|
        ensures c !in Split(s, c)[i]
        ensures forall d | d in Split(s, c)[i] :: d in s
      {
        PrependPiece(s[0], c, rest, i);
      }
    }
  }

  lemma PrependPiece(d: char, c: char, rest: seq<string>, i: nat)
    requires |rest| >= 1 && i < |Prepend(d, c, rest)|
    ensures Prepend(d, c, rest)[i] == ""
         || Prepend(d, c, rest)[i] in rest
         || (d != c && Prepend(d, c, rest)[i] == [d] + rest[0])
  {
  }

  lemma {:induction false} SplitWhole(s: string, c: char)
    requires c !in s
    ensures Split(s, c) == [s]
  {
    if s == "" {
    } else {
      SplitWhole(s[1..], c);
      assert s == [s[0]] + s[1..];
    }
  }

  lemma {:induction false} SplitConcat(a: string, b: string, c: char)
    ensures Split(a + [c] + b, c) == Split(a, c) + Split(b, c)
  {
    var s := a + [c] + b;
    if a == "" {
      assert s[0] == c && s[1..] == b;
    } else {
      assert s[0] == a[0] && s[1..] == a[1..] + [c] + b;
      SplitConcat(a[1..], b, c);
      PrependConcat(a[0], c, Split(a[1..], c), Split(b, c));
    }
  }

  /** The last piece can be extended after joining. */
  lemma {:induction false} JoinExtend(parts: seq<string>, more: string, sep: string)
    requires |parts| >= 1
    ensures var last := |parts| - 1;
            Join(parts[..last] + [parts[last] + more], sep) == Join(parts, sep) + more
  {
    var last := |parts| - 1;
    if last == 0 {
      assert parts[..last] + [parts[last] + more] == [parts[0] + more];
    } else {
      var rest := parts[1..];
      JoinExtend(rest, more, sep);
      var extended := rest[..last - 1] + [rest[last - 1] + more];
      assert parts[..last] + [parts[last] + more] == [parts[0]] + extended;
      JoinCons(parts[0], extended, sep);
      assert parts == [parts[0]] + rest;
      JoinCons(parts[0], rest, sep);
      assert parts[0] + sep + (Join(rest, sep) + more) == parts[0] + sep + Join(rest, sep) + more;
    }
  }

  /** Splitting is the inverse of joining pieces free of the separator. */
  lemma {:induction false} SplitJoin(parts: seq<string>, c: char)
    requires |parts| >= 1
    requires forall i | 0 <= i < |parts| :: c !in parts[i]
    ensures Split(Join(parts, [c]), c) == parts
  {
    SplitWhole(parts[0], c);
    if |parts| == 1 {
      assert parts == [parts[0]];
    } else {
      SplitJoin(parts[1..], c);
      SplitConcat(parts[0], Join(parts[1..], [c]), c);
      assert parts == [parts[0]] + parts[1..];
    }
  }

  lemma {:induction false} JoinChars(parts: seq<string>, sep: string, d: char)
    requires d in Join(parts, sep)
    ensures d in sep || exists i :: 0 <= i < |parts| && d in parts[i]
  {
    if |parts| <= 1 {
    } else if d !in parts[0] && d !in sep {
      JoinChars(parts[1..], sep, d);
      var i :| 0 <= i < |parts[1..]| && d in parts[1..][i];
      assert d in parts[i + 1];
    }
  }

  lemma {:induction false} JoinSnoc(parts: seq<string>, last: string, sep: string)
    requires |parts| >= 1
    ensures Join(parts + [last], sep) == Join(parts, sep) + sep + last
  {
    var all := parts + [last];
    if |parts| == 1 {
      assert all[1..] == [last];
    } else {
      assert all[1..] == parts[1..] + [last];
      JoinSnoc(parts[1..], last, sep);
    }
  }

  function Reverse<T>(s: seq<T>): (r: seq<T>)
    ensures |r| == |s|
    ensures forall i | 0 <= i < |s| :: r[i] == s[|s| - 1 - i]
  {
    seq(|s|, i requires 0 <= i < |s| => s[|s| - 1 - i])
  }

  function LowerChar(c: char): char
  {
    if 'A' <= c <= 'Z' then c + (32 as char) else c
  }

  /** `to_lowercase` on ASCII text. */
  function Lower(s: string): (r: string)
    ensures |r| == |s|
    ensures forall i | 0 <= i < |s| :: r[i] == LowerChar(s[i])
  {
    seq(|s|, i requires 0 <= i < |s| => LowerChar(s[i]))
  }

  function LowerAll(parts: seq<string>): (r: seq<string>)
    ensures |r| == |parts|
    ensures forall i | 0 <= i < |parts| :: r[i] == Lower(parts[i])
  {
    seq(|parts|, i requires 0 <= i < |parts| => Lower(parts[i]))
  }

  predicate IsLower(s: string)
  {
    Lower(s) == s
  }

  lemma LowerLaws(a: string, b: string)
    ensures Lower(a + b) == Lower(a) + Lower(b)
    ensures IsLower(Lower(a))
  {
  }

  /** The 26 letters are lowered, and nothing else. */
  lemma LowerLetters(c: char)
    ensures 'A' <= c <= 'Z' ==> LowerChar(c) as int - 'a' as int == c as int - 'A' as int
    ensures !('A' <= c <= 'Z') ==> LowerChar(c) == c
  {
  }

  /** Lowercasing neither creates nor removes a separator. */
  lemma LowerKeeps(s: string, c: char)
    requires !('A' <= c <= 'Z') && !('a' <= c <= 'z')
    ensures c in Lower(s) <==> c in s
  {
    if c in Lower(s) {
      var i :| 0 <= i < |s| && Lower(s)[i] == c;
      assert s[i] == c;
    }
    if c in s {
      var i :| 0 <= i < |s| && s[i] == c;
      assert Lower(s)[i] == c;
    }
  }

  /** Lower-casing neither creates nor removes the character. */
  predicate Caseless(c: char)
  {
    forall d: char :: LowerChar(d) == c <==> d == c
  }

  lemma {:induction false} SplitLower(s: string, c: char)
    requires Caseless(c)
    ensures Split(Lower(s), c) == LowerAll(Split(s, c))
  {
    if s == "" {
    } else {
      SplitLower(s[1..], c);
      assert Lower(s)[1..] == Lower(s[1..]);
      PrependLower(s[0], c, Split(s[1..], c));
    }
  }

  lemma PrependLower(d: char, c: char, rest: seq<string>)
    requires Caseless(c) && |rest| >= 1
    ensures Prepend(LowerChar(d), c, LowerAll(rest)) == LowerAll(Prepend(d, c, rest))
  {
    assert LowerChar(d) == c <==> d == c;
    LowerLaws([d], rest[0]);
    assert Lower([d]) == [LowerChar(d)];
  }

  predicate EndsWith(s: string, suffix: string)
  {
    |suffix| <= |s| && s[|s| - |suffix|..] == suffix
  }

  lemma SuffixChar(s: string, suffix: string, k: nat)
    requires k < |suffix|
    ensures EndsWith(s, suffix) ==> s[|s| - |suffix| + k] == suffix[k]
  {
    if EndsWith(s, suffix) {
      assert s[|s| - |suffix|..][k] == suffix[k];
    }
  }

  function DropLast(s: string, n: nat): string
    requires n <= |s|
  {
    s[..|s| - n]
  }

  function StripSuffix(s: string, suffix: string): (r: Option<string>)
    ensures r.Some? ==> s == r.value + suffix
    ensures r.None? ==> forall t: string :: s != t + suffix
  {
    if EndsWith(s, suffix) then
      Some(DropLast(s, |suffix|))
    else
      assert forall t: string :: s == t + suffix ==> s[|s| - |suffix|..] == suffix;
      None
  }

  lemma StripSuffixConcat(s: string, suffix: string)
    ensures StripSuffix(s + suffix, suffix) == Some(s)
  {
    assert DropLast(s + suffix, |suffix|) == s;
  }
}
