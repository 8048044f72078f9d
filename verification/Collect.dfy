/** Four ways of reading a sequence from left to right: concatenating what each
    element contributes, adding it up, and keeping the first or the last value
    present. Every index and every query of the program is described with them. */
module Collect {
  import opened Wrappers

  /** The concatenation of `f(x)` over `s`, in order. */
  function Gather<T, V>(s: seq<T>, f: T -> seq<V>): seq<V>
  {
    if s == [] then [] else Gather(s[..|s| - 1], f) + f(s[|s| - 1])
  }

  function Sum<T>(s: seq<T>, w: T -> nat): nat
  {
    if s == [] then 0 else Sum(s[..|s| - 1], w) + w(s[|s| - 1])
  }

  /** The value of the last element that has one. */
  function Last<T, V>(s: seq<T>, f: T -> Option<V>): Option<V>
  {
    if s == [] then None
    else if f(s[|s| - 1]).Some? then f(s[|s| - 1])
    else Last(s[..|s| - 1], f)
  }

  /** The value of the first element that has one. */
  function First<T, V>(s: seq<T>, f: T -> Option<V>): Option<V>
  {
    if s == [] then None
    else if f(s[0]).Some? then f(s[0])
    else First(s[1..], f)
  }

  /** `vals` once for every occurrence of `k` in `keys`. */
  function Scatter<K(==), V>(keys: seq<K>, k: K, vals: seq<V>): seq<V>
  {
    Gather(keys, When(k, vals))
  }

  function When<K(==), V>(k: K, vals: seq<V>): K -> seq<V>
  {
    x => if x == k then vals else []
  }

  lemma ScatterSnoc<K, V>(keys: seq<K>, x: K, k: K, vals: seq<V>)
    ensures Scatter(keys + [x], k, vals) == Scatter(keys, k, vals) + (if x == k then vals else [])
  {
    GatherSnoc(keys, x, When(k, vals));
  }

  ghost function Count<T>(s: seq<T>, x: T): nat
  {
    multiset(s)[x]
  }

  // ---------------------------------------------------------------- Gather

  lemma GatherSnoc<T, V>(s: seq<T>, x: T, f: T -> seq<V>)
    ensures Gather(s + [x], f) == Gather(s, f) + f(x)
  {
    assert (s + [x])[..|s|] == s;
  }

  /** Replacing the last element by one that contributes more. */
  lemma GatherSwap<T, V>(s: seq<T>, x: T, y: T, more: seq<V>, f: T -> seq<V>)
    requires f(y) == f(x) + more
    ensures Gather(s + [y], f) == Gather(s + [x], f) + more
  {
    GatherSnoc(s, x, f);
    GatherSnoc(s, y, f);
    assert Gather(s, f) + (f(x) + more) == (Gather(s, f) + f(x)) + more;
  }

  lemma {:induction false} GatherConcat<T, V>(a: seq<T>, b: seq<T>, f: T -> seq<V>)
    ensures Gather(a + b, f) == Gather(a, f) + Gather(b, f)
  {
    if b == [] {
      assert a + b == a;
    } else {
      var b', x := b[..|b| - 1], b[|b| - 1];
      assert a + b == (a + b') + [x];
      GatherSnoc(a + b', x, f);
      GatherConcat(a, b', f);
      assert (Gather(a, f) + Gather(b', f)) + f(x) == Gather(a, f) + (Gather(b', f) + f(x));
    }
  }

  lemma {:induction false} GatherSame<T, V>(s: seq<T>, f: T -> seq<V>, g: T -> seq<V>)
    requires forall x | x in s :: f(x) == g(x)
    ensures Gather(s, f) == Gather(s, g)
  {
    if s != [] {
      GatherSame(s[..|s| - 1], f, g);
    }
  }

  lemma {:induction false} GatherMember<T, V>(s: seq<T>, f: T -> seq<V>, v: V)
    ensures v in Gather(s, f) <==> exists x :: x in s && v in f(x)
  {
    if s != [] {
      var init, x := s[..|s| - 1], s[|s| - 1];
      GatherMember(init, f, v);
      assert s == init + [x];
    }
  }

  function Then<T, U, V>(f: T -> seq<U>, g: U -> seq<V>): T -> seq<V>
  {
    x => Gather(f(x), g)
  }

  lemma {:induction false} GatherFuse<T, U, V>(s: seq<T>, f: T -> seq<U>, g: U -> seq<V>)
    ensures Gather(Gather(s, f), g) == Gather(s, Then(f, g))
  {
    if s != [] {
      var init, x := s[..|s| - 1], s[|s| - 1];
      GatherFuse(init, f, g);
      GatherConcat(Gather(init, f), f(x), g);
    }
  }

  lemma {:induction false} GatherNone<T, V>(s: seq<T>, f: T -> seq<V>)
    requires forall x | x in s :: f(x) == []
    ensures Gather(s, f) == []
  {
    if s != [] {
      GatherNone(s[..|s| - 1], f);
    }
  }

  /** When only `x` contributes, and it occurs once, its contribution is all. */
  lemma {:induction false} GatherOne<T, V>(s: seq<T>, f: T -> seq<V>, x: T)
    requires Count(s, x) == 1
    requires forall y | y in s && y != x :: f(y) == []
    ensures Gather(s, f) == f(x)
  {
    var init, y := s[..|s| - 1], s[|s| - 1];
    assert s == init + [y];
    if y == x {
      assert Count(init, x) == 0;
      assert x !in init;
      GatherNone(init, f);
    } else {
      GatherOne(init, f, x);
    }
  }

  // ------------------------------------------------------------------- Sum

  lemma SumSnoc<T>(s: seq<T>, x: T, w: T -> nat)
    ensures Sum(s + [x], w) == Sum(s, w) + w(x)
  {
    assert (s + [x])[..|s|] == s;
  }

  lemma {:induction false} SumConcat<T>(a: seq<T>, b: seq<T>, w: T -> nat)
    ensures Sum(a + b, w) == Sum(a, w) + Sum(b, w)
  {
    if b == [] {
      assert a + b == a;
    } else {
      var b', x := b[..|b| - 1], b[|b| - 1];
      assert a + b == (a + b') + [x];
      SumSnoc(a + b', x, w);
      SumConcat(a, b', w);
    }
  }

  lemma {:induction false} SumSame<T>(s: seq<T>, v: T -> nat, w: T -> nat)
    requires forall x | x in s :: v(x) == w(x)
    ensures Sum(s, v) == Sum(s, w)
  {
    if s != [] {
      SumSame(s[..|s| - 1], v, w);
    }
  }

  /** A sum is positive exactly when one of its terms is. */
  lemma {:induction false} SumPositive<T>(s: seq<T>, w: T -> nat)
    ensures Sum(s, w) > 0 <==> exists x :: x in s && w(x) > 0
  {
    if s != [] {
      var init, x := s[..|s| - 1], s[|s| - 1];
      SumPositive(init, w);
      assert s == init + [x];
    }
  }

  lemma TakeOut<T>(init: seq<T>, x: T, left: seq<T>, right: seq<T>)
    requires multiset(init + [x]) == multiset(left + [x] + right)
    ensures multiset(init) == multiset(left + right)
  {
    assert multiset(init + [x]) == multiset(init) + multiset{x};
    assert multiset(left + [x] + right) == multiset(left) + multiset{x} + multiset(right);
    assert multiset(init) == multiset(init + [x]) - multiset{x};
    assert multiset(left + right) == multiset(left + [x] + right) - multiset{x};
  }

  /** Order does not matter to a sum. */
  lemma {:induction false} SumPermutation<T>(a: seq<T>, b: seq<T>, w: T -> nat)
    requires multiset(a) == multiset(b)
    ensures Sum(a, w) == Sum(b, w)
    decreases |a|
  {
    if a == [] {
      assert |b| == |multiset(b)| == |multiset(a)| == |a|;
    } else {
      var init, x := a[..|a| - 1], a[|a| - 1];
      assert a == init + [x];
      assert x in multiset(b);
      var i :| 0 <= i < |b| && b[i] == x;
      var left, right := b[..i], b[i + 1..];
      assert b == left + [x] + right;
      TakeOut(init, x, left, right);
      SumPermutation(init, left + right, w);
      SumConcat(left, right, w);
      SumSnoc(left, x, w);
      SumConcat(left + [x], right, w);
    }
  }

  ghost function CountIn<T, V>(f: T -> seq<V>, v: V): T -> nat
  {
    x => Count(f(x), v)
  }

  /** Multiplicities in a concatenation add up. */
  lemma {:induction false} GatherCount<T, V>(s: seq<T>, f: T -> seq<V>, v: V)
    ensures Count(Gather(s, f), v) == Sum(s, CountIn(f, v))
  {
    if s != [] {
      GatherCount(s[..|s| - 1], f, v);
    }
  }

  lemma GatherPermutation<T, V>(a: seq<T>, b: seq<T>, f: T -> seq<V>)
    requires multiset(a) == multiset(b)
    ensures multiset(Gather(a, f)) == multiset(Gather(b, f))
  {
    forall v: V
      ensures Count(Gather(a, f), v) == Count(Gather(b, f), v)
    {
      GatherCount(a, f, v);
      GatherCount(b, f, v);
      SumPermutation(a, b, CountIn(f, v));
    }
    SameCounts(Gather(a, f), Gather(b, f));
  }

  lemma SameCounts<V>(a: seq<V>, b: seq<V>)
    requires forall v: V :: Count(a, v) == Count(b, v)
    ensures multiset(a) == multiset(b)
  {
    forall v: V
      ensures multiset(a)[v] == multiset(b)[v]
    {
      assert Count(a, v) == Count(b, v);
    }
  }

  lemma ScatterNone<K, V>(keys: seq<K>, k: K, vals: seq<V>)
    requires k !in keys
    ensures Scatter(keys, k, vals) == []
  {
    GatherNone(keys, When(k, vals));
  }

  lemma {:induction false} ScatterCount<K, V>(keys: seq<K>, k: K, vals: seq<V>, v: V)
    ensures Count(Scatter(keys, k, vals), v) == Count(keys, k) * Count(vals, v)
  {
    if keys != [] {
      var init, x := keys[..|keys| - 1], keys[|keys| - 1];
      assert keys == init + [x];
      ScatterCount(init, k, vals, v);
      GatherSnoc(init, x, When(k, vals));
      if x == k {
        Successor(Count(init, k), Count(vals, v));
        assert multiset(keys) == multiset(init) + multiset{k};
      }
    }
  }

  lemma Successor(n: nat, c: nat)
    ensures (n + 1) * c == n * c + c
  {
  }

  function Matching<K(==), T>(key: T -> K, w: T -> nat, k: K): T -> nat
  {
    x => if key(x) == k then w(x) else 0
  }

  function SumMatching<K(==), T>(items: seq<T>, key: T -> K, w: T -> nat): K -> nat
  {
    k => Sum(items, Matching(key, w, k))
  }

  /** Raising one value of a function raises its sum once per occurrence. */
  lemma {:induction false} SumBump<K>(keys: seq<K>, v: K -> nat, w: K -> nat, k: K, d: nat)
    requires w(k) == v(k) + d
    requires forall x | x != k :: w(x) == v(x)
    ensures Sum(keys, w) == Sum(keys, v) + Count(keys, k) * d
  {
    if keys != [] {
      var init, x := keys[..|keys| - 1], keys[|keys| - 1];
      assert keys == init + [x];
      SumBump(init, v, w, k, d);
      if x == k {
        Successor(Count(init, k), d);
        assert multiset(keys) == multiset(init) + multiset{k};
      }
    }
  }

  ghost function Weighted<K, T>(keys: seq<K>, key: T -> K, w: T -> nat): T -> nat
  {
    x => Count(keys, key(x)) * w(x)
  }

  /** Double counting: adding, for each key, the items under it is adding each
      item once for every occurrence of its key. */
  lemma {:induction false} Exchange<K, T>(keys: seq<K>, items: seq<T>, key: T -> K, w: T -> nat)
    ensures Sum(keys, SumMatching(items, key, w)) == Sum(items, Weighted(keys, key, w))
  {
    if items == [] {
      SumZero(keys, SumMatching(items, key, w));
    } else {
      var init, x := items[..|items| - 1], items[|items| - 1];
      Exchange(keys, init, key, w);
      SumBump(keys, SumMatching(init, key, w), SumMatching(items, key, w), key(x), w(x));
    }
  }

  lemma {:induction false} SumZero<T>(s: seq<T>, w: T -> nat)
    requires forall x | x in s :: w(x) == 0
    ensures Sum(s, w) == 0
  {
    if s != [] {
      SumZero(s[..|s| - 1], w);
    }
  }

  // ------------------------------------------------------------------ Last

  lemma LastSnoc<T, V>(s: seq<T>, x: T, f: T -> Option<V>)
    ensures Last(s + [x], f) == if f(x).Some? then f(x) else Last(s, f)
  {
    assert (s + [x])[..|s|] == s;
  }

  /** The last value is the value of some element; there is none only when no
      element has one. */
  lemma {:induction false} LastMember<T, V>(s: seq<T>, f: T -> Option<V>)
    ensures Last(s, f).Some? <==> exists x :: x in s && f(x).Some?
    ensures Last(s, f).Some? ==> exists x :: x in s && f(x) == Last(s, f)
  {
    if s != [] {
      var init, x := s[..|s| - 1], s[|s| - 1];
      LastMember(init, f);
      assert s == init + [x];
    }
  }

  /** When the elements that have a value agree on it, order does not matter. */
  lemma LastAgree<T(!new), V>(a: seq<T>, b: seq<T>, f: T -> Option<V>)
    requires multiset(a) == multiset(b)
    requires Agree(a, f)
    ensures Last(a, f) == Last(b, f)
  {
    SameMembers(a, b);
    LastMember(a, f);
    LastMember(b, f);
  }

  lemma SameMembers<T>(a: seq<T>, b: seq<T>)
    requires multiset(a) == multiset(b)
    ensures forall x :: x in a <==> x in b
  {
    forall x
      ensures x in a <==> x in b
    {
      assert x in a <==> x in multiset(a);
      assert x in b <==> x in multiset(b);
    }
  }

  lemma {:induction false} LastConcat<T, V>(a: seq<T>, b: seq<T>, f: T -> Option<V>)
    ensures Last(a + b, f) == if Last(b, f).Some? then Last(b, f) else Last(a, f)
  {
    if b == [] {
      assert a + b == a;
    } else {
      var init, x := b[..|b| - 1], b[|b| - 1];
      assert a + b == (a + init) + [x];
      LastSnoc(a + init, x, f);
      LastConcat(a, init, f);
    }
  }

  function LastIn<T, U, V>(f: T -> seq<U>, g: U -> Option<V>): T -> Option<V>
  {
    x => Last(f(x), g)
  }

  /** The last value of a concatenation is that of the last part with one. */
  lemma {:induction false} LastFuse<T, U, V>(s: seq<T>, f: T -> seq<U>, g: U -> Option<V>)
    ensures Last(Gather(s, f), g) == Last(s, LastIn(f, g))
  {
    if s != [] {
      var init, x := s[..|s| - 1], s[|s| - 1];
      LastFuse(init, f, g);
      LastConcat(Gather(init, f), f(x), g);
    }
  }

  /** The elements that have a value agree on it. */
  ghost predicate Agree<T(!new), V>(s: seq<T>, f: T -> Option<V>)
  {
    forall x, y | x in s && y in s && f(x).Some? && f(y).Some? :: f(x) == f(y)
  }

  /** Any element can be read last. */
  lemma MoveLast<T>(s: seq<T>, x: T) returns (t: seq<T>)
    requires x in s
    ensures multiset(s) == multiset(t) && t != [] && t[|t| - 1] == x
  {
    var i :| 0 <= i < |s| && s[i] == x;
    t := s[..i] + s[i + 1..] + [x];
    assert s == s[..i] + [x] + s[i + 1..];
  }

  lemma LastFirst<T, V>(s: seq<T>, x: T, f: T -> Option<V>) returns (t: seq<T>)
    requires x in s && f(x).Some?
    ensures multiset(s) == multiset(t) && Last(t, f) == f(x)
  {
    t := MoveLast(s, x);
  }

  // ----------------------------------------------------------------- First

  /** The first value is the value of some element; there is none only when no
      element has one. */
  lemma {:induction false} FirstMember<T, V>(s: seq<T>, f: T -> Option<V>)
    ensures First(s, f).Some? <==> exists x :: x in s && f(x).Some?
    ensures First(s, f).Some? ==> exists x :: x in s && f(x) == First(s, f)
  {
    if s != [] {
      FirstMember(s[1..], f);
      assert s == [s[0]] + s[1..];
    }
  }

  // -------------------------------------------------------------- selection

  /** `t` holds, in order, what is made of the elements of `s` that are kept,
      which stand at the places `at`. */
  ghost predicate Selected<T, U>(s: seq<T>, t: seq<U>, at: seq<nat>, keep: T -> bool, made: (T, U) -> bool)
  {
    && |at| == |t|
    && (forall k | 0 <= k < |at| :: at[k] < |s| && keep(s[at[k]]) && made(s[at[k]], t[k]))
    && (forall j, k | 0 <= j < k < |at| :: at[j] < at[k])
    && (forall i | 0 <= i < |s| && keep(s[i]) :: i in at)
  }

  lemma SelectedKept<T, U>(s: seq<T>, n: nat, t: seq<U>, at: seq<nat>, keep: T -> bool, made: (T, U) -> bool)
    requires |s| == n + 1 && Selected(s[..n], t, at, keep, made) && !keep(s[n])
    ensures Selected(s, t, at, keep, made)
  {
    forall i | 0 <= i < |s| && keep(s[i])
      ensures i in at
    {
      assert s[..n][i] == s[i];
    }
  }

  lemma SelectedGrows<T, U>(s: seq<T>, n: nat, t: seq<U>, at: seq<nat>, x: U, keep: T -> bool, made: (T, U) -> bool)
    requires |s| == n + 1 && Selected(s[..n], t, at, keep, made) && keep(s[n]) && made(s[n], x)
    ensures Selected(s, t + [x], at + [n], keep, made)
  {
    forall i | 0 <= i < |s| && keep(s[i])
      ensures i in at + [n]
    {
      if i < n {
        assert s[..n][i] == s[i];
        assert i in at;
      } else {
        assert (at + [n])[|at|] == n;
      }
    }
  }
}
