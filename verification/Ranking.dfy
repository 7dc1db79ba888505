/** Sequences ranked by a strict total order: what "ORDER BY ... DESC LIMIT n", a Redis sorted set and
    sort.Slice have in common. `gt(x, y)` reads "x comes before y". */
module Ranking {

  ghost predicate StrictTotal<T(!new)>(gt: (T, T) -> bool) {
    && (forall x :: !gt(x, x))
    && (forall x, y :: x != y ==> gt(x, y) || gt(y, x))
    && (forall x, y, z :: gt(x, y) && gt(y, z) ==> gt(x, z))
  }

  ghost predicate Ranked<T>(gt: (T, T) -> bool, s: seq<T>) {
    forall i, j :: 0 <= i < j < |s| ==> gt(s[i], s[j])
  }

  function Elems<T(!new)>(s: seq<T>): (r: set<T>)
    ensures forall x :: x in r <==> x in s
  {
    set x | x in s
  }

  /** The first n elements, or all of them. */
  function Take<T>(s: seq<T>, n: nat): (r: seq<T>)
    ensures |r| == (if n < |s| then n else |s|) && r == s[..|r|]
  {
    if n < |s| then s[..n] else s
  }

  /** In a ranked sequence, positions and order agree. */
  lemma RankedIndex<T(!new)>(gt: (T, T) -> bool, s: seq<T>, i: nat, j: nat)
    requires StrictTotal(gt) && Ranked(gt, s) && i < |s| && j < |s|
    ensures gt(s[i], s[j]) <==> i < j
    ensures s[i] == s[j] <==> i == j
  {
    if i < j {
      assert gt(s[i], s[j]);
    } else if j < i {
      assert gt(s[j], s[i]);
    }
  }

  /** Every set can be ranked. */
  lemma {:induction false} RankExists<T(!new)>(gt: (T, T) -> bool, s: set<T>) returns (r: seq<T>)
    requires StrictTotal(gt)
    ensures Ranked(gt, r) && Elems(r) == s && |r| == |s|
    decreases |s|
  {
    if s == {} {
      r := [];
    } else {
      var m :| m in s;
      var above := set x | x in s && gt(x, m);
      var below := set x | x in s && gt(m, x);
      Smaller(above, s, m);
      Smaller(below, s, m);
      var a := RankExists(gt, above);
      var b := RankExists(gt, below);
      r := Join(gt, a, m, b);
      assert s == above + {m} + below;
      assert Elems(r) == s;
    }
  }

  lemma Join<T(!new)>(gt: (T, T) -> bool, a: seq<T>, m: T, b: seq<T>) returns (r: seq<T>)
    requires StrictTotal(gt) && Ranked(gt, a) && Ranked(gt, b)
    requires forall x :: x in Elems(a) ==> gt(x, m)
    requires forall x :: x in Elems(b) ==> gt(m, x)
    ensures Ranked(gt, r) && |r| == |Elems(r)| && Elems(r) == Elems(a) + {m} + Elems(b)
  {
    r := a + [m] + b;
    forall i | 0 <= i < |r|
      ensures i < |a| ==> gt(r[i], m)
      ensures i > |a| ==> gt(m, r[i])
    {
      if i < |a| { assert r[i] in Elems(a); } else if i > |a| { assert r[i] in Elems(b); }
    }
    forall i, j | 0 <= i < j < |r| ensures gt(r[i], r[j]) {
      if j < |a| {
        assert r[i] == a[i] && r[j] == a[j];
      } else if i > |a| {
        assert r[i] == b[i - |a| - 1] && r[j] == b[j - |a| - 1];
      }
    }
    DistinctCard(gt, r);
    forall x | x in Elems(r) ensures x in Elems(a) + {m} + Elems(b) {
      var i :| 0 <= i < |r| && r[i] == x;
    }
  }

  /** Some element of s, always the same one. */
  ghost function Pick<T(!new)>(s: set<T>): (x: T)
    requires s != {}
    ensures x in s
  {
    var x :| x in s; x
  }

  lemma Smaller<T>(a: set<T>, s: set<T>, m: T)
    requires a <= s && m in s && m !in a
    ensures |a| < |s|
  {
    assert a + {m} <= s;
    SubsetCard(a + {m}, s);
  }

  lemma {:induction false} SubsetCard<T>(a: set<T>, b: set<T>)
    requires a <= b
    ensures |a| <= |b|
    decreases a
  {
    if a != {} {
      var x :| x in a;
      SubsetCard(a - {x}, b - {x});
    }
  }

  /** The elements of s in rank order. */
  ghost function Rank<T(!new)>(gt: (T, T) -> bool, s: set<T>): (r: seq<T>)
    requires StrictTotal(gt)
    ensures Ranked(gt, r) && Elems(r) == s && |r| == |s|
  {
    assert exists r :: Ranked(gt, r) && Elems(r) == s && |r| == |s| by {
      var r := RankExists(gt, s);
    }
    var r :| Ranked(gt, r) && Elems(r) == s && |r| == |s|;
    r
  }

  /** An element of a ranked sequence comes no later in it than in a ranked sequence of more elements. */
  lemma {:induction false} IndexInSuperset<T(!new)>(gt: (T, T) -> bool, f: seq<T>, t: seq<T>, i: nat, j: nat)
    requires StrictTotal(gt) && Ranked(gt, f) && Ranked(gt, t)
    requires i < |f| && j < |t| && f[i] == t[j]
    requires forall k :: 0 <= k < i ==> f[k] in t
    ensures i <= j
    decreases i
  {
    if i > 0 {
      assert f[i - 1] in t;
      var k :| 0 <= k < |t| && t[k] == f[i - 1];
      RankedIndex(gt, f, i - 1, i);
      RankedIndex(gt, t, k, j);
      IndexInSuperset(gt, f, t, i - 1, k);
    }
  }

  /** If r keeps, out of t, at least the first n elements, then r starts with those n elements. */
  lemma {:induction false} PrefixKept<T(!new)>(gt: (T, T) -> bool, r: seq<T>, t: seq<T>, n: nat)
    requires StrictTotal(gt) && Ranked(gt, r) && Ranked(gt, t)
    requires forall x :: x in r ==> x in t
    requires forall k :: 0 <= k < n && k < |t| ==> t[k] in r
    ensures Take(r, n) == Take(t, n)
    decreases n
  {
    if n > 0 {
      PrefixKept(gt, r, t, n - 1);
      if n <= |t| {
        NextKept(gt, r, t, n - 1);
        assert Take(r, n) == Take(r, n - 1) + [r[n - 1]];
        assert Take(t, n) == Take(t, n - 1) + [t[n - 1]];
      } else {
        NoMoreThan(gt, r, t);
      }
    }
  }

  lemma NextKept<T(!new)>(gt: (T, T) -> bool, r: seq<T>, t: seq<T>, n: nat)
    requires StrictTotal(gt) && Ranked(gt, r) && Ranked(gt, t)
    requires forall x :: x in r ==> x in t
    requires Take(r, n) == Take(t, n) && n < |t| && t[n] in r
    ensures n < |r| && r[n] == t[n]
  {
    var k :| 0 <= k < |r| && r[k] == t[n];
    IndexInSuperset(gt, r, t, k, n);
    SameBelow(r, t, n, k);
    RankedIndex(gt, t, k, n);
  }

  lemma SameBelow<T>(r: seq<T>, t: seq<T>, n: nat, k: nat)
    requires Take(r, n) == Take(t, n) && k < |r| && k < |t|
    ensures k < n ==> r[k] == t[k]
  {
    if k < n {
      assert r[k] == Take(r, n)[k] == Take(t, n)[k] == t[k];
    }
  }

  lemma NoMoreThan<T(!new)>(gt: (T, T) -> bool, r: seq<T>, t: seq<T>)
    requires StrictTotal(gt) && Ranked(gt, r) && Ranked(gt, t)
    requires forall x :: x in r ==> x in t
    ensures |r| <= |t|
  {
    DistinctCard(gt, r);
    DistinctCard(gt, t);
    SubsetCard(Elems(r), Elems(t));
  }

  /** Put x where it belongs. */
  function Insert<T(!new)>(gt: (T, T) -> bool, s: seq<T>, x: T): (r: seq<T>)
    ensures forall y :: y in r <==> y in s || y == x
  {
    if s == [] then [x]
    else if gt(x, s[0]) then [x] + s
    else [s[0]] + Insert(gt, s[1..], x)
  }

  lemma RankedCons<T(!new)>(gt: (T, T) -> bool, x: T, s: seq<T>)
    requires Ranked(gt, s) && forall y :: y in s ==> gt(x, y)
    ensures Ranked(gt, [x] + s)
  {
    var r := [x] + s;
    forall i, j | 0 <= i < j < |r| ensures gt(r[i], r[j]) {
      assert r[j] == s[j - 1] && r[j] in s;
      if i > 0 { assert r[i] == s[i - 1]; }
    }
  }

  lemma {:induction false} InsertRanked<T(!new)>(gt: (T, T) -> bool, s: seq<T>, x: T)
    requires StrictTotal(gt) && Ranked(gt, s) && x !in s
    ensures Ranked(gt, Insert(gt, s, x))
  {
    if s == [] {
    } else if gt(x, s[0]) {
      forall y | y in s ensures gt(x, y) {
        var i :| 0 <= i < |s| && s[i] == y;
        assert i > 0 ==> gt(s[0], s[i]);
      }
      RankedCons(gt, x, s);
    } else {
      InsertRanked(gt, s[1..], x);
      forall y | y in Insert(gt, s[1..], x) ensures gt(s[0], y) {
        if y in s[1..] {
          var i :| 0 <= i < |s[1..]| && s[1..][i] == y;
          assert s[i + 1] == y;
        }
      }
      RankedCons(gt, s[0], Insert(gt, s[1..], x));
    }
  }

  /** sort.Slice with the order gt. */
  method Sort<T(==,!new)>(gt: (T, T) -> bool, items: seq<T>) returns (sorted: seq<T>)
    requires StrictTotal(gt)
    requires forall i, j :: 0 <= i < j < |items| ==> items[i] != items[j]
    ensures sorted == Rank(gt, Elems(items))
  {
    sorted := [];
    for i := 0 to |items|
      invariant Ranked(gt, sorted)
      invariant forall x :: x in sorted <==> x in items[..i]
    {
      InsertRanked(gt, sorted, items[i]);
      assert items[..i + 1] == items[..i] + [items[i]];
      sorted := Insert(gt, sorted, items[i]);
    }
    assert items[..|items|] == items;
    RankedUnique(gt, sorted, Rank(gt, Elems(items)));
  }

  /** Two rankings of the same elements are equal. */
  lemma RankedUnique<T(!new)>(gt: (T, T) -> bool, r: seq<T>, t: seq<T>)
    requires StrictTotal(gt) && Ranked(gt, r) && Ranked(gt, t) && Elems(r) == Elems(t)
    ensures r == t
  {
    forall x | x in r ensures x in t { assert x in Elems(r); }
    forall k | 0 <= k < |t| ensures t[k] in r { assert t[k] in Elems(t); }
    var n := |r| + |t|;
    PrefixKept(gt, r, t, n);
  }

  /** PrefixKept for sets. */
  lemma RankPrefix<T(!new)>(gt: (T, T) -> bool, kept: set<T>, all: set<T>, n: nat)
    requires StrictTotal(gt) && kept <= all
    requires forall k :: 0 <= k < n && k < |Rank(gt, all)| ==> Rank(gt, all)[k] in kept
    ensures Take(Rank(gt, kept), n) == Take(Rank(gt, all), n)
  {
    var r, t := Rank(gt, kept), Rank(gt, all);
    forall x | x in r ensures x in t {
      assert x in Elems(r);
      assert x in Elems(t);
    }
    forall k | 0 <= k < n && k < |t| ensures t[k] in r {
      assert t[k] in Elems(r);
    }
    PrefixKept(gt, r, t, n);
  }

  /** The n first-ranked elements of s. */
  ghost function Top<T(!new)>(gt: (T, T) -> bool, s: set<T>, n: nat): (r: set<T>)
    requires StrictTotal(gt)
    ensures r <= s
    ensures |s| <= n ==> r == s
  {
    Elems(Take(Rank(gt, s), n))
  }

  /** Cutting to the top n early loses nothing: what was cut could not have come back. */
  lemma TopAbsorbs<T(!new)>(gt: (T, T) -> bool, a: set<T>, b: set<T>, n: nat)
    requires StrictTotal(gt)
    ensures Top(gt, Top(gt, a, n) + b, n) == Top(gt, a + b, n)
  {
    var ra, t, r := Rank(gt, a), Rank(gt, a + b), Rank(gt, Top(gt, a, n) + b);
    forall x | x in r ensures x in t {
      assert x in Elems(r);
      assert x in Elems(t);
    }
    forall k | 0 <= k < n && k < |t| ensures t[k] in r {
      assert t[k] in Elems(t);
      if t[k] !in b {
        assert t[k] in Elems(ra);
        var i :| 0 <= i < |ra| && ra[i] == t[k];
        forall m | 0 <= m < i ensures ra[m] in t {
          assert ra[m] in Elems(ra);
          assert ra[m] in Elems(t);
        }
        IndexInSuperset(gt, ra, t, i, k);
        assert Take(ra, n)[i] == t[k];
        assert t[k] in Top(gt, a, n);
      }
      assert t[k] in Elems(r);
    }
    PrefixKept(gt, r, t, n);
  }

  /** A member of s is cut from the top n only when n members of s come before it. */
  lemma CutMeansOutranked<T(!new)>(gt: (T, T) -> bool, s: set<T>, n: nat, x: T)
    requires StrictTotal(gt) && x in s
    ensures x !in Top(gt, s, n) ==> |Top(gt, s, n)| == n && forall y :: y in Top(gt, s, n) ==> gt(y, x)
  {
    var t := Rank(gt, s);
    if x !in Top(gt, s, n) {
      assert x in Elems(t);
      var k :| 0 <= k < |t| && t[k] == x;
      assert forall i :: 0 <= i < |Take(t, n)| ==> Take(t, n)[i] == t[i] && t[i] in Top(gt, s, n);
      DistinctCard(gt, Take(t, n));
      forall y | y in Top(gt, s, n) ensures gt(y, x) {
        var i :| 0 <= i < |Take(t, n)| && Take(t, n)[i] == y;
        RankedIndex(gt, t, i, k);
      }
    }
  }

  lemma {:induction false} DistinctCard<T(!new)>(gt: (T, T) -> bool, s: seq<T>)
    requires StrictTotal(gt) && Ranked(gt, s)
    ensures |Elems(s)| == |s|
  {
    if s != [] {
      var n := |s| - 1;
      DistinctCard(gt, s[..n]);
      assert s == s[..n] + [s[n]];
      assert Elems(s) == Elems(s[..n]) + {s[n]};
      forall i | 0 <= i < n ensures s[i] != s[n] { RankedIndex(gt, s, i, n); }
    }
  }
}
