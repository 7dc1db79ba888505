/** Redis sorted sets: members with scores, kept from the highest score down, equal scores by member bytes. */
module SortedSet {
  import opened Ranking
  import opened Text

  datatype Entry = Entry(score: int, member: string)

  predicate Above(a: Entry, b: Entry) {
    a.score > b.score || (a.score == b.score && Before(b.member, a.member))
  }

  lemma AboveIsTotal()
    ensures StrictTotal(Above)
  {
    forall a: Entry, b: Entry { BeforeTotal(a.member, b.member); }
    forall a: Entry, b: Entry, c: Entry | Above(a, b) && Above(b, c) ensures Above(a, c) {
      if a.score == b.score == c.score {
        BeforeTransitive(c.member, b.member, a.member);
      }
    }
  }

  ghost predicate OneScore(s: set<Entry>) {
    forall a, b :: a in s && b in s && a.member == b.member ==> a == b
  }

  /** What Redis keeps under a key. */
  ghost predicate ZSet(z: seq<Entry>) {
    Ranked(Above, z) && OneScore(Elems(z))
  }

  function Without(z: seq<Entry>, member: string): (r: seq<Entry>)
    ensures forall e :: e in r <==> e in z && e.member != member
  {
    if z == [] then []
    else if z[0].member == member then Without(z[1..], member)
    else [z[0]] + Without(z[1..], member)
  }

  function ZAdd(z: seq<Entry>, e: Entry): seq<Entry> { Insert(Above, Without(z, e.member), e) }

  /** ZREMRANGEBYRANK key 0 -(cap+1): drop all but the cap highest. */
  function ZTrim(z: seq<Entry>, cap: nat): seq<Entry> { Take(z, cap) }

  /** The entries with score at most max; None stands for +inf. */
  function AtMost(z: seq<Entry>, max: Option<int>): (r: seq<Entry>)
    ensures forall e :: e in r <==> e in z && (max.None? || e.score <= max.value)
  {
    if z == [] then []
    else if max.None? || z[0].score <= max.value then [z[0]] + AtMost(z[1..], max)
    else AtMost(z[1..], max)
  }

  /** ZREVRANGEBYSCORE key max -inf LIMIT 0 count */
  function ZRevRangeByScore(z: seq<Entry>, max: Option<int>, count: nat): seq<Entry> { Take(AtMost(z, max), count) }

  lemma {:induction false} WithoutRanked(z: seq<Entry>, member: string)
    requires Ranked(Above, z)
    ensures Ranked(Above, Without(z, member))
  {
    if z != [] {
      WithoutRanked(z[1..], member);
      if z[0].member != member {
        forall x | x in Without(z[1..], member) ensures Above(z[0], x) {
          var i :| 0 <= i < |z[1..]| && z[1..][i] == x;
          assert z[i + 1] == x;
        }
        RankedCons(Above, z[0], Without(z[1..], member));
      }
    }
  }

  lemma ZAddIsZSet(z: seq<Entry>, e: Entry)
    requires ZSet(z)
    ensures ZSet(ZAdd(z, e))
  {
    WithoutRanked(z, e.member);
    AboveIsTotal();
    InsertRanked(Above, Without(z, e.member), e);
    forall a, b | a in Elems(ZAdd(z, e)) && b in Elems(ZAdd(z, e)) && a.member == b.member ensures a == b {
      if a != e && b != e {
        assert a in Elems(z) && b in Elems(z);
      }
    }
  }

  lemma ZTrimIsZSet(z: seq<Entry>, cap: nat)
    requires ZSet(z)
    ensures ZSet(ZTrim(z, cap))
  {
    assert Elems(ZTrim(z, cap)) <= Elems(z);
  }

  lemma {:induction false} AtMostRanked(z: seq<Entry>, max: Option<int>)
    requires Ranked(Above, z)
    ensures Ranked(Above, AtMost(z, max))
  {
    if z != [] {
      AtMostRanked(z[1..], max);
      if max.None? || z[0].score <= max.value {
        forall x | x in AtMost(z[1..], max) ensures Above(z[0], x) {
          var i :| 0 <= i < |z[1..]| && z[1..][i] == x;
          assert z[i + 1] == x;
        }
        RankedCons(Above, z[0], AtMost(z[1..], max));
      }
    }
  }

  /** The n highest entries of s. */
  ghost function Highest(s: set<Entry>, n: nat): set<Entry> {
    AboveIsTotal();
    Top(Above, s, n)
  }

  /** Cutting a sorted set to a length keeps its highest entries. */
  lemma TrimIsHighest(z: seq<Entry>, cap: nat)
    requires ZSet(z)
    ensures Elems(ZTrim(z, cap)) == Highest(Elems(z), cap)
  {
    AboveIsTotal();
    RankedUnique(Above, z, Rank(Above, Elems(z)));
  }

  lemma HighestAbsorbs(a: set<Entry>, b: set<Entry>, n: nat)
    ensures Highest(Highest(a, n) + b, n) == Highest(a + b, n)
  {
    AboveIsTotal();
    TopAbsorbs(Above, a, b, n);
  }

  lemma NotHighest(s: set<Entry>, n: nat, e: Entry)
    requires e in s
    ensures e !in Highest(s, n) ==> |Highest(s, n)| == n && forall x :: x in Highest(s, n) ==> Above(x, e)
  {
    AboveIsTotal();
    CutMeansOutranked(Above, s, n, e);
  }
}
