/** The offline consistency tool: counters recounted from set sizes, with a dry run that predicts the work,
    and the follow table and the two families of follow sets filled up from each other. */
module Reconcile {
  import opened Text
  import opened Ranking

  // ------------------------------------------------------------------ the follow relation

  /** follow:{a} lists whom a follows; follower:{b} lists who follows b; rows are (follower, following). */
  datatype Follows = Follows(following: map<Id, set<Id>>, followers: map<Id, set<Id>>, rows: set<(Id, Id)>)

  function Of(family: map<Id, set<Id>>, id: Id): set<Id> {
    if id in family then family[id] else {}
  }

  function Add(family: map<Id, set<Id>>, id: Id, member: Id): map<Id, set<Id>> {
    family[id := Of(family, id) + {member}]
  }

  /** SREM; Redis keeps no empty set. */
  function Drop(family: map<Id, set<Id>>, id: Id, member: Id): map<Id, set<Id>> {
    if Of(family, id) - {member} == {} then family - {id} else family[id := family[id] - {member}]
  }

  /** The two-direction script looks at the first set only. */
  function SetFollow(f: Follows, a: Id, b: Id, active: bool): (Follows, bool) {
    if (b in Of(f.following, a)) == active then (f, false)
    else if active then (f.(following := Add(f.following, a, b), followers := Add(f.followers, b, a)), true)
    else (f.(following := Drop(f.following, a, b), followers := Drop(f.followers, b, a)), true)
  }

  /** The families tell the same story, and hold no empty sets. */
  ghost predicate Mirrored(f: Follows) {
    && (forall a: Id, b: Id :: b in Of(f.following, a) <==> a in Of(f.followers, b))
    && (forall a :: a in f.following ==> f.following[a] != {})
    && (forall b :: b in f.followers ==> f.followers[b] != {})
  }

  lemma OfAdd(family: map<Id, set<Id>>, id: Id, member: Id, x: Id)
    ensures Of(Add(family, id, member), x) == if x == id then Of(family, x) + {member} else Of(family, x)
  {
  }

  lemma OfDrop(family: map<Id, set<Id>>, id: Id, member: Id, x: Id)
    requires id in family
    ensures Of(Drop(family, id, member), x) == if x == id then Of(family, x) - {member} else Of(family, x)
  {
  }

  /** The script reports a change exactly when the first set was not as asked, and otherwise writes nothing. */
  lemma SetFollowReports(f: Follows, a: Id, b: Id, active: bool)
    ensures SetFollow(f, a, b, active).1 <==> ((b in Of(f.following, a)) != active)
    ensures !SetFollow(f, a, b, active).1 ==> SetFollow(f, a, b, active).0 == f
    ensures SetFollow(f, a, b, active).0.rows == f.rows
  {
  }

  lemma AddKeepsMirror(f: Follows, a: Id, b: Id)
    requires Mirrored(f)
    ensures Mirrored(f.(following := Add(f.following, a, b), followers := Add(f.followers, b, a)))
  {
    forall x: Id, y: Id ensures y in Of(Add(f.following, a, b), x) <==> x in Of(Add(f.followers, b, a), y) {
      OfAdd(f.following, a, b, x);
      OfAdd(f.followers, b, a, y);
    }
  }

  lemma DropKeepsMirror(f: Follows, a: Id, b: Id)
    requires Mirrored(f) && b in Of(f.following, a)
    ensures Mirrored(f.(following := Drop(f.following, a, b), followers := Drop(f.followers, b, a)))
  {
    assert a in Of(f.followers, b);
    forall x: Id, y: Id ensures y in Of(Drop(f.following, a, b), x) <==> x in Of(Drop(f.followers, b, a), y) {
      OfDrop(f.following, a, b, x);
      OfDrop(f.followers, b, a, y);
    }
  }

  /** Following and unfollowing through the script keep the families mirrored, and set both directions. */
  lemma SetFollowKeepsMirror(f: Follows, a: Id, b: Id, active: bool)
    requires Mirrored(f)
    ensures Mirrored(SetFollow(f, a, b, active).0)
    ensures b in Of(SetFollow(f, a, b, active).0.following, a) <==> active
    ensures a in Of(SetFollow(f, a, b, active).0.followers, b) <==> active
  {
    if (b in Of(f.following, a)) != active {
      if active {
        AddKeepsMirror(f, a, b);
      } else {
        DropKeepsMirror(f, a, b);
      }
    }
  }

  /** On families that have come apart the script promises both directions and delivers one: the reverse set
      ends as asked exactly when the first set differed, or the reverse set was already right. */
  lemma SetFollowRepairsExactlyWhenFirstDiffers(f: Follows, a: Id, b: Id, active: bool)
    ensures (a in Of(SetFollow(f, a, b, active).0.followers, b) <==> active)
            <==> ((b in Of(f.following, a)) != active || (a in Of(f.followers, b)) == active)
  {
  }

  /** SADD of every row into both families. */
  function Restored(f: Follows, rows: seq<(Id, Id)>): Follows {
    if rows == [] then f
    else
      var before := Restored(f, rows[..|rows| - 1]);
      var row := rows[|rows| - 1];
      before.(following := Add(before.following, row.0, row.1), followers := Add(before.followers, row.1, row.0))
  }

  lemma {:induction false} RestoredSets(f: Follows, rows: seq<(Id, Id)>, a: Id, b: Id)
    ensures b in Of(Restored(f, rows).following, a) <==> b in Of(f.following, a) || (a, b) in rows
    ensures a in Of(Restored(f, rows).followers, b) <==> a in Of(f.followers, b) || (a, b) in rows
    ensures Restored(f, rows).rows == f.rows
  {
    if rows != [] {
      var n := |rows| - 1;
      var before := Restored(f, rows[..n]);
      RestoredSets(f, rows[..n], a, b);
      assert rows == rows[..n] + [rows[n]];
      assert rows[n] == (rows[n].0, rows[n].1);
      OfAdd(before.following, rows[n].0, rows[n].1, a);
      OfAdd(before.followers, rows[n].1, rows[n].0, b);
    }
  }

  lemma {:induction false} RestoreKeepsMirror(f: Follows, rows: seq<(Id, Id)>)
    requires Mirrored(f)
    ensures Mirrored(Restored(f, rows))
  {
    if rows != [] {
      var n := |rows| - 1;
      RestoreKeepsMirror(f, rows[..n]);
      AddKeepsMirror(Restored(f, rows[..n]), rows[n].0, rows[n].1);
    }
  }

  function Pairs(family: map<Id, set<Id>>): set<(Id, Id)> {
    set a, b | a in family && b in family[a] :: (a, b)
  }

  function Missing(f: Follows): set<(Id, Id)> { Pairs(f.following) - f.rows }

  /** syncFollowRows: the sets fill the table, then the table, in some order, fills the sets. */
  ghost predicate Synced(f: Follows, f': Follows) {
    exists rows :: Elems(rows) == f.rows + Pairs(f.following)
      && f' == Restored(f.(rows := f.rows + Pairs(f.following)), rows)
  }

  /** After the sync the table, the following sets and the follower sets are one relation: what was in the
      table or in the sets before. */
  lemma SyncAgrees(f: Follows, f': Follows, a: Id, b: Id)
    requires Mirrored(f) && Synced(f, f')
    ensures Mirrored(f')
    ensures (a, b) in f'.rows <==> (a, b) in f.rows || b in Of(f.following, a)
    ensures b in Of(f'.following, a) <==> (a, b) in f'.rows
    ensures a in Of(f'.followers, b) <==> (a, b) in f'.rows
  {
    var rows :| Elems(rows) == f.rows + Pairs(f.following)
      && f' == Restored(f.(rows := f.rows + Pairs(f.following)), rows);
    RestoredSets(f.(rows := f.rows + Pairs(f.following)), rows, a, b);
    RestoreKeepsMirror(f.(rows := f.rows + Pairs(f.following)), rows);
    assert (a, b) in rows <==> (a, b) in Elems(rows);
    assert (a, b) in Pairs(f.following) <==> b in Of(f.following, a);
  }

  // ------------------------------------------------------------------ the two families count the same

  /** The set sizes added up: what all follow counts, or all follower counts, come to. */
  ghost function Total(family: map<Id, set<Id>>): nat
    decreases family.Keys
  {
    if family == map[] then 0
    else
      var id := Pick(family.Keys);
      |family[id]| + Total(family - {id})
  }

  function PairsOf(a: Id, members: set<Id>): set<(Id, Id)> {
    set b | b in members :: (a, b)
  }

  lemma {:induction false} PairsOfCard(a: Id, members: set<Id>)
    ensures |PairsOf(a, members)| == |members|
  {
    if members != {} {
      var m :| m in members;
      PairsOfCard(a, members - {m});
      assert PairsOf(a, members) == PairsOf(a, members - {m}) + {(a, m)};
    }
  }

  lemma {:induction false} TotalIsPairs(family: map<Id, set<Id>>)
    ensures Total(family) == |Pairs(family)|
    decreases family.Keys
  {
    if family == map[] {
      assert Pairs(family) == {};
    } else {
      var id := Pick(family.Keys);
      var rest := family - {id};
      TotalIsPairs(rest);
      PairsOfCard(id, family[id]);
      assert Pairs(family) == PairsOf(id, family[id]) + Pairs(rest);
      assert PairsOf(id, family[id]) !! Pairs(rest);
      assert Total(family) == |family[id]| + Total(rest);
    }
  }

  lemma {:induction false} SwapCard(pairs: set<(Id, Id)>)
    ensures |set p | p in pairs :: (p.1, p.0)| == |pairs|
  {
    if pairs != {} {
      var m :| m in pairs;
      SwapCard(pairs - {m});
      assert (set p | p in pairs :: (p.1, p.0)) == (set p | p in pairs - {m} :: (p.1, p.0)) + {(m.1, m.0)};
    }
  }

  /** Follow counts and follower counts add up to the same number. */
  lemma CountsBalance(f: Follows)
    requires Mirrored(f)
    ensures Total(f.following) == Total(f.followers)
  {
    TotalIsPairs(f.following);
    TotalIsPairs(f.followers);
    SwapCard(Pairs(f.following));
    var swapped := set p | p in Pairs(f.following) :: (p.1, p.0);
    forall b: Id, a: Id ensures (b, a) in Pairs(f.followers) <==> (b, a) in swapped {
      assert (b, a) in Pairs(f.followers) <==> a in Of(f.followers, b);
      assert (a, b) in Pairs(f.following) <==> b in Of(f.following, a);
      assert (a, b) in Pairs(f.following) ==> (b, a) in swapped;
    }
    assert Pairs(f.followers) == swapped;
  }

  // ------------------------------------------------------------------ recounting

  /** The text after the last separator. */
  function AfterLast(s: string, sep: char): Option<string> {
    if s == "" then None
    else
      match AfterLast(s[1..], sep)
      case Some(rest) => Some(rest)
      case None => if s[0] == sep then Some(s[1..]) else None
  }

  function ParseKeyID(key: string): Option<Id> {
    match AfterLast(key, ':')
    case None => None
    case Some(rest) => ParseUint(rest)
  }

  lemma {:induction false} NoneAfter(s: string, sep: char)
    requires sep !in s
    ensures AfterLast(s, sep) == None
  {
    if s != "" {
      NoneAfter(s[1..], sep);
      assert s[0] in s;
    }
  }

  lemma {:induction false} AfterLastOf(a: string, b: string, sep: char)
    requires sep !in b
    ensures AfterLast(a + [sep] + b, sep) == Some(b)
  {
    var s := a + [sep] + b;
    if a == "" {
      assert s[1..] == b;
      NoneAfter(b, sep);
    } else {
      AfterLastOf(a[1..], b, sep);
      assert s[1..] == a[1..] + [sep] + b;
    }
  }

  /** A key's name gives back the ID it was made from. */
  lemma KeyNamesRoundTrip(prefix: string, id: Id)
    ensures ParseKeyID(prefix + ":" + Format(id)) == Some(id)
  {
    assert ':' !in Format(id);
    AfterLastOf(prefix, Format(id), ':');
    ParseFormat(id);
  }

  /** What SCAN returns for a family: all its keys, some perhaps twice, and perhaps names of other making. */
  ghost predicate Scans(keys: seq<string>, family: map<Id, set<Id>>) {
    && (forall key :: key in keys && ParseKeyID(key).Some? ==> ParseKeyID(key).value in family)
    && (forall id :: id in family ==> exists key :: key in keys && ParseKeyID(key) == Some(id))
  }

  /** The right value of a row's counter: its set's size, 0 without a set. */
  function Right(family: map<Id, set<Id>>, id: Id): int { |Of(family, id)| }

  function Wrong(family: map<Id, set<Id>>, table: map<Id, int>): set<Id> {
    set id | id in table && table[id] != Right(family, id)
  }

  function Recounted(family: map<Id, set<Id>>, table: map<Id, int>): map<Id, int> {
    map id | id in table :: Right(family, id)
  }

  /** A second run finds nothing to do. */
  lemma RecountIsIdempotent(family: map<Id, set<Id>>, table: map<Id, int>)
    ensures Recounted(family, table).Keys == table.Keys
    ensures forall id :: id in table ==> Recounted(family, table)[id] == if id in family then |family[id]| else 0
    ensures Wrong(family, Recounted(family, table)) == {}
    ensures Recounted(family, Recounted(family, table)) == Recounted(family, table)
    ensures forall id :: id in table ==> (Recounted(family, table)[id] != table[id] <==> id in Wrong(family, table))
  {
  }

  method CountSets(keys: seq<string>, family: map<Id, set<Id>>) returns (counted: map<Id, int>)
    requires Scans(keys, family)
    ensures counted == map id | id in family :: Right(family, id)
  {
    counted := map[];
    for i := 0 to |keys|
      invariant forall id :: id in counted ==> id in family && counted[id] == Right(family, id)
      invariant forall k :: 0 <= k < i && ParseKeyID(keys[k]).Some? ==> ParseKeyID(keys[k]).value in counted
    {
      var id := ParseKeyID(keys[i]);
      if id.None? {
        continue;
      }
      assert keys[i] in keys;
      counted := counted[id.value := |family[id.value]|];
    }
    forall id | id in family ensures id in counted {
      var key :| key in keys && ParseKeyID(key) == Some(id);
      var k :| 0 <= k < |keys| && keys[k] == key;
    }
  }

  class Tool {
    var f: Follows
    var followCounts: map<Id, int>
    var followerCounts: map<Id, int>
    var lines: seq<(nat, nat)>
    const dryRun: bool

    constructor (f: Follows, followCounts: map<Id, int>, followerCounts: map<Id, int>, dryRun: bool)
      ensures this.f == f && this.followCounts == followCounts && this.followerCounts == followerCounts
      ensures this.dryRun == dryRun && lines == []
    {
      this.f, this.followCounts, this.followerCounts, this.dryRun, lines := f, followCounts, followerCounts, dryRun, [];
    }

    /** The dry run: read every row and count those that differ. */
    method CountDiffering(counted: map<Id, int>, table: map<Id, int>) returns (changed: nat)
      ensures changed == |Differing(counted, table, table.Keys)|
    {
      changed := 0;
      var left := table.Keys;
      ghost var seen: set<Id> := {};
      while left != {}
        invariant left !! seen && left + seen == table.Keys
        invariant changed == |Differing(counted, table, seen)|
        decreases left
      {
        var id :| id in left;
        left := left - {id};
        DifferingAdd(counted, table, seen, id);
        if table[id] != ValueFor(counted, id) {
          changed := changed + 1;
        }
        seen := seen + {id};
      }
      assert seen == table.Keys;
    }

    /** The real run: one conditional update per counted set, then one update that zeroes the rest. */
    method UpdateDiffering(counted: map<Id, int>, table: map<Id, int>) returns (updated: map<Id, int>, changed: nat)
      ensures updated == map id | id in table :: ValueFor(counted, id)
      ensures changed == |Differing(counted, table, table.Keys)|
    {
      updated, changed := table, 0;
      var left := counted.Keys;
      while left != {}
        invariant left <= counted.Keys
        invariant updated.Keys == table.Keys
        invariant forall id :: id in table ==> updated[id] == if id in counted && id !in left then counted[id] else table[id]
        invariant changed == |Differing(counted, table, (counted.Keys - left) * table.Keys)|
        decreases left
      {
        var id :| id in left;
        var before := (counted.Keys - left) * table.Keys;
        left := left - {id};
        if id in table {
          DifferingAdd(counted, table, before, id);
          assert (counted.Keys - left) * table.Keys == before + {id};
          if updated[id] != counted[id] {
            updated := updated[id := counted[id]];
            changed := changed + 1;
          }
        } else {
          assert (counted.Keys - left) * table.Keys == before;
        }
      }
      assert (counted.Keys - left) * table.Keys == counted.Keys * table.Keys;
      var zeroed := set id | id in updated && id !in counted && updated[id] != 0;
      DifferingSplit(counted, table, zeroed);
      updated := map id | id in updated :: if id in zeroed then 0 else updated[id];
      changed := changed + |zeroed|;
    }

    /** Returns how many rows were, or in a dry run would be, changed: the wrong ones. */
    method Recount(keys: seq<string>, family: map<Id, set<Id>>, table: map<Id, int>) returns (updated: map<Id, int>, changed: nat)
      requires Scans(keys, family)
      ensures changed == |Wrong(family, table)|
      ensures updated == if dryRun then table else Recounted(family, table)
    {
      var counted := CountSets(keys, family);
      assert Differing(counted, table, table.Keys) == Wrong(family, table);
      if dryRun {
        changed := CountDiffering(counted, table);
        updated := table;
      } else {
        updated, changed := UpdateDiffering(counted, table);
      }
    }

    method RebuildFollowCounts(followingKeys: seq<string>, followerKeys: seq<string>)
      requires Scans(followingKeys, f.following) && Scans(followerKeys, f.followers)
      modifies this`followCounts, this`followerCounts, this`lines
      ensures lines == old(lines) + [(|Wrong(f.following, old(followCounts))|, |Wrong(f.followers, old(followerCounts))|)]
      ensures followCounts == if dryRun then old(followCounts) else Recounted(f.following, old(followCounts))
      ensures followerCounts == if dryRun then old(followerCounts) else Recounted(f.followers, old(followerCounts))
    {
      var following, followers;
      followCounts, following := Recount(followingKeys, f.following, followCounts);
      followerCounts, followers := Recount(followerKeys, f.followers, followerCounts);
      lines := lines + [(following, followers)];
    }

    /** RestoreSets and the second half of syncFollowRows: rows in ID order into both families. */
    method RestoreSets(rows: seq<(Id, Id)>) returns (restored: nat)
      modifies this`f
      ensures f == Restored(old(f), rows) && restored == |rows|
    {
      restored := 0;
      for i := 0 to |rows|
        invariant f == Restored(old(f), rows[..i]) && restored == i
      {
        assert rows[..i + 1][..i] == rows[..i];
        var row := rows[i];
        f := f.(following := Add(f.following, row.0, row.1), followers := Add(f.followers, row.1, row.0));
        restored := restored + 1;
      }
      assert rows[..|rows|] == rows;
    }

    /** The first half of the real run: `members` is the relation as scanning the following sets lists it, a
        pair as often as its key was scanned. Inserting a pair that is there affects no row. */
    method InsertRows(members: seq<(Id, Id)>) returns (rows: set<(Id, Id)>, inserted: nat)
      ensures rows == f.rows + Elems(members) && inserted == |Elems(members) - f.rows|
    {
      inserted, rows := 0, f.rows;
      ghost var done: set<(Id, Id)> := {};
      for i := 0 to |members|
        invariant done == Elems(members[..i])
        invariant rows == f.rows + done && inserted == |done - f.rows|
      {
        ElemsSnoc(members, i);
        OneMoreMissing(done, f.rows, members[i]);
        if members[i] !in rows {
          inserted := inserted + 1;
          rows := rows + {members[i]};
        }
        done := done + {members[i]};
      }
      assert members[..|members|] == members;
    }

    /** The first half of the dry run: one existence query per pair listed. */
    method CountMissing(members: seq<(Id, Id)>) returns (missing: nat)
      ensures missing == |MissingPlaces(members, f.rows)|
    {
      missing := 0;
      for i := 0 to |members|
        invariant missing == |MissingPlaces(members[..i], f.rows)|
      {
        PlacesSnoc(members, i, f.rows);
        if members[i] !in f.rows {
          missing := missing + 1;
        }
      }
      assert members[..|members|] == members;
    }

    /** The rows by ID, an order this model leaves open. */
    method ListRows(rows: set<(Id, Id)>) returns (order: seq<(Id, Id)>)
      ensures Elems(order) == rows
    {
      order := [];
      var left := rows;
      while left != {}
        invariant left + Elems(order) == rows
        decreases left
      {
        var row :| row in left;
        assert Elems(order + [row]) == Elems(order) + {row};
        left, order := left - {row}, order + [row];
      }
    }

    /** The real run reports the missing rows; the dry run reports the places at which the scan lists one. */
    method SyncFollowRows(members: seq<(Id, Id)>)
      requires Elems(members) == Pairs(f.following)
      modifies this`f, this`lines
      ensures |lines| == |old(lines)| + 1
      ensures lines[|old(lines)|].0 == if dryRun then |MissingPlaces(members, old(f).rows)| else |Missing(old(f))|
      ensures dryRun ==> f == old(f)
      ensures !dryRun ==> Synced(old(f), f)
    {
      var inserted;
      var restored := 0;
      if dryRun {
        inserted := CountMissing(members);
      } else {
        var rows;
        rows, inserted := InsertRows(members);
        f := f.(rows := rows);
        var order := ListRows(rows);
        restored := RestoreSets(order);
      }
      lines := lines + [(inserted, restored)];
    }
  }

  lemma ElemsSnoc(members: seq<(Id, Id)>, i: nat)
    requires i < |members|
    ensures Elems(members[..i + 1]) == Elems(members[..i]) + {members[i]}
  {
    assert members[..i + 1] == members[..i] + [members[i]];
  }

  lemma OneMoreMissing(done: set<(Id, Id)>, rows: set<(Id, Id)>, pair: (Id, Id))
    ensures |done + {pair} - rows| == |done - rows| + if pair in rows + done then 0 else 1
    ensures pair in rows + done ==> rows + (done + {pair}) == rows + done
  {
    if pair in rows + done {
      assert done + {pair} - rows == done - rows;
    } else {
      assert done + {pair} - rows == (done - rows) + {pair};
    }
  }

  // ------------------------------------------------------------------ what the sync's dry run predicts

  /** The places of a scan that hold a pair without a row. */
  function MissingPlaces(members: seq<(Id, Id)>, rows: set<(Id, Id)>): set<nat> {
    set i | 0 <= i < |members| && members[i] !in rows
  }

  lemma PlacesSnoc(members: seq<(Id, Id)>, i: nat, rows: set<(Id, Id)>)
    requires i < |members|
    ensures |MissingPlaces(members[..i + 1], rows)| == |MissingPlaces(members[..i], rows)| + if members[i] in rows then 0 else 1
  {
    forall k | 0 <= k < i ensures members[..i + 1][k] == members[..i][k] {}
    assert MissingPlaces(members[..i + 1], rows) == MissingPlaces(members[..i], rows) + if members[i] in rows then {} else {i};
  }

  /** No pair without a row is listed twice. */
  ghost predicate ListsMissingOnce(members: seq<(Id, Id)>, rows: set<(Id, Id)>) {
    forall i, j :: 0 <= i < j < |members| && members[i] !in rows ==> members[i] != members[j]
  }

  /** SCAN may return a key twice: the dry run never predicts too few insertions, and predicts exactly the real
      run's number if and only if no missing pair was scanned twice. */
  lemma {:induction false} DryRunPredictsExactlyWithoutRepeats(members: seq<(Id, Id)>, rows: set<(Id, Id)>)
    ensures |MissingPlaces(members, rows)| >= |Elems(members) - rows|
    ensures |MissingPlaces(members, rows)| == |Elems(members) - rows| <==> ListsMissingOnce(members, rows)
  {
    if members == [] {
      assert MissingPlaces(members, rows) == {} && Elems(members) - rows == {};
    } else {
      var n := |members| - 1;
      DryRunPredictsExactlyWithoutRepeats(members[..n], rows);
      assert members[..n + 1] == members;
      ElemsSnoc(members, n);
      OneMoreMissing(Elems(members[..n]), rows, members[n]);
      PlacesSnoc(members, n, rows);
      OneMoreListed(members, rows);
    }
  }

  lemma OneMoreListed(members: seq<(Id, Id)>, rows: set<(Id, Id)>)
    requires members != []
    ensures var n := |members| - 1;
            ListsMissingOnce(members, rows) <==>
              ListsMissingOnce(members[..n], rows) && (members[n] in rows || members[n] !in Elems(members[..n]))
  {
    var n := |members| - 1;
    var last := members[n];
    if ListsMissingOnce(members[..n], rows) && (last in rows || last !in Elems(members[..n])) {
      forall i, j | 0 <= i < j < |members| && members[i] !in rows ensures members[i] != members[j] {
        assert members[..n][i] == members[i] && members[i] in members[..n];
        if j < n { assert members[..n][j] == members[j]; }
      }
    }
    if ListsMissingOnce(members, rows) {
      forall i, j | 0 <= i < j < n && members[..n][i] !in rows ensures members[..n][i] != members[..n][j] {
        assert members[i] != members[j];
      }
      if last !in rows {
        forall i | 0 <= i < n ensures members[..n][i] != last { assert members[i] in rows || members[i] != members[n]; }
      }
    }
  }

  lemma DifferingAdd(counted: map<Id, int>, table: map<Id, int>, ids: set<Id>, id: Id)
    requires ids <= table.Keys && id in table && id !in ids
    ensures |Differing(counted, table, ids + {id})| ==
              |Differing(counted, table, ids)| + if table[id] != ValueFor(counted, id) then 1 else 0
  {
    assert Differing(counted, table, ids + {id})
           == Differing(counted, table, ids) + if table[id] != ValueFor(counted, id) then {id} else {};
  }

  lemma DifferingSplit(counted: map<Id, int>, table: map<Id, int>, zeroed: set<Id>)
    requires zeroed == set id | id in table && id !in counted && table[id] != 0
    ensures |Differing(counted, table, table.Keys)| == |Differing(counted, table, counted.Keys * table.Keys)| + |zeroed|
  {
    assert Differing(counted, table, table.Keys) == Differing(counted, table, counted.Keys * table.Keys) + zeroed;
  }

  function ValueFor(counted: map<Id, int>, id: Id): int {
    if id in counted then counted[id] else 0
  }

  function Differing(counted: map<Id, int>, table: map<Id, int>, ids: set<Id>): set<Id>
    requires ids <= table.Keys
  {
    set id | id in ids && table[id] != ValueFor(counted, id)
  }

  // ------------------------------------------------------------------ the whole follow migration

  lemma SameIds(a: set<Id>, b: set<Id>)
    requires forall id: Id :: id in a <==> id in b
    ensures a == b
  {
    assert forall id :: id in a ==> id in b;
    assert forall id :: id in b ==> id in a;
  }

  /** After syncing and recounting, the table and both families are one relation and every user row's two
      counters are the numbers of the user's rows in the table, as follower and as followed. */
  lemma MigrationAgrees(f: Follows, f': Follows, followCounts: map<Id, int>, followerCounts: map<Id, int>, user: Id)
    requires Mirrored(f) && Synced(f, f') && user in followCounts && user in followerCounts
    ensures Recounted(f'.following, followCounts)[user] == |set p | p in f'.rows && p.0 == user|
    ensures Recounted(f'.followers, followerCounts)[user] == |set p | p in f'.rows && p.1 == user|
  {
    RowsOfFollower(f, f', user);
    RowsOfFollowed(f, f', user);
  }

  lemma RowsOfFollower(f: Follows, f': Follows, user: Id)
    requires Mirrored(f) && Synced(f, f')
    ensures |set p | p in f'.rows && p.0 == user| == |Of(f'.following, user)|
  {
    var mine := set p | p in f'.rows && p.0 == user;
    forall p: (Id, Id) ensures p in mine <==> p in PairsOf(user, Of(f'.following, user)) {
      SyncAgrees(f, f', user, p.1);
      assert p == (p.0, p.1);
    }
    SamePairs(mine, PairsOf(user, Of(f'.following, user)));
    PairsOfCard(user, Of(f'.following, user));
  }

  lemma RowsOfFollowed(f: Follows, f': Follows, user: Id)
    requires Mirrored(f) && Synced(f, f')
    ensures |set p | p in f'.rows && p.1 == user| == |Of(f'.followers, user)|
  {
    var mine := set p | p in f'.rows && p.1 == user;
    var swapped := PairsOf(user, Of(f'.followers, user));
    var pairs := set p | p in swapped :: (p.1, p.0);
    forall p: (Id, Id) ensures p in mine <==> p in pairs {
      SyncAgrees(f, f', p.0, user);
      assert p == (p.0, p.1);
      assert p.0 in Of(f'.followers, user) ==> (user, p.0) in swapped;
    }
    SamePairs(mine, pairs);
    SwapCard(swapped);
    PairsOfCard(user, Of(f'.followers, user));
  }

  lemma SamePairs(a: set<(Id, Id)>, b: set<(Id, Id)>)
    requires forall p: (Id, Id) :: p in a <==> p in b
    ensures a == b
  {
    assert forall p :: p in a ==> p in b;
    assert forall p :: p in b ==> p in a;
  }

  /** The tool's dry run recounts the sets as they are, its real run the sets it has just filled up. When every
      row of the table is in the sets already, the two see the same sets and the prediction holds. */
  lemma DryRunPredictsWhenSetsAreComplete(f: Follows, f': Follows, followCounts: map<Id, int>, followerCounts: map<Id, int>)
    requires Mirrored(f) && Synced(f, f') && f.rows <= Pairs(f.following)
    ensures Wrong(f'.following, followCounts) == Wrong(f.following, followCounts)
    ensures Wrong(f'.followers, followerCounts) == Wrong(f.followers, followerCounts)
  {
    forall a: Id ensures Of(f'.following, a) == Of(f.following, a) {
      forall b: Id ensures b in Of(f'.following, a) <==> b in Of(f.following, a) { NothingRestored(f, f', a, b); }
      SameIds(Of(f'.following, a), Of(f.following, a));
    }
    forall b: Id ensures Of(f'.followers, b) == Of(f.followers, b) {
      forall a: Id ensures a in Of(f'.followers, b) <==> a in Of(f.followers, b) { NothingRestored(f, f', a, b); }
      SameIds(Of(f'.followers, b), Of(f.followers, b));
    }
  }

  lemma NothingRestored(f: Follows, f': Follows, a: Id, b: Id)
    requires Mirrored(f) && Synced(f, f') && f.rows <= Pairs(f.following)
    ensures b in Of(f'.following, a) <==> b in Of(f.following, a)
    ensures a in Of(f'.followers, b) <==> a in Of(f.followers, b)
  {
    SyncAgrees(f, f', a, b);
    assert (a, b) in f.rows ==> (a, b) in Pairs(f.following);
  }

  /** And it fails as soon as one row is missing from the sets: a count equal to what is left of the set is
      right for the dry run, and the real run goes on to correct it. */
  lemma DryRunMissesLostSets(f: Follows, f': Follows, a: Id, b: Id)
    requires Mirrored(f) && Synced(f, f') && (a, b) in f.rows && b !in Of(f.following, a)
    ensures var stale := map[a := |Of(f.following, a)|];
            Wrong(f.following, stale) == {} && Wrong(f'.following, stale) == {a}
  {
    SyncAgrees(f, f', a, b);
    forall c | c in Of(f.following, a) ensures c in Of(f'.following, a) { SyncAgrees(f, f', a, c); }
    Smaller(Of(f.following, a), Of(f'.following, a), b);
  }
}
