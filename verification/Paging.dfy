/** Keyset paging with a (time, ID) cursor. Two cursor conditions are in use: notifications step below the
    cursor in (time, ID) order; the comment and video lists ask for "time <= t AND id < i". */
module Paging {
  import opened Ranking
  import opened Text

  /** A row of the listed table: its time in ms and its primary key. */
  datatype Row = Row(at: int, id: Id)

  datatype CursorKind = Lexicographic | BothFields

  predicate Later(a: Row, b: Row) { a.at > b.at || (a.at == b.at && a.id > b.id) }

  lemma LaterIsTotal()
    ensures StrictTotal(Later)
  {
  }

  /** The WHERE clause a cursor adds; lastId 0 is the first page. */
  predicate Past(kind: CursorKind, lastAt: int, lastId: Id, row: Row) {
    lastId > 0 ==>
      match kind
      case Lexicographic => row.at < lastAt || (row.at == lastAt && row.id < lastId)
      case BothFields => row.at <= lastAt && row.id < lastId
  }

  function Matching(kind: CursorKind, table: set<Row>, lastAt: int, lastId: Id): set<Row> {
    set row | row in table && Past(kind, lastAt, lastId, row)
  }

  /** The table in list order. */
  ghost function Listed(table: set<Row>): (r: seq<Row>)
    ensures Ranked(Later, r) && Elems(r) == table && |r| == |table|
  {
    LaterIsTotal();
    Rank(Later, table)
  }

  /** ... ORDER BY time DESC, id DESC LIMIT limit */
  ghost function Page(kind: CursorKind, table: set<Row>, lastAt: int, lastId: Id, limit: nat): (r: seq<Row>)
    ensures forall row :: row in r ==> row in Matching(kind, table, lastAt, lastId)
    ensures r == [] ==> limit == 0 || Matching(kind, table, lastAt, lastId) == {}
  {
    var all := Listed(Matching(kind, table, lastAt, lastId));
    assert forall row :: row in Take(all, limit) ==> row in Elems(all);
    Take(all, limit)
  }

  /** A stored table: keys are positive and unique. */
  ghost predicate Table(table: set<Row>) {
    && (forall row :: row in table ==> row.id > 0)
    && (forall a, b :: a in table && b in table && a.id == b.id ==> a == b)
  }

  lemma PastShrinks(kind: CursorKind, table: set<Row>, lastAt: int, lastId: Id, row: Row)
    requires Table(table) && row in Matching(kind, table, lastAt, lastId)
    ensures Matching(kind, table, row.at, row.id) < Matching(kind, table, lastAt, lastId)
  {
    assert row !in Matching(kind, table, row.at, row.id);
  }

  /** The pages a client sees that follows the cursor of each page's last row until a page is empty. */
  ghost function Pages(kind: CursorKind, table: set<Row>, lastAt: int, lastId: Id, limit: nat): seq<seq<Row>>
    requires Table(table)
    decreases Matching(kind, table, lastAt, lastId)
  {
    var page := Page(kind, table, lastAt, lastId, limit);
    if page == [] then []
    else
      var last := page[|page| - 1];
      PastShrinks(kind, table, lastAt, lastId, last);
      [page] + Pages(kind, table, last.at, last.id, limit)
  }

  function Flatten(pages: seq<seq<Row>>): seq<Row> {
    if pages == [] then [] else pages[0] + Flatten(pages[1..])
  }

  ghost function Walk(kind: CursorKind, table: set<Row>, lastAt: int, lastId: Id, limit: nat): seq<Row>
    requires Table(table)
  {
    Flatten(Pages(kind, table, lastAt, lastId, limit))
  }

  lemma WalkUnfold(kind: CursorKind, table: set<Row>, lastAt: int, lastId: Id, limit: nat)
    requires Table(table)
    ensures var page := Page(kind, table, lastAt, lastId, limit);
            Walk(kind, table, lastAt, lastId, limit) ==
              if page == [] then [] else page + Walk(kind, table, page[|page| - 1].at, page[|page| - 1].id, limit)
  {
    var page := Page(kind, table, lastAt, lastId, limit);
    if page != [] {
      var rest := Pages(kind, table, page[|page| - 1].at, page[|page| - 1].id, limit);
      assert ([page] + rest)[1..] == rest;
    }
  }

  // ------------------------------------------------------------------ no page repeats a row

  lemma PageRanked(kind: CursorKind, table: set<Row>, lastAt: int, lastId: Id, limit: nat)
    ensures Ranked(Later, Page(kind, table, lastAt, lastId, limit))
  {
    var all := Listed(Matching(kind, table, lastAt, lastId));
    assert Page(kind, table, lastAt, lastId, limit) == Take(all, limit);
  }

  lemma RankedJoin(a: seq<Row>, b: seq<Row>)
    requires a != [] && Ranked(Later, a) && Ranked(Later, b)
    requires forall row :: row in b ==> Later(a[|a| - 1], row)
    ensures Ranked(Later, a + b)
  {
    LaterIsTotal();
    forall i, j | 0 <= i < j < |a + b| ensures Later((a + b)[i], (a + b)[j]) {
      if i < |a| <= j {
        assert b[j - |a|] in b;
        assert i < |a| - 1 ==> Later(a[i], a[|a| - 1]);
      } else if i >= |a| {
        assert Later(b[i - |a|], b[j - |a|]);
      }
    }
  }

  /** Under either cursor, at any page size, a walk over a table that stands still lists rows of the table in
      list order, so none of them twice. */
  lemma {:induction false} WalkDescends(kind: CursorKind, table: set<Row>, lastAt: int, lastId: Id, limit: nat)
    requires Table(table)
    ensures Ranked(Later, Walk(kind, table, lastAt, lastId, limit))
    ensures forall row :: row in Walk(kind, table, lastAt, lastId, limit) ==>
            row in Matching(kind, table, lastAt, lastId)
    decreases Matching(kind, table, lastAt, lastId)
  {
    var page := Page(kind, table, lastAt, lastId, limit);
    WalkUnfold(kind, table, lastAt, lastId, limit);
    if page != [] {
      var last := page[|page| - 1];
      PastShrinks(kind, table, lastAt, lastId, last);
      WalkDescends(kind, table, last.at, last.id, limit);
      PageRanked(kind, table, lastAt, lastId, limit);
      assert last.id > 0;
      RankedJoin(page, Walk(kind, table, last.at, last.id, limit));
    }
  }

  // ------------------------------------------------------------------ the lexicographic cursor misses nothing

  lemma {:induction false} LexicographicCovers(table: set<Row>, lastAt: int, lastId: Id, limit: nat)
    requires Table(table) && limit > 0
    ensures forall row :: row in Matching(Lexicographic, table, lastAt, lastId) ==>
            row in Walk(Lexicographic, table, lastAt, lastId, limit)
    decreases Matching(Lexicographic, table, lastAt, lastId)
  {
    var page := Page(Lexicographic, table, lastAt, lastId, limit);
    WalkUnfold(Lexicographic, table, lastAt, lastId, limit);
    if page != [] {
      var last := page[|page| - 1];
      PastShrinks(Lexicographic, table, lastAt, lastId, last);
      LexicographicCovers(table, last.at, last.id, limit);
      forall row | row in Matching(Lexicographic, table, lastAt, lastId)
        ensures row in page || row in Matching(Lexicographic, table, last.at, last.id)
      {
        InPageOrBelow(Matching(Lexicographic, table, lastAt, lastId), limit, row);
      }
      assert Walk(Lexicographic, table, lastAt, lastId, limit) == page + Walk(Lexicographic, table, last.at, last.id, limit);
    } else {
      forall row | row in Matching(Lexicographic, table, lastAt, lastId) ensures false {
        InPageOrBelow(Matching(Lexicographic, table, lastAt, lastId), limit, row);
      }
    }
  }

  lemma InPageOrBelow(rows: set<Row>, limit: nat, row: Row)
    requires row in rows && limit > 0
    ensures var page := Take(Listed(rows), limit);
            page != [] && (row in page || Later(page[|page| - 1], row))
  {
    var all := Listed(rows);
    assert row in Elems(all);
    var k :| 0 <= k < |all| && all[k] == row;
    var page := Take(all, limit);
    if k < |page| {
      assert page[k] == row;
    } else {
      assert Later(all[|page| - 1], all[k]);
    }
  }

  /** Notification pages concatenate to the whole list, each thread once. */
  lemma ThreadPagesAreTheList(table: set<Row>, limit: nat)
    requires Table(table) && limit > 0
    ensures Walk(Lexicographic, table, 0, 0, limit) == Listed(table)
  {
    WalkDescends(Lexicographic, table, 0, 0, limit);
    LexicographicCovers(table, 0, 0, limit);
    assert Matching(Lexicographic, table, 0, 0) == table;
    SameRows(Walk(Lexicographic, table, 0, 0, limit), table);
  }

  lemma SameRows(s: seq<Row>, table: set<Row>)
    requires Ranked(Later, s) && forall row :: row in s <==> row in table
    ensures s == Listed(table)
  {
    LaterIsTotal();
    assert Elems(s) == table;
    RankedUnique(Later, s, Listed(table));
  }

  // ------------------------------------------------------------------ dropping threads does not disturb it

  /** assemble leaves out threads none of whose actors has an account any more. */
  function Assemble(threads: seq<Row>, keep: Row -> bool): (r: seq<Row>)
    ensures forall row :: row in r <==> row in threads && keep(row)
  {
    if threads == [] then []
    else
      var n := |threads| - 1;
      var before := Assemble(threads[..n], keep);
      if keep(threads[n]) then before + [threads[n]] else before
  }

  function AssembleAll(pages: seq<seq<Row>>, keep: Row -> bool): seq<Row> {
    if pages == [] then [] else Assemble(pages[0], keep) + AssembleAll(pages[1..], keep)
  }

  lemma {:induction false} AssembleConcat(a: seq<Row>, b: seq<Row>, keep: Row -> bool)
    ensures Assemble(a + b, keep) == Assemble(a, keep) + Assemble(b, keep)
  {
    if b == [] {
      assert a + b == a;
    } else {
      var n := |b| - 1;
      AssembleConcat(a, b[..n], keep);
      assert (a + b)[..|a + b| - 1] == a + b[..n];
    }
  }

  lemma {:induction false} AssembleFlatten(pages: seq<seq<Row>>, keep: Row -> bool)
    ensures AssembleAll(pages, keep) == Assemble(Flatten(pages), keep)
  {
    if pages != [] {
      AssembleFlatten(pages[1..], keep);
      AssembleConcat(pages[0], Flatten(pages[1..]), keep);
    }
  }

  /** What the client shows over all pages is the list without the dropped threads: the cursor comes from the
      threads read, not from the threads shown. */
  lemma ShownThreadsAreTheList(table: set<Row>, limit: nat, keep: Row -> bool)
    requires Table(table) && limit > 0
    ensures AssembleAll(Pages(Lexicographic, table, 0, 0, limit), keep) == Assemble(Listed(table), keep)
  {
    AssembleFlatten(Pages(Lexicographic, table, 0, 0, limit), keep);
    ThreadPagesAreTheList(table, limit);
  }

  // ------------------------------------------------------------------ when the both-fields cursor is complete

  /** IDs and times agree: a row with a smaller ID is never later. */
  ghost predicate Agree(table: set<Row>) {
    forall a, b :: a in table && b in table && a.id < b.id ==> a.at <= b.at
  }

  lemma {:induction false} AgreeingWalks(table: set<Row>, lastAt: int, lastId: Id, limit: nat)
    requires Table(table) && Agree(table)
    requires lastId > 0 ==> Row(lastAt, lastId) in table
    ensures Walk(BothFields, table, lastAt, lastId, limit) == Walk(Lexicographic, table, lastAt, lastId, limit)
    decreases Matching(BothFields, table, lastAt, lastId)
  {
    assert Matching(BothFields, table, lastAt, lastId) == Matching(Lexicographic, table, lastAt, lastId);
    var page := Page(BothFields, table, lastAt, lastId, limit);
    assert page == Page(Lexicographic, table, lastAt, lastId, limit);
    WalkUnfold(BothFields, table, lastAt, lastId, limit);
    WalkUnfold(Lexicographic, table, lastAt, lastId, limit);
    if page != [] {
      var last := page[|page| - 1];
      PastShrinks(BothFields, table, lastAt, lastId, last);
      AgreeingWalks(table, last.at, last.id, limit);
    }
  }

  /** A walk one row at a time under the both-fields cursor steps to ever smaller IDs. */
  lemma {:induction false} OneByOneIdsFall(table: set<Row>, lastAt: int, lastId: Id, i: nat, j: nat)
    requires Table(table)
    requires i < j < |Walk(BothFields, table, lastAt, lastId, 1)|
    ensures Walk(BothFields, table, lastAt, lastId, 1)[i].id > Walk(BothFields, table, lastAt, lastId, 1)[j].id
    decreases Matching(BothFields, table, lastAt, lastId)
  {
    var walk := Walk(BothFields, table, lastAt, lastId, 1);
    var page := Page(BothFields, table, lastAt, lastId, 1);
    WalkUnfold(BothFields, table, lastAt, lastId, 1);
    var row := page[0];
    var rest := Walk(BothFields, table, row.at, row.id, 1);
    assert walk == [row] + rest;
    PastShrinks(BothFields, table, lastAt, lastId, row);
    if i == 0 {
      WalkDescends(BothFields, table, row.at, row.id, 1);
      assert rest[j - 1] in rest;
    } else {
      OneByOneIdsFall(table, row.at, row.id, i - 1, j - 1);
    }
  }

  lemma IncompleteWhenOneByOne(table: set<Row>)
    requires Table(table) && Walk(BothFields, table, 0, 0, 1) == Listed(table)
    ensures Agree(table)
  {
    var walk := Walk(BothFields, table, 0, 0, 1);
    forall a, b | a in table && b in table && a.id < b.id ensures a.at <= b.at {
      assert a in Elems(walk) && b in Elems(walk);
      var i :| 0 <= i < |walk| && walk[i] == a;
      var j :| 0 <= j < |walk| && walk[j] == b;
      if i < j {
        OneByOneIdsFall(table, 0, 0, i, j);
      } else {
        assert j < i ==> Later(walk[j], walk[i]);
      }
    }
  }

  /** The comment, profile, feed and like lists page through a whole table at every page size exactly when
      the table's IDs and times agree in order. */
  lemma CompleteExactlyWhenAgreeing(table: set<Row>)
    requires Table(table)
    ensures (forall limit: nat :: limit > 0 ==> Walk(BothFields, table, 0, 0, limit) == Listed(table)) <==> Agree(table)
  {
    if Agree(table) {
      forall limit: nat | limit > 0 ensures Walk(BothFields, table, 0, 0, limit) == Listed(table) {
        AgreeingWalks(table, 0, 0, limit);
        ThreadPagesAreTheList(table, limit);
      }
    }
    if Walk(BothFields, table, 0, 0, 1) == Listed(table) {
      IncompleteWhenOneByOne(table);
    }
  }

  // ------------------------------------------------------------------ the queries

  const DEFAULT_LIST_LIMIT := 20
  const MAX_LIST_LIMIT := 50

  /** NormalizeListLimit */
  function ListLimit(limit: nat): (r: nat)
    ensures 1 <= r <= 50
    ensures limit == 0 ==> r == 20
    ensures limit > 0 ==> r == limit || (limit > 50 && r == 50)
  {
    if limit == 0 then DEFAULT_LIST_LIMIT else if limit > MAX_LIST_LIMIT then MAX_LIST_LIMIT else limit
  }

  method Select(kind: CursorKind, table: set<Row>, lastAt: int, lastId: Id, limit: nat) returns (page: seq<Row>)
    ensures page == Page(kind, table, lastAt, lastId, limit)
  {
    LaterIsTotal();
    page := [];
    var left := table;
    while left != {}
      invariant left <= table && Ranked(Later, page)
      invariant forall row :: row in page <==> row in Matching(kind, table, lastAt, lastId) && row !in left
      decreases left
    {
      var row :| row in left;
      left := left - {row};
      if Past(kind, lastAt, lastId, row) {
        InsertRanked(Later, page, row);
        page := Insert(Later, page, row);
      }
    }
    RankedUnique(Later, page, Listed(Matching(kind, table, lastAt, lastId)));
    page := Take(page, limit);
  }

  /** ListMine: the messages shown, and the cursor for the next call. */
  method ListMine(table: set<Row>, lastAt: int, lastId: Id, limit: nat, keep: Row -> bool)
    returns (messages: seq<Row>, nextAt: int, nextId: Id)
    ensures var page := Page(Lexicographic, table, lastAt, lastId, ListLimit(limit));
            && messages == Assemble(page, keep)
            && (page == [] ==> nextAt == 0 && nextId == 0)
            && (page != [] ==> nextAt == page[|page| - 1].at && nextId == page[|page| - 1].id)
  {
    var threads := Select(Lexicographic, table, lastAt, lastId, ListLimit(limit));
    messages, nextAt, nextId := [], 0, 0;
    if |threads| == 0 {
      return;
    }
    for i := 0 to |threads|
      invariant messages == Assemble(threads[..i], keep)
    {
      assert threads[..i + 1][..i] == threads[..i];
      if keep(threads[i]) {
        messages := messages + [threads[i]];
      }
    }
    assert threads[..|threads|] == threads;
    nextAt, nextId := threads[|threads| - 1].at, threads[|threads| - 1].id;
  }
}
