/** The list of recent actors that a notification thread keeps in one varchar column, maintained by string
    functions inside an upsert statement. */
module ActorList {
  import opened Ranking
  import opened Text

  const ACTORS_KEPT := 3
  const COLUMN_WIDTH := 255

  /** MySQL's substring_index(s, sep, n): what stands before the n-th separator, or all of s. */
  function SubstringIndex(s: string, sep: char, n: nat): string {
    if n == 0 || s == "" then ""
    else if s[0] == sep then (if n == 1 then "" else [sep] + SubstringIndex(s[1..], sep, n - 1))
    else [s[0]] + SubstringIndex(s[1..], sep, n)
  }

  /** The ON DUPLICATE KEY UPDATE expression for actor_ids. */
  function UpdateActorIds(stored: string, inserted: string): string {
    SubstringIndex(inserted + (if stored == "" then "" else "," + stored), ',', ACTORS_KEPT)
  }

  /** The column after a thread was upserted by these actors, in this order. */
  function ActorIds(actors: seq<Id>): string {
    if actors == [] then ""
    else if |actors| == 1 then Format(actors[0])
    else UpdateActorIds(ActorIds(actors[..|actors| - 1]), Format(actors[|actors| - 1]))
  }

  /** Unicode's White_Space, which strings.TrimSpace strips. */
  predicate IsSpace(c: char) {
    '\t' <= c <= '\r' || c == ' ' || c == '\U{85}' || c == '\U{A0}' || c == '\U{1680}' || '\U{2000}' <= c <= '\U{200A}'
    || c == '\U{2028}' || c == '\U{2029}' || c == '\U{202F}' || c == '\U{205F}' || c == '\U{3000}'
  }

  function TrimSpace(s: string): string {
    if s == "" then ""
    else if IsSpace(s[0]) then TrimSpace(s[1..])
    else if IsSpace(s[|s| - 1]) then TrimSpace(s[..|s| - 1])
    else s
  }

  predicate AllSpaces(s: string) { forall c :: c in s ==> IsSpace(c) }

  /** What TrimSpace leaves neither begins nor ends with white space. */
  lemma {:induction false} TrimmedEnds(s: string)
    ensures TrimSpace(s) != "" ==> !IsSpace(TrimSpace(s)[0]) && !IsSpace(TrimSpace(s)[|TrimSpace(s)| - 1])
  {
    if s != "" && IsSpace(s[0]) {
      TrimmedEnds(s[1..]);
    } else if s != "" && IsSpace(s[|s| - 1]) {
      TrimmedEnds(s[..|s| - 1]);
    }
  }

  lemma AroundFront(c: char, rest: string, before: string, middle: string, after: string)
    requires rest == before + middle + after && IsSpace(c) && AllSpaces(before)
    ensures [c] + rest == ([c] + before) + middle + after && AllSpaces([c] + before)
  {
  }

  lemma AroundBack(c: char, rest: string, before: string, middle: string, after: string)
    requires rest == before + middle + after && IsSpace(c) && AllSpaces(after)
    ensures rest + [c] == before + middle + (after + [c]) && AllSpaces(after + [c])
  {
  }

  /** And all that it takes away is white space. */
  lemma {:induction false} TrimStripsSpaces(s: string) returns (before: string, after: string)
    ensures s == before + TrimSpace(s) + after && AllSpaces(before) && AllSpaces(after)
  {
    before, after := "", "";
    if s != "" && IsSpace(s[0]) {
      before, after := TrimStripsSpaces(s[1..]);
      AroundFront(s[0], s[1..], before, TrimSpace(s), after);
      assert s == [s[0]] + s[1..];
      before := [s[0]] + before;
    } else if s != "" && IsSpace(s[|s| - 1]) {
      before, after := TrimStripsSpaces(s[..|s| - 1]);
      AroundBack(s[|s| - 1], s[..|s| - 1], before, TrimSpace(s), after);
      assert s == s[..|s| - 1] + [s[|s| - 1]];
      after := after + [s[|s| - 1]];
    }
  }

  /** The parts that parse, in order. */
  function ParseParts(parts: seq<string>): seq<Id> {
    if parts == [] then []
    else
      var n := |parts| - 1;
      match ParseUint(TrimSpace(parts[n]))
      case None => ParseParts(parts[..n])
      case Some(id) => ParseParts(parts[..n]) + [id]
  }

  method SplitActorIDs(value: string) returns (ids: seq<Id>)
    ensures ids == if value == "" then [] else ParseParts(Split(value, ','))
  {
    ids := [];
    if value == "" {
      return;
    }
    var parts := Split(value, ',');
    for i := 0 to |parts|
      invariant ids == ParseParts(parts[..i])
    {
      assert parts[..i + 1][..i] == parts[..i];
      var id := ParseUint(TrimSpace(parts[i]));
      if id.None? {
        continue;
      }
      ids := ids + [id.value];
    }
    assert parts[..|parts|] == parts;
  }

  // ------------------------------------------------------------------ the list it stands for

  /** The latest n, newest first. */
  function LatestFirst(actors: seq<Id>, n: nat): (r: seq<Id>)
    ensures |r| == if n < |actors| then n else |actors|
    ensures forall i :: 0 <= i < |r| ==> r[i] == actors[|actors| - 1 - i]
  {
    if n == 0 || actors == [] then []
    else [actors[|actors| - 1]] + LatestFirst(actors[..|actors| - 1], n - 1)
  }

  function Render(ids: seq<Id>): string {
    if ids == [] then "" else if |ids| == 1 then Format(ids[0]) else Format(ids[0]) + "," + Render(ids[1..])
  }

  lemma NoComma(id: Id)
    ensures ',' !in Format(id)
  {
  }

  lemma {:induction false} IndexSkips(a: string, rest: string, n: nat)
    requires ',' !in a && n > 0
    ensures SubstringIndex(a + rest, ',', n) == a + SubstringIndex(rest, ',', n)
  {
    if a == "" {
      assert a + rest == rest;
    } else {
      IndexSkips(a[1..], rest, n);
      assert a[0] in a && (a + rest)[1..] == a[1..] + rest && a == [a[0]] + a[1..];
    }
  }

  lemma IndexAtSeparator(rest: string, n: nat)
    requires n > 0
    ensures SubstringIndex("," + rest, ',', n) == if n == 1 then "" else "," + SubstringIndex(rest, ',', n - 1)
  {
    assert ("," + rest)[1..] == rest;
  }

  lemma IndexOfTwo(a: string, rest: string, n: nat)
    requires ',' !in a && n > 0
    ensures SubstringIndex(a + "," + rest, ',', n) == if n == 1 then a else a + "," + SubstringIndex(rest, ',', n - 1)
  {
    assert a + "," + rest == a + ("," + rest);
    IndexSkips(a, "," + rest, n);
    IndexAtSeparator(rest, n);
    assert a + "" == a;
    var tail := SubstringIndex(rest, ',', if n == 1 then 0 else n - 1);
    assert a + ("," + tail) == a + "," + tail;
  }

  lemma TakeRenders(ids: seq<Id>, n: nat)
    requires |ids| > 1 && n > 1
    ensures Render(Take(ids, n)) == Format(ids[0]) + "," + Render(Take(ids[1..], n - 1))
  {
    assert Take(ids, n)[1..] == Take(ids[1..], n - 1);
  }

  lemma {:induction false} IndexOfRender(ids: seq<Id>, n: nat)
    requires n > 0
    ensures SubstringIndex(Render(ids), ',', n) == Render(Take(ids, n))
  {
    if |ids| == 1 {
      NoComma(ids[0]);
      IndexSkips(Format(ids[0]), "", n);
      assert Format(ids[0]) + "" == Format(ids[0]);
    } else if |ids| > 1 {
      NoComma(ids[0]);
      IndexOfTwo(Format(ids[0]), Render(ids[1..]), n);
      assert Render(ids) == Format(ids[0]) + "," + Render(ids[1..]);
      if n > 1 {
        IndexOfRender(ids[1..], n - 1);
        TakeRenders(ids, n);
      } else {
        assert Take(ids, n) == [ids[0]];
      }
    }
  }

  lemma RenderNonempty(ids: seq<Id>)
    requires ids != []
    ensures Render(ids) != ""
  {
  }

  /** The string surgery computes the rendering of the latest three. */
  lemma {:induction false} ColumnIsRendering(actors: seq<Id>)
    ensures ActorIds(actors) == Render(LatestFirst(actors, ACTORS_KEPT))
  {
    if |actors| == 1 {
      assert LatestFirst(actors, ACTORS_KEPT) == [actors[0]];
    } else if |actors| > 1 {
      var n := |actors| - 1;
      var before := LatestFirst(actors[..n], ACTORS_KEPT);
      ColumnIsRendering(actors[..n]);
      RenderNonempty(before);
      var ids := [actors[n]] + before;
      assert ids[1..] == before;
      assert Render(ids) == Format(actors[n]) + ("," + Render(before));
      IndexOfRender(ids, ACTORS_KEPT);
      assert Take(ids, ACTORS_KEPT) == LatestFirst(actors, ACTORS_KEPT);
    }
  }

  lemma DigitsTrim(id: Id)
    ensures TrimSpace(Format(id)) == Format(id)
  {
  }

  lemma {:induction false} PartsConcat(a: seq<string>, b: seq<string>)
    ensures ParseParts(a + b) == ParseParts(a) + ParseParts(b)
  {
    if b == [] {
      assert a + b == a;
    } else {
      var n := |b| - 1;
      PartsConcat(a, b[..n]);
      assert (a + b)[..|a + b| - 1] == a + b[..n];
    }
  }

  lemma {:induction false} SplitOfRender(ids: seq<Id>)
    requires ids != []
    ensures ParseParts(Split(Render(ids), ',')) == ids
  {
    NoComma(ids[0]);
    DigitsTrim(ids[0]);
    ParseFormat(ids[0]);
    assert [Format(ids[0])][..0] == [];
    assert ParseParts([Format(ids[0])]) == [ids[0]];
    if |ids| == 1 {
      SplitNone(Format(ids[0]), ',');
    } else {
      SplitAt(Format(ids[0]), ',', Render(ids[1..]));
      SplitOfRender(ids[1..]);
      PartsConcat([Format(ids[0])], Split(Render(ids[1..]), ','));
    }
  }

  lemma {:induction false} RenderLength(ids: seq<Id>)
    ensures |Render(ids)| <= if ids == [] then 0 else 21 * |ids| - 1
  {
    if ids != [] {
      IdLength(ids[0]);
      RenderLength(ids[1..]);
    }
  }

  /** After any sequence of upserts, what is read back from the column is the latest at most three actors,
      newest first, and the column never holds more than 62 characters, so its width never cuts it. */
  lemma ColumnReadsBackLatest(actors: seq<Id>)
    ensures var stored := ActorIds(actors);
            && (if stored == "" then [] else ParseParts(Split(stored, ','))) == LatestFirst(actors, ACTORS_KEPT)
            && |stored| <= 62 < COLUMN_WIDTH
  {
    ColumnIsRendering(actors);
    RenderLength(LatestFirst(actors, ACTORS_KEPT));
    if actors != [] {
      RenderNonempty(LatestFirst(actors, ACTORS_KEPT));
      SplitOfRender(LatestFirst(actors, ACTORS_KEPT));
    }
  }
}
