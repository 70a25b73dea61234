/**
 What the storage daemon for the database has fetched
 (lib/ptolemy/storage/feeders/postgres.py:270-288, 433-490).
 */
module PostgresCache {
  import opened Basics
  import opened Feeder
  import opened PostgresRows

  /** A row as a query returns it. */
  datatype Fetched = Fetched(id: nat, row: Row)

  type Cache = map<Doc, seq<Fetched>>

  // ---------- Queries ----------

  predicate Matches(context: Doc, wanted: Doc) {
    forall k <- wanted :: k in context && context[k] == wanted[k]
  }

  ghost predicate InTable(t: Table, wanted: Doc, f: Fetched) {
    f.id in t && t[f.id] == f.row && Matches(f.row.context, wanted)
  }

  /** All rows that match, each once, or only the one created last. */
  ghost predicate Answer(t: Table, wanted: Doc, recent: bool, rows: seq<Fetched>) {
    && (forall i :: 0 <= i < |rows| ==> InTable(t, wanted, rows[i]))
    && Apart(rows)
    && if recent then
         && |rows| <= 1
         && (forall id <- t :: Matches(t[id].context, wanted) ==> |rows| == 1 && t[id].created <= rows[0].row.created)
       else
         forall id <- t :: Matches(t[id].context, wanted) ==> Fetched(id, t[id]) in rows
  }

  /** The SELECT of `query`. */
  method Select(t: Table, wanted: Doc, recent: bool) returns (rows: seq<Fetched>)
    ensures Answer(t, wanted, recent, rows)
  {
    rows := [];
    var ids := t.Keys;
    while ids != {}
      invariant ids <= t.Keys
      invariant Answer(t - ids, wanted, recent, rows)
      decreases ids
    {
      var id :| id in ids;
      assert forall i :: 0 <= i < |rows| ==> InTable(t - ids, wanted, rows[i]);
      assert t - (ids - {id}) == (t - ids)[id := t[id]];
      if Matches(t[id].context, wanted) {
        if !recent {
          rows := rows + [Fetched(id, t[id])];
        } else if rows == [] || rows[0].row.created < t[id].created {
          rows := [Fetched(id, t[id])];
        }
      }
      ids := ids - {id};
    }
    assert t - ids == t;
  }

  // ---------- The cache ----------

  /** The cache with the first `n` rows added. */
  function Cached(cache: Cache, rows: seq<Fetched>, n: nat): Cache
    requires n <= |rows|
  {
    if n == 0 then cache
    else
      var before := Cached(cache, rows, n - 1);
      var c := rows[n - 1].row.context;
      before[c := ListOf(before, c) + [rows[n - 1]]]
  }

  method Remember(cache: Cache, f: Fetched) returns (r: Cache)
    ensures r == cache[f.row.context := ListOf(cache, f.row.context) + [f]]
  {
    var key := f.row.context;
    r := cache;
    if key !in r {
      r := r[key := []];
    }
    r := r[key := r[key] + [f]];
  }

  /** What is cached for a context are its rows in the table, all of them. */
  ghost predicate Recalls(t: Table, c: Doc, docs: seq<Fetched>) {
    && (forall i :: 0 <= i < |docs| ==> docs[i].id in Rows(t, c) && docs[i].row == t[docs[i].id])
    && (forall id <- Rows(t, c) :: Fetched(id, t[id]) in docs)
  }

  /** Each of them once. */
  ghost predicate Holds(t: Table, c: Doc, docs: seq<Fetched>) {
    Recalls(t, c, docs) && Apart(docs)
  }

  /** Each of them more than once, as when two queries returned them. */
  ghost predicate HoldsTwice(t: Table, c: Doc, docs: seq<Fetched>) {
    Recalls(t, c, docs) && (Rows(t, c) != map[] ==> |docs| > 1)
  }

  ghost predicate AmongFirst(rows: seq<Fetched>, n: nat, f: Fetched)
    requires n <= |rows|
  {
    exists i :: 0 <= i < n && rows[i] == f
  }

  /** The first `n` rows that are of the context, each once. */
  ghost predicate HoldsSome(rows: seq<Fetched>, n: nat, c: Doc, docs: seq<Fetched>)
    requires n <= |rows|
  {
    && (forall i :: 0 <= i < |docs| ==> docs[i].row.context == c && AmongFirst(rows, n, docs[i]))
    && Apart(docs)
    && (forall i :: 0 <= i < n && rows[i].row.context == c ==> rows[i] in docs)
  }

  ghost predicate Apart(rows: seq<Fetched>) {
    forall i, j :: 0 <= i < j < |rows| ==> rows[i].id != rows[j].id
  }

  lemma OneMoreHeld(rows: seq<Fetched>, n: nat, c: Doc, docs: seq<Fetched>)
    requires n < |rows| && Apart(rows) && HoldsSome(rows, n, c, docs) && rows[n].row.context == c
    ensures HoldsSome(rows, n + 1, c, docs + [rows[n]])
  {
    var docs2 := docs + [rows[n]];
    forall i | 0 <= i < |docs2| ensures docs2[i].row.context == c && AmongFirst(rows, n + 1, docs2[i]) {
      if i < |docs| {
        StillAmong(rows, n, docs[i]);
      }
    }
    forall i, j | 0 <= i < j < |docs2| ensures docs2[i].id != docs2[j].id {
      var k :| 0 <= k < n && rows[k] == docs[i];
    }
    forall i | 0 <= i < n + 1 && rows[i].row.context == c ensures rows[i] in docs2 {
      if i < n {
        assert rows[i] in docs;
      } else {
        assert docs2[|docs|] == rows[n];
      }
    }
  }

  lemma OneMoreElsewhere(rows: seq<Fetched>, n: nat, c: Doc, docs: seq<Fetched>)
    requires n < |rows| && HoldsSome(rows, n, c, docs) && rows[n].row.context != c
    ensures HoldsSome(rows, n + 1, c, docs)
  {
    forall i | 0 <= i < |docs| ensures AmongFirst(rows, n + 1, docs[i]) {
      StillAmong(rows, n, docs[i]);
    }
  }

  lemma StillAmong(rows: seq<Fetched>, n: nat, f: Fetched)
    requires n < |rows| && AmongFirst(rows, n, f)
    ensures AmongFirst(rows, n + 1, f)
  {
  }

  lemma {:induction false} CachedSome(rows: seq<Fetched>, n: nat, c: Doc)
    requires n <= |rows| && Apart(rows)
    ensures HoldsSome(rows, n, c, ListOf(Cached(map[], rows, n), c))
  {
    if n > 0 {
      CachedSome(rows, n - 1, c);
      var docs := ListOf(Cached(map[], rows, n - 1), c);
      if rows[n - 1].row.context == c {
        OneMoreHeld(rows, n - 1, c, docs);
      } else {
        OneMoreElsewhere(rows, n - 1, c, docs);
      }
    }
  }

  /** After the query, the cache tells everything about the contexts it asked for. */
  lemma CacheIsExact(t: Table, wanted: Doc, rows: seq<Fetched>, c: Doc)
    requires Answer(t, wanted, false, rows) && Matches(c, wanted)
    ensures Holds(t, c, ListOf(Cached(map[], rows, |rows|), c))
  {
    CachedSome(rows, |rows|, c);
    var docs := ListOf(Cached(map[], rows, |rows|), c);
    forall i | 0 <= i < |docs| ensures docs[i].id in Rows(t, c) && docs[i].row == t[docs[i].id] {
      assert AmongFirst(rows, |rows|, docs[i]);
      var j :| 0 <= j < |rows| && rows[j] == docs[i];
      assert InTable(t, wanted, rows[j]);
    }
    forall id | id in Rows(t, c) ensures Fetched(id, t[id]) in docs {
      assert Fetched(id, t[id]) in rows;
    }
  }

  /** About contexts that do not match it tells nothing. */
  lemma CachedAreWanted(t: Table, wanted: Doc, rows: seq<Fetched>, c: Doc)
    requires Answer(t, wanted, false, rows)
    ensures ListOf(Cached(map[], rows, |rows|), c) != [] ==> Matches(c, wanted)
  {
    CachedSome(rows, |rows|, c);
    var docs := ListOf(Cached(map[], rows, |rows|), c);
    if docs != [] {
      assert AmongFirst(rows, |rows|, docs[0]);
      var j :| 0 <= j < |rows| && rows[j] == docs[0];
      assert InTable(t, wanted, rows[j]);
    }
  }

  lemma AppendBoth<T>(a: seq<T>, b: seq<T>, c: seq<T>)
    ensures a + (b + c) == (a + b) + c
  {
  }

  lemma OneMoreCached(cache: Cache, rows: seq<Fetched>, n: nat, c: Doc)
    requires n < |rows|
    ensures ListOf(Cached(cache, rows, n + 1), c)
         == ListOf(Cached(cache, rows, n), c) + if rows[n].row.context == c then [rows[n]] else []
  {
  }

  /** What a later query adds to the cache comes after what was there. */
  lemma {:induction false} CachedAppends(cache: Cache, rows: seq<Fetched>, n: nat, c: Doc)
    requires n <= |rows|
    ensures ListOf(Cached(cache, rows, n), c) == ListOf(cache, c) + ListOf(Cached(map[], rows, n), c)
  {
    if n == 0 {
      assert ListOf(cache, c) + [] == ListOf(cache, c);
    } else {
      CachedAppends(cache, rows, n - 1, c);
      OneMoreCached(cache, rows, n - 1, c);
      OneMoreCached(map[], rows, n - 1, c);
      AppendBoth(ListOf(cache, c), ListOf(Cached(map[], rows, n - 1), c),
                 if rows[n - 1].row.context == c then [rows[n - 1]] else []);
    }
  }

  /** What is cached for a context whose rows have not changed since they were first queried. */
  ghost predicate Recalled(t: Table, c: Doc, docs: seq<Fetched>, asked: bool) {
    if asked then Recalls(t, c, docs) else docs == []
  }

  lemma SameRecalled(t: Table, t0: Table, c: Doc, docs: seq<Fetched>)
    requires Rows(t, c) == Rows(t0, c) && Recalls(t, c, docs)
    ensures Recalls(t0, c, docs)
  {
    forall id | id in Rows(t, c) ensures t[id] == t0[id] {
      assert Rows(t, c)[id] == Rows(t0, c)[id];
    }
  }

  lemma RecalledTwice(t: Table, c: Doc, docs: seq<Fetched>, docs2: seq<Fetched>)
    requires Recalls(t, c, docs) && Recalls(t, c, docs2)
    ensures HoldsTwice(t, c, docs + docs2)
  {
    if Rows(t, c) != map[] {
      var id :| id in Rows(t, c);
      assert Fetched(id, t[id]) in docs && Fetched(id, t[id]) in docs2;
    }
  }

  /** A query adds the rows of just the contexts that match. */
  lemma QueryRecalls(t0: Table, t: Table, cache: Cache, wanted: Doc, rows: seq<Fetched>, c: Doc, asked: bool)
    requires Answer(t, wanted, false, rows) && Rows(t, c) == Rows(t0, c) && Recalled(t0, c, ListOf(cache, c), asked)
    ensures Recalled(t0, c, ListOf(Cached(cache, rows, |rows|), c), asked || Matches(c, wanted))
    ensures Matches(c, wanted) ==>
              var docs := ListOf(Cached(cache, rows, |rows|), c);
              if asked then HoldsTwice(t0, c, docs) else Holds(t0, c, docs)
  {
    CachedAppends(cache, rows, |rows|, c);
    var found := ListOf(Cached(map[], rows, |rows|), c);
    if Matches(c, wanted) {
      CacheIsExact(t, wanted, rows, c);
      SameRecalled(t, t0, c, found);
      if asked {
        RecalledTwice(t0, c, ListOf(cache, c), found);
      } else {
        assert ListOf(cache, c) + found == found;
      }
    } else {
      CachedAreWanted(t, wanted, rows, c);
      assert ListOf(cache, c) + found == ListOf(cache, c);
    }
  }
}
