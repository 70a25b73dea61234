/**
 What saving the items of a message does to the table and to the operations that are left for the end
 (lib/ptolemy/storage/feeders/postgres.py:507-689).
 */
module PostgresSaving {
  import opened Feeder
  import opened PostgresRows
  import opened PostgresCache

  /** The table, the next serial number, and the ids to stamp and to delete at the end. */
  datatype State = State(table: Table, next: nat, updates: seq<nat>, deletes: set<nat>)

  /** The table once the pending bulk operations are done. */
  function Finished(s: State, time: int): Table {
    map id | id in s.table && id !in s.deletes ::
      if id in s.updates then s.table[id].(updated := time) else s.table[id]
  }

  /** The bulk update. */
  function Stamped(s: State, time: int): State {
    s.(table := Finished(s.(deletes := {}), time), updates := [])
  }

  /** UPDATE ... WHERE id = ... */
  function Updated(t: Table, id: nat, row: Row): Table {
    if id in t then t[id := row] else t
  }

  /** What saving one item does to the table and the pending operations. */
  ghost predicate Saved(docs: seq<Fetched>, s: State, s2: State, time: int, ignore: bool, c: Doc, d: Doc) {
    if |docs| == 0 then
      s2 == s.(table := s.table[s.next := Row(time, time, c, d)], next := s.next + 1)
    else if |docs| == 1 then
      var id, row := docs[0].id, docs[0].row;
      if ignore then
        s2 == s.(table := Updated(s.table, id, Row(if id in s.table then s.table[id].created else time, time, c, d)))
      else if row.data == d then
        s2 == s.(updates := s.updates + [id])
      else
        s2 == s.(table := Updated(s.table, id, Row(time, time, c, d)))
    else
      exists o: nat :: FirstCreated(docs, o) && s2 == s.(deletes := s.deletes + Ids(docs, |docs|) - {docs[o].id})
  }

  ghost predicate FirstCreated(docs: seq<Fetched>, s: nat) {
    s < |docs| && forall i :: 0 <= i < |docs| ==> docs[s].row.created <= docs[i].row.created
  }

  ghost function Ids(docs: seq<Fetched>, n: nat): set<nat>
    requires n <= |docs|
  {
    set i | 0 <= i < n :: docs[i].id
  }

  /** What saving some items one after the other does. */
  ghost predicate SavedAll(cache: Cache, s: State, s2: State, time: int, ignore: bool, ds: seq<Datum>)
    decreases |ds|
  {
    if |ds| == 0 then s2 == s
    else
      var before, d := ds[..|ds| - 1], ds[|ds| - 1];
      exists mid :: SavedAll(cache, s, mid, time, ignore, before) && SavedOne(cache, mid, s2, time, ignore, d)
  }

  ghost predicate SavedOne(cache: Cache, s: State, s2: State, time: int, ignore: bool, d: Datum) {
    Saved(ListOf(cache, d.context), s, s2, time, ignore, d.context, d.data)
  }

  lemma OneMoreSaved(cache: Cache, s: State, mid: State, s2: State, time: int, ignore: bool, ds: seq<Datum>, d: Datum)
    requires SavedAll(cache, s, mid, time, ignore, ds)
    requires SavedOne(cache, mid, s2, time, ignore, d)
    ensures SavedAll(cache, s, s2, time, ignore, ds + [d])
  {
    var all := ds + [d];
    assert all[..|all| - 1] == ds && all[|all| - 1] == d;
    assert SavedAll(cache, s, mid, time, ignore, all[..|all| - 1]);
  }

  // ---------- How far a message has come ----------

  /** The id is that of the only row of its context, and there were data for that. */
  ghost predicate Alone(t0: Table, id: nat, ds: seq<Datum>) {
    id in t0 && Only(Rows(t0, t0[id].context), id) && DataFor(ds, t0[id].context) != []
  }

  /** The id is that of one of several rows of its context, and there were data for that. */
  ghost predicate Crowded(t0: Table, id: nat, ds: seq<Datum>) {
    id in t0 && Several(Rows(t0, t0[id].context)) && DataFor(ds, t0[id].context) != []
  }

  ghost predicate Numbered(t: Table, next: nat) {
    forall id <- t :: id < next
  }

  /** Rows are stamped that are the only ones of their context; rows are deleted of which there are several, and
      those stay as they are until then. */
  ghost predicate Pending(t0: Table, s: State, ds: seq<Datum>) {
    && Numbered(t0, s.next) && Numbered(s.table, s.next)
    && (forall id <- s.updates :: Alone(t0, id, ds))
    && (forall id <- s.deletes :: Crowded(t0, id, ds))
    && (forall c {:trigger Rows(s.table, c)} :: Several(Rows(t0, c)) ==> Rows(s.table, c) == Rows(t0, c))
  }

  /** The items `ds` are saved: once the bulk operations are done, the table is updated by them. */
  ghost predicate Progress(t0: Table, s: State, ds: seq<Datum>, late: iset<Doc>, time: int) {
    Upserted(t0, Finished(s, time), ds, late, time) && Pending(t0, s, ds)
  }

  lemma PendingApart(t0: Table, s: State, ds: seq<Datum>)
    requires Pending(t0, s, ds)
    ensures forall id <- s.updates :: id in t0 && !Several(Rows(t0, t0[id].context))
    ensures forall id <- s.deletes ::
              id in t0 && Several(Rows(t0, t0[id].context)) && DataFor(ds, t0[id].context) != []
              && id in s.table && s.table[id] == t0[id]
  {
    forall id | id in s.updates ensures id in t0 && !Several(Rows(t0, t0[id].context)) {
      assert Alone(t0, id, ds);
    }
    forall id | id in s.deletes
      ensures id in t0 && Several(Rows(t0, t0[id].context)) && DataFor(ds, t0[id].context) != []
              && id in s.table && s.table[id] == t0[id]
    {
      assert Crowded(t0, id, ds);
      var c := t0[id].context;
      assert Rows(s.table, c) == Rows(t0, c) && id in Rows(t0, c);
      assert id in Rows(s.table, c) && Rows(s.table, c)[id] == Rows(t0, c)[id];
    }
  }

  lemma RowsAfterSet(t: Table, id: nat, row: Row)
    requires id in t ==> t[id].context == row.context
    ensures Rows(t[id := row], row.context) == Rows(t, row.context)[id := row]
    ensures forall c {:trigger Rows(t[id := row], c)} :: c != row.context ==> Rows(t[id := row], c) == Rows(t, c)
  {
    forall c: Doc | c != row.context ensures Rows(t[id := row], c) == Rows(t, c) {
    }
  }

  /** Only the rows of one context change, and as one more item should change them. */
  lemma OneMoreItem(t0: Table, f: Table, f2: Table, ds: seq<Datum>, late: iset<Doc>, time: int, c: Doc, d: Doc)
    requires Upserted(t0, f, ds, late, time)
    requires forall x {:trigger Rows(f2, x)} :: x != c ==> Rows(f2, x) == Rows(f, x)
    requires Outcome(Rows(t0, c), Rows(f2, c), c, DataFor(ds, c) + [d], c in late, time)
    ensures Upserted(t0, f2, ds + [Datum(c, d)], late, time)
  {
    forall x: Doc
      ensures Outcome(Rows(t0, x), Rows(f2, x), x, DataFor(ds + [Datum(c, d)], x), x in late, time)
    {
      DataWithOneMore(ds, c, d, x);
      assert Outcome(Rows(t0, x), Rows(f, x), x, DataFor(ds, x), x in late, time);
    }
  }

  // ---------- A context without a row ----------

  lemma OneMoreInserted(rows: Table, c: Doc, data: seq<Doc>, time: int, id: nat, d: Doc)
    requires InsertedRows(rows, c, data, time) && id !in rows
    ensures InsertedRows(rows[id := Row(time, time, c, d)], c, data + [d], time)
  {
    var ids :| InsertedAs(rows, c, data, time, ids);
    InsertedAlso(rows, c, data, time, ids, id, d);
  }

  lemma InsertedAlso(rows: Table, c: Doc, data: seq<Doc>, time: int, ids: seq<nat>, id: nat, d: Doc)
    requires InsertedAs(rows, c, data, time, ids) && id !in rows
    ensures InsertedAs(rows[id := Row(time, time, c, d)], c, data + [d], time, ids + [id])
  {
    var rows2, ids2 := rows[id := Row(time, time, c, d)], ids + [id];
    forall i, j | 0 <= i < j < |ids2| ensures ids2[i] != ids2[j] {
      assert ids2[i] in rows;
    }
    assert ids2[|ids|] == id;
  }

  lemma InsertedRow(t0: Table, s: State, ds: seq<Datum>, late: iset<Doc>, time: int, c: Doc, d: Doc)
    requires Progress(t0, s, ds, late, time) && Rows(t0, c) == map[]
    ensures Upserted(t0, Finished(s.(table := s.table[s.next := Row(time, time, c, d)]), time),
                     ds + [Datum(c, d)], late, time)
  {
    var f, row := Finished(s, time), Row(time, time, c, d);
    assert s.next !in s.updates && s.next !in s.deletes;
    assert Finished(s.(table := s.table[s.next := row]), time) == f[s.next := row];
    RowsAfterSet(f, s.next, row);
    assert Outcome(Rows(t0, c), Rows(f, c), c, DataFor(ds, c), c in late, time);
    if DataFor(ds, c) == [] {
      NoRowsInserted(c, time);
    }
    OneMoreInserted(Rows(f, c), c, DataFor(ds, c), time, s.next, d);
    OneMoreItem(t0, f, f[s.next := row], ds, late, time, c, d);
  }

  lemma NoRowsInserted(c: Doc, time: int)
    ensures InsertedRows(map[], c, [], time)
  {
    var none: seq<nat> := [];
    assert InsertedAs(map[], c, [], time, none);
  }

  // ---------- A context with one row ----------

  /** The row so far. */
  lemma TheRow(t0: Table, f: Table, ds: seq<Datum>, late: iset<Doc>, time: int, c: Doc, id: nat)
    requires Upserted(t0, f, ds, late, time) && Only(Rows(t0, c), id) && c !in late
    ensures id in f && Only(Rows(f, c), id) && f[id].context == c
    ensures f[id] == if DataFor(ds, c) == [] then t0[id] else Final(t0[id], c, DataFor(ds, c), time)
  {
    RowAfter(t0, f, ds, late, time, c, id);
    assert id in Rows(t0, c);
  }

  lemma RefreshedRow(t0: Table, f: Table, ds: seq<Datum>, late: iset<Doc>, time: int, c: Doc, d: Doc, id: nat)
    requires Upserted(t0, f, ds, late, time) && Only(Rows(t0, c), id) && c !in late && id in t0
    ensures id in f
    ensures var row := if t0[id].data == d then f[id].(updated := time) else Row(time, time, c, d);
            Upserted(t0, f[id := row], ds + [Datum(c, d)], late, time)
  {
    TheRow(t0, f, ds, late, time, c, id);
    var row := if t0[id].data == d then f[id].(updated := time) else Row(time, time, c, d);
    RowsAfterSet(f, id, row);
    OneMoreOther(DataFor(ds, c), t0[id].data, d);
    RowIsFinal(t0, f, ds, time, c, d, id);
    OnlyEntry(Rows(f[id := row], c), id);
    assert id in Rows(t0, c) && Rows(t0, c)[id] == t0[id];
    assert OnlyRow(Rows(f[id := row], c), id, Final(Rows(t0, c)[id], c, DataFor(ds, c) + [d], time));
    OneMoreItem(t0, f, f[id := row], ds, late, time, c, d);
  }

  lemma RowIsFinal(t0: Table, f: Table, ds: seq<Datum>, time: int, c: Doc, d: Doc, id: nat)
    requires id in t0 && id in f && f[id].context == c && t0[id].context == c
    requires f[id] == if DataFor(ds, c) == [] then t0[id] else Final(t0[id], c, DataFor(ds, c), time)
    ensures (if t0[id].data == d then f[id].(updated := time) else Row(time, time, c, d))
         == Final(t0[id], c, DataFor(ds, c) + [d], time)
  {
    OneMoreOther(DataFor(ds, c), t0[id].data, d);
  }

  lemma StampedRow(t0: Table, s: State, ds: seq<Datum>, late: iset<Doc>, time: int, c: Doc, d: Doc, id: nat)
    requires Progress(t0, s, ds, late, time) && Only(Rows(t0, c), id) && c !in late && id in t0 && t0[id].data == d
    ensures Upserted(t0, Finished(s.(updates := s.updates + [id]), time), ds + [Datum(c, d)], late, time)
  {
    var f := Finished(s, time);
    RefreshedRow(t0, f, ds, late, time, c, d, id);
    assert Finished(s.(updates := s.updates + [id]), time) == f[id := f[id].(updated := time)];
  }

  lemma ChangedRow(t0: Table, s: State, ds: seq<Datum>, late: iset<Doc>, time: int, c: Doc, d: Doc, id: nat)
    requires Progress(t0, s, ds, late, time) && Only(Rows(t0, c), id) && c !in late && id in t0 && t0[id].data != d
    ensures id in s.table
    ensures Upserted(t0, Finished(s.(table := s.table[id := Row(time, time, c, d)]), time), ds + [Datum(c, d)], late,
                     time)
  {
    var f := Finished(s, time);
    RefreshedRow(t0, f, ds, late, time, c, d, id);
    assert Finished(s.(table := s.table[id := Row(time, time, c, d)]), time) == f[id := Row(time, time, c, d)];
  }

  /** Data for the only row are lost when that was fetched twice: it seems to be superfluous and to be kept. */
  lemma LateRow(t0: Table, s: State, ds: seq<Datum>, late: iset<Doc>, time: int, c: Doc, d: Doc, id: nat)
    requires Progress(t0, s, ds, late, time) && Only(Rows(t0, c), id) && c in late
    ensures Upserted(t0, Finished(s, time), ds + [Datum(c, d)], late, time)
  {
    var f := Finished(s, time);
    assert id in Rows(t0, c) && Rows(t0, c) != map[] && !Several(Rows(t0, c));
    assert Outcome(Rows(t0, c), Rows(f, c), c, DataFor(ds, c), c in late, time);
    OneMoreItem(t0, f, f, ds, late, time, c, d);
  }

  // ---------- A context with several rows ----------

  lemma FinishedElsewhere(s: State, s2: State, c: Doc, time: int)
    requires s2 == s.(deletes := s2.deletes)
    requires forall id <- s.table :: s.table[id].context != c ==> (id in s2.deletes <==> id in s.deletes)
    ensures var f, f2 := Finished(s, time), Finished(s2, time);
            forall x {:trigger Rows(f2, x)} :: x != c ==> Rows(f2, x) == Rows(f, x)
  {
    var f, f2 := Finished(s, time), Finished(s2, time);
    forall x: Doc | x != c ensures Rows(f2, x) == Rows(f, x) {
      assert forall id :: id in Rows(f2, x) <==> id in Rows(f, x);
    }
  }

  lemma ThinnedRows(t0: Table, s: State, ds: seq<Datum>, late: iset<Doc>, time: int, c: Doc, d: Doc,
                    docs: seq<Fetched>, o: nat)
    requires Progress(t0, s, ds, late, time) && Recalls(t0, c, docs) && Several(Rows(t0, c)) && FirstCreated(docs, o)
    ensures var s2 := s.(deletes := s.deletes + Ids(docs, |docs|) - {docs[o].id});
            Upserted(t0, Finished(s2, time), ds + [Datum(c, d)], late, time)
  {
    var id, s2 := docs[o].id, s.(deletes := s.deletes + Ids(docs, |docs|) - {docs[o].id});
    IdsOfRows(t0, c, docs);
    assert Rows(s.table, c) == Rows(t0, c);
    forall i | i in Ids(docs, |docs|) ensures i in s.table && s.table[i].context == c {
      assert i in Rows(s.table, c);
    }
    FinishedElsewhere(s, s2, c, time);
    OldestIsLeft(t0, s, ds, time, c, docs, o);
    assert Oldest(Rows(t0, c), id) by {
      forall i | i in Rows(t0, c) ensures Rows(t0, c)[id].created <= Rows(t0, c)[i].created {
        assert Fetched(i, t0[i]) in docs;
      }
    }
    assert DataFor(ds, c) + [d] != [] && Rows(t0, c) != map[];
    OneMoreItem(t0, Finished(s, time), Finished(s2, time), ds, late, time, c, d);
  }

  lemma OldestIsLeft(t0: Table, s: State, ds: seq<Datum>, time: int, c: Doc, docs: seq<Fetched>, o: nat)
    requires Pending(t0, s, ds) && Recalls(t0, c, docs) && Several(Rows(t0, c)) && FirstCreated(docs, o)
    ensures var s2 := s.(deletes := s.deletes + Ids(docs, |docs|) - {docs[o].id});
            docs[o].id in Rows(t0, c)
            && OnlyRow(Rows(Finished(s2, time), c), docs[o].id, Rows(t0, c)[docs[o].id])
  {
    var id, s2 := docs[o].id, s.(deletes := s.deletes + Ids(docs, |docs|) - {docs[o].id});
    var rows := Rows(Finished(s2, time), c);
    IdsOfRows(t0, c, docs);
    assert Rows(s.table, c) == Rows(t0, c);
    assert id in Rows(s.table, c) && Rows(s.table, c)[id] == Rows(t0, c)[id];
    PendingApart(t0, s, ds);
    assert id !in s.updates;
    forall i | i in rows ensures i == id {
      assert i in Rows(s.table, c);
    }
    OnlyEntry(rows, id);
  }

  lemma IdsOfRows(t0: Table, c: Doc, docs: seq<Fetched>)
    requires Recalls(t0, c, docs)
    ensures Ids(docs, |docs|) == Rows(t0, c).Keys
    ensures |docs| == 0 <==> Rows(t0, c) == map[]
    ensures |docs| == 1 ==> Only(Rows(t0, c), docs[0].id)
    ensures Apart(docs) && |docs| > 1 ==> Several(Rows(t0, c))
  {
    forall i | i in Rows(t0, c) ensures i in Ids(docs, |docs|) {
      assert Fetched(i, t0[i]) in docs;
    }
    if |docs| > 0 {
      assert docs[0].id in Rows(t0, c);
    }
    if |docs| == 1 {
      assert Ids(docs, |docs|) == {docs[0].id};
    }
    if Apart(docs) && |docs| > 1 {
      TwoAreSeveral(Rows(t0, c), docs[0].id, docs[1].id);
    }
  }

  // ---------- Any context ----------

  lemma StillPending(t0: Table, docs: seq<Fetched>, s: State, s2: State, ds: seq<Datum>, time: int, c: Doc, d: Doc)
    requires Pending(t0, s, ds) && Recalls(t0, c, docs) && Saved(docs, s, s2, time, false, c, d)
    requires |docs| > 1 ==> Several(Rows(t0, c))
    ensures Pending(t0, s2, ds + [Datum(c, d)])
  {
    IdsOfRows(t0, c, docs);
    forall x: Doc ensures DataFor(ds, x) != [] || x == c ==> DataFor(ds + [Datum(c, d)], x) != [] {
      DataWithOneMore(ds, c, d, x);
    }
    forall i | 0 <= i < |docs| ensures docs[i].id in t0 && t0[docs[i].id].context == c {
      assert docs[i].id in Rows(t0, c);
    }
    SeveralStay(t0, docs, s, s2, ds, time, c, d);
  }

  lemma SeveralStay(t0: Table, docs: seq<Fetched>, s: State, s2: State, ds: seq<Datum>, time: int, c: Doc, d: Doc)
    requires Pending(t0, s, ds) && Recalls(t0, c, docs) && Saved(docs, s, s2, time, false, c, d)
    requires |docs| > 1 ==> Several(Rows(t0, c))
    ensures forall x {:trigger Rows(s2.table, x)} :: Several(Rows(t0, x)) ==> Rows(s2.table, x) == Rows(t0, x)
  {
    IdsOfRows(t0, c, docs);
    if |docs| <= 1 {
      if |docs| == 1 {
        assert docs[0].id in Rows(t0, c);
        OnlyElsewhere(t0, s, ds, c, docs[0].id);
      }
      forall x: Doc | Several(Rows(t0, x)) ensures Rows(s2.table, x) == Rows(t0, x) {
        assert Rows(s.table, x) == Rows(t0, x) && x != c;
        var id := if |docs| == 0 then s.next else docs[0].id;
        SetElsewhere(s.table, id, x, c);
      }
    }
  }

  /** A row that is set to a context does not matter to another one, unless it was of that. */
  lemma SetElsewhere(t: Table, id: nat, x: Doc, c: Doc)
    requires x != c && (id in t ==> t[id].context != x)
    ensures forall row: Row {:trigger t[id := row]} :: row.context == c ==> Rows(t[id := row], x) == Rows(t, x)
  {
  }

  /** The id of the only row of a context is no other context's. */
  lemma OnlyElsewhere(t0: Table, s: State, ds: seq<Datum>, c: Doc, id: nat)
    requires Pending(t0, s, ds) && Only(Rows(t0, c), id)
    ensures id in s.table && Several(Rows(t0, s.table[id].context)) ==> s.table[id].context == c
  {
    if id in s.table && Several(Rows(t0, s.table[id].context)) {
      var x := s.table[id].context;
      assert Rows(s.table, x) == Rows(t0, x) && id in Rows(s.table, x);
      assert id in Rows(t0, c);
    }
  }

  /** Saving one more item, with what is cached for it fetched once or twice. */
  lemma SavedUpserts(t0: Table, docs: seq<Fetched>, s: State, s2: State, ds: seq<Datum>, late: iset<Doc>, time: int,
                     c: Doc, d: Doc)
    requires Progress(t0, s, ds, late, time) && Saved(docs, s, s2, time, false, c, d)
    requires if c in late then HoldsTwice(t0, c, docs) else Holds(t0, c, docs)
    ensures Progress(t0, s2, ds + [Datum(c, d)], late, time)
  {
    IdsOfRows(t0, c, docs);
    if |docs| == 0 {
      InsertedRow(t0, s, ds, late, time, c, d);
      assert Finished(s.(table := s.table[s.next := Row(time, time, c, d)]), time) == Finished(s2, time);
      StillPending(t0, docs, s, s2, ds, time, c, d);
    } else if |docs| == 1 {
      assert docs[0].id in Rows(t0, c) && docs[0].row == t0[docs[0].id];
      if docs[0].row.data == d {
        StampedRow(t0, s, ds, late, time, c, d, docs[0].id);
      } else {
        ChangedRow(t0, s, ds, late, time, c, d, docs[0].id);
      }
      StillPending(t0, docs, s, s2, ds, time, c, d);
    } else {
      var o: nat :| FirstCreated(docs, o) && s2 == s.(deletes := s.deletes + Ids(docs, |docs|) - {docs[o].id});
      if Several(Rows(t0, c)) {
        ThinnedRows(t0, s, ds, late, time, c, d, docs, o);
        StillPending(t0, docs, s, s2, ds, time, c, d);
      } else {
        FetchedTwice(t0, s, s2, ds, late, time, c, d, docs, o);
      }
    }
  }

  lemma FetchedTwice(t0: Table, s: State, s2: State, ds: seq<Datum>, late: iset<Doc>, time: int, c: Doc, d: Doc,
                     docs: seq<Fetched>, o: nat)
    requires Progress(t0, s, ds, late, time) && c in late && Recalls(t0, c, docs) && !Several(Rows(t0, c))
    requires FirstCreated(docs, o) && s2 == s.(deletes := s.deletes + Ids(docs, |docs|) - {docs[o].id})
    ensures s2 == s && Progress(t0, s2, ds + [Datum(c, d)], late, time)
  {
    IdsOfRows(t0, c, docs);
    var id: nat :| Only(Rows(t0, c), id);
    assert docs[o].id in Rows(t0, c) && id in Rows(t0, c);
    PendingApart(t0, s, ds);
    assert id !in s.deletes;
    assert s2.deletes == s.deletes;
    LateRow(t0, s, ds, late, time, c, d, id);
    forall x: Doc ensures DataFor(ds, x) != [] ==> DataFor(ds + [Datum(c, d)], x) != [] {
      DataWithOneMore(ds, c, d, x);
    }
  }

  /** What is cached for the context of an item when it is saved. */
  ghost predicate FetchedFor(t0: Table, cache: Cache, late: iset<Doc>, c: Doc) {
    if c in late then HoldsTwice(t0, c, ListOf(cache, c)) else Holds(t0, c, ListOf(cache, c))
  }

  lemma SavedOneUpserts(t0: Table, cache: Cache, s: State, s2: State, before: seq<Datum>, d: Datum, late: iset<Doc>,
                        time: int)
    requires Progress(t0, s, before, late, time) && SavedOne(cache, s, s2, time, false, d)
    requires FetchedFor(t0, cache, late, d.context)
    ensures Progress(t0, s2, before + [d], late, time)
  {
    SavedUpserts(t0, ListOf(cache, d.context), s, s2, before, late, time, d.context, d.data);
  }

  /** Saving some more items. */
  lemma {:induction false} SavedAllUpsert(t0: Table, cache: Cache, s: State, s2: State, before: seq<Datum>,
                                          ds: seq<Datum>, late: iset<Doc>, time: int)
    requires Progress(t0, s, before, late, time) && SavedAll(cache, s, s2, time, false, ds)
    requires forall i :: 0 <= i < |ds| ==> FetchedFor(t0, cache, late, ds[i].context)
    ensures Progress(t0, s2, before + ds, late, time)
    decreases |ds|
  {
    if |ds| == 0 {
      assert before + ds == before;
    } else {
      var first, d := ds[..|ds| - 1], ds[|ds| - 1];
      var mid :| SavedAll(cache, s, mid, time, false, first) && SavedOne(cache, mid, s2, time, false, d);
      SavedAllUpsert(t0, cache, s, mid, before, first, late, time);
      SavedOneUpserts(t0, cache, mid, s2, before + first, d, late, time);
      assert before + ds == before + first + [d];
    }
  }

  /** Only the items that were saved matter. */
  lemma OtherLate(t0: Table, s: State, ds: seq<Datum>, late: iset<Doc>, late2: iset<Doc>, time: int)
    requires Progress(t0, s, ds, late, time)
    requires forall c {:trigger DataFor(ds, c)} :: DataFor(ds, c) != [] ==> (c in late <==> c in late2)
    ensures Progress(t0, s, ds, late2, time)
  {
    var f := Finished(s, time);
    forall c: Doc ensures Outcome(Rows(t0, c), Rows(f, c), c, DataFor(ds, c), c in late2, time) {
      assert Outcome(Rows(t0, c), Rows(f, c), c, DataFor(ds, c), c in late, time);
    }
  }

  /** Nothing is saved yet. */
  lemma NothingSaved(s: State, late: iset<Doc>, time: int)
    requires s.updates == [] && s.deletes == {} && Numbered(s.table, s.next)
    ensures Progress(s.table, s, [], late, time)
  {
    assert Finished(s, time) == s.table;
  }

  /** The bulk update stamps what is to be stamped. */
  lemma BulkStamps(t0: Table, s: State, ds: seq<Datum>, late: iset<Doc>, time: int)
    requires Progress(t0, s, ds, late, time)
    ensures Progress(t0, Stamped(s, time), ds, late, time)
  {
    var s2 := Stamped(s, time);
    assert Finished(s2, time) == Finished(s, time);
    PendingApart(t0, s, ds);
    forall c: Doc | Several(Rows(t0, c)) ensures Rows(s2.table, c) == Rows(t0, c) {
      assert Rows(s.table, c) == Rows(t0, c);
    }
  }

  /** While an item of a context is still to come, the table has its rows as before the message. */
  lemma RowsUntouched(t0: Table, s: State, ds: seq<Datum>, late: iset<Doc>, time: int, c: Doc)
    requires Progress(t0, s, ds, late, time) && s.updates == [] && DataFor(ds, c) == []
    ensures Rows(s.table, c) == Rows(t0, c)
  {
    var f := Finished(s, time);
    assert Outcome(Rows(t0, c), Rows(f, c), c, DataFor(ds, c), c in late, time);
    if Several(Rows(t0, c)) {
      return;
    }
    PendingApart(t0, s, ds);
    assert Rows(s.table, c) == Rows(f, c);
  }
}
