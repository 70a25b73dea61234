/**
 A table of the storage database and what storing a message should make of it
 (lib/ptolemy/storage/feeders/postgres.py:304-357, 439-510).
 */
module PostgresRows {
  import opened Basics
  import opened Feeder

  datatype Row = Row(created: int, updated: int, context: Doc, data: Doc)

  type Table = map<nat, Row>

  /** The rows of one context. */
  function Rows(t: Table, c: Doc): Table {
    map id | id in t && t[id].context == c :: t[id]
  }

  ghost predicate Oldest(rows: Table, id: nat) {
    id in rows && forall o <- rows :: rows[id].created <= rows[o].created
  }

  ghost predicate Only(rows: Table, id: nat) {
    rows.Keys == {id}
  }

  ghost predicate OnlyRow(rows: Table, id: nat, row: Row) {
    rows == map[id := row]
  }

  ghost predicate Several(rows: Table) {
    rows != map[] && !exists id: nat :: Only(rows, id)
  }

  // ---------- What a message does ----------

  /** The data of one context, in order. */
  ghost function DataFor(ds: seq<Datum>, c: Doc): seq<Doc> {
    if |ds| == 0 then []
    else
      var d := ds[|ds| - 1];
      var before := DataFor(ds[..|ds| - 1], c);
      if d.context == c then before + [d.data] else before
  }

  lemma DataWithOneMore(ds: seq<Datum>, c: Doc, d: Doc, x: Doc)
    ensures DataFor(ds + [Datum(c, d)], x) == if x == c then DataFor(ds, x) + [d] else DataFor(ds, x)
  {
    assert (ds + [Datum(c, d)])[..|ds|] == ds;
  }

  /** The last of the data that is not `d0`. */
  ghost function LastOther(data: seq<Doc>, d0: Doc): Option<Doc> {
    if |data| == 0 then None
    else if data[|data| - 1] != d0 then Some(data[|data| - 1])
    else LastOther(data[..|data| - 1], d0)
  }

  lemma OneMoreOther(data: seq<Doc>, d0: Doc, d: Doc)
    ensures LastOther(data + [d], d0) == if d != d0 then Some(d) else LastOther(data, d0)
  {
    assert (data + [d])[..|data|] == data;
  }

  lemma {:induction false} NoOther(data: seq<Doc>, d0: Doc)
    ensures LastOther(data, d0).None? <==> forall i :: 0 <= i < |data| ==> data[i] == d0
  {
    if |data| > 0 {
      NoOther(data[..|data| - 1], d0);
    }
  }

  /** What the data of a message make of the only row of their context: each is compared with the row as it was
      before the message. */
  ghost function Final(row: Row, c: Doc, data: seq<Doc>, time: int): Row {
    var other := LastOther(data, row.data);
    if other.Some? then Row(time, time, c, other.value) else Row(row.created, time, c, row.data)
  }

  /** One new row for each of the data. */
  ghost predicate InsertedRows(rows: Table, c: Doc, data: seq<Doc>, time: int) {
    exists ids: seq<nat> :: InsertedAs(rows, c, data, time, ids)
  }

  ghost predicate InsertedAs(rows: Table, c: Doc, data: seq<Doc>, time: int, ids: seq<nat>) {
    && |ids| == |data| && (forall i, j :: 0 <= i < j < |ids| ==> ids[i] != ids[j])
    && (forall i :: 0 <= i < |ids| ==> ids[i] in rows && rows[ids[i]] == Row(time, time, c, data[i]))
    && (forall id <- rows :: id in ids)
  }

  /** What the data of one context make of its rows: rows are inserted if there was none; a single row is brought
      up to date, unless its data come too late; of several rows only one of the oldest is left, as it was. */
  ghost predicate Outcome(before: Table, after: Table, c: Doc, data: seq<Doc>, late: bool, time: int) {
    if data == [] then after == before
    else if before == map[] then InsertedRows(after, c, data, time)
    else if Several(before) then exists id: nat :: Oldest(before, id) && OnlyRow(after, id, before[id])
    else if late then after == before
    else exists id: nat :: Only(before, id) && OnlyRow(after, id, Final(before[id], c, data, time))
  }

  /** The table after a message, context by context. */
  ghost predicate Upserted(t0: Table, t1: Table, ds: seq<Datum>, late: iset<Doc>, time: int) {
    forall c {:trigger Rows(t1, c)} :: Outcome(Rows(t0, c), Rows(t1, c), c, DataFor(ds, c), c in late, time)
  }

  // ---------- The simple view: a map from contexts to data ----------

  ghost predicate OneRowEach(t: Table) {
    forall i, j :: SameContext(t, i, j) ==> i == j
  }

  ghost predicate SameContext(t: Table, i: nat, j: nat) {
    i in t && j in t && t[i].context == t[j].context
  }

  ghost function Contexts(t: Table): set<Doc> {
    set i | i in t :: t[i].context
  }

  ghost function RowOf(t: Table, c: Doc): (i: nat)
    requires c in Contexts(t)
    ensures i in t && t[i].context == c
  {
    var i: nat :| i in t && t[i].context == c;
    i
  }

  ghost function Contents(t: Table): map<Doc, Doc>
    requires OneRowEach(t)
  {
    map c | c in Contexts(t) :: t[RowOf(t, c)].data
  }

  /** The same data put into a map one after the other. */
  ghost function LastData(ds: seq<Datum>): map<Doc, Doc> {
    if |ds| == 0 then map[] else LastData(ds[..|ds| - 1])[ds[|ds| - 1].context := ds[|ds| - 1].data]
  }

  lemma {:induction false} LastDataIsLast(ds: seq<Datum>, c: Doc)
    ensures c in LastData(ds) <==> DataFor(ds, c) != []
    ensures c in LastData(ds) ==> LastData(ds)[c] == DataFor(ds, c)[|DataFor(ds, c)| - 1]
  {
    if |ds| > 0 {
      LastDataIsLast(ds[..|ds| - 1], c);
    }
  }

  /** The row of a context in a table with one row each. */
  lemma RowsOfOne(t: Table, c: Doc)
    requires OneRowEach(t)
    ensures !Several(Rows(t, c))
    ensures c !in Contents(t) <==> Rows(t, c) == map[]
    ensures c in Contents(t) <==> exists id: nat :: Only(Rows(t, c), id)
    ensures forall id: nat :: Only(Rows(t, c), id) ==> c in Contents(t) && Contents(t)[c] == t[id].data
  {
    if c in Contexts(t) {
      OnlyOfContext(t, RowOf(t, c));
    } else {
      assert Rows(t, c) == map[];
    }
  }

  lemma OnlyOfContext(t: Table, id: nat)
    requires OneRowEach(t) && id in t
    ensures Only(Rows(t, t[id].context), id)
  {
    var rows := Rows(t, t[id].context);
    forall i: nat ensures i in rows <==> i == id {
      assert SameContext(t, i, id) <==> i in rows;
    }
  }

  lemma OneRowEachIsNoneSeveral(t: Table)
    ensures OneRowEach(t) <==> forall c {:trigger Rows(t, c)} :: !Several(Rows(t, c))
  {
    if OneRowEach(t) {
      forall c: Doc ensures !Several(Rows(t, c)) {
        RowsOfOne(t, c);
      }
    } else {
      var i, j :| SameContext(t, i, j) && i != j;
      var rows := Rows(t, t[i].context);
      TwoAreSeveral(rows, i, j);
    }
  }

  lemma OneInserted(rows: Table, c: Doc, data: seq<Doc>, time: int)
    requires |data| == 1 && InsertedRows(rows, c, data, time)
    ensures exists id: nat :: OnlyRow(rows, id, Row(time, time, c, data[0]))
  {
    var ids :| InsertedAs(rows, c, data, time, ids);
    OnlyEntry(rows, ids[0]);
    assert OnlyRow(rows, ids[0], Row(time, time, c, data[0]));
  }

  lemma OnlyEntry<K, V>(m: map<K, V>, k: K)
    requires k in m && forall x <- m :: x == k
    ensures m == map[k := m[k]]
  {
  }

  lemma InsertedAreSeveral(rows: Table, c: Doc, data: seq<Doc>, time: int)
    requires InsertedRows(rows, c, data, time)
    ensures Several(rows) <==> |data| > 1
  {
    var ids :| InsertedAs(rows, c, data, time, ids);
    if |data| == 0 {
      assert rows == map[];
    } else if |data| == 1 {
      OneInserted(rows, c, data, time);
      var id: nat :| OnlyRow(rows, id, Row(time, time, c, data[0]));
      assert Only(rows, id);
    } else {
      TwoAreSeveral(rows, ids[0], ids[1]);
    }
  }

  lemma TwoAreSeveral(rows: Table, i: nat, j: nat)
    requires i in rows && j in rows && i != j
    ensures Several(rows)
  {
    assert rows.Keys != {i};
  }

  lemma OutcomeIsSeveral(before: Table, after: Table, c: Doc, data: seq<Doc>, late: bool, time: int)
    requires Outcome(before, after, c, data, late, time) && !Several(before)
    ensures Several(after) <==> before == map[] && |data| > 1
  {
    if data != [] && before == map[] {
      InsertedAreSeveral(after, c, data, time);
    } else if data != [] && !late {
      var id: nat :| Only(before, id) && OnlyRow(after, id, Final(before[id], c, data, time));
      assert Only(after, id);
    }
  }

  /** A table with one row for a context has one row for a context after the message exactly when no context that
      it does not have occurs twice in the message. */
  lemma OneRowEachExactlyWhen(t0: Table, t1: Table, ds: seq<Datum>, late: iset<Doc>, time: int)
    requires OneRowEach(t0) && Upserted(t0, t1, ds, late, time)
    ensures OneRowEach(t1) <==> forall c :: c !in Contents(t0) ==> |DataFor(ds, c)| <= 1
  {
    OneRowEachIsNoneSeveral(t1);
    forall c: Doc ensures Several(Rows(t1, c)) <==> c !in Contents(t0) && |DataFor(ds, c)| > 1 {
      RowsOfOne(t0, c);
      OutcomeIsSeveral(Rows(t0, c), Rows(t1, c), c, DataFor(ds, c), c in late, time);
    }
    if c: Doc :| c !in Contents(t0) && |DataFor(ds, c)| > 1 {
      assert Several(Rows(t1, c));
    }
  }

  /** A context that has its only row before has its only row after: dropped data leave it alone, others give it
      the last data that differ from what it had, if there are such. */
  lemma RowAfter(t0: Table, t1: Table, ds: seq<Datum>, late: iset<Doc>, time: int, c: Doc, id: nat)
    requires Upserted(t0, t1, ds, late, time) && Only(Rows(t0, c), id)
    ensures Only(Rows(t1, c), id) && id in t0 && id in t1
    ensures t1[id] == if DataFor(ds, c) == [] || c in late then t0[id] else Final(t0[id], c, DataFor(ds, c), time)
  {
    assert !Several(Rows(t0, c)) && Rows(t0, c) != map[] by {
      assert id in Rows(t0, c);
    }
    assert Outcome(Rows(t0, c), Rows(t1, c), c, DataFor(ds, c), c in late, time);
    if DataFor(ds, c) != [] && c !in late {
      var i: nat :| Only(Rows(t0, c), i) && OnlyRow(Rows(t1, c), i, Final(Rows(t0, c)[i], c, DataFor(ds, c), time));
      assert i in Rows(t0, c) && i == id;
    }
    assert id in Rows(t0, c) && id in Rows(t1, c) && Rows(t1, c)[id] == t1[id];
  }

  /** Data for a row that has not been stamped with the time of the message yet are dropped exactly when they come
      too late. */
  lemma DroppedExactlyWhen(t0: Table, t1: Table, ds: seq<Datum>, late: iset<Doc>, time: int, c: Doc, id: nat)
    requires Upserted(t0, t1, ds, late, time) && Only(Rows(t0, c), id)
    requires DataFor(ds, c) != [] && t0[id].updated != time
    ensures Rows(t1, c) == Rows(t0, c) <==> c in late
  {
    RowAfter(t0, t1, ds, late, time, c, id);
    assert id in Rows(t0, c) && Rows(t0, c)[id] == t0[id] && Rows(t1, c)[id] == t1[id];
    if c in late {
      assert Rows(t1, c) == Rows(t0, c);
    }
  }

  /** The data of a context reach the map as they should: a new context occurs once; of a context with a row the
      last data are the stored ones and no others came before them, or are others and do not come too late. */
  ghost predicate Kept(m: map<Doc, Doc>, c: Doc, data: seq<Doc>, late: bool) {
    if c !in m then |data| <= 1
    else data == [] || if data[|data| - 1] == m[c] then late || LastOther(data, m[c]).None? else !late
  }

  /** What is then stored for a context that has the data `d0`. */
  ghost function DataAfter(d0: Doc, data: seq<Doc>, late: bool): Doc {
    if late || LastOther(data, d0).None? then d0 else LastOther(data, d0).value
  }

  /** What the map `m0` becomes at a context. */
  ghost predicate Becomes(m0: map<Doc, Doc>, after: map<Doc, Doc>, c: Doc, data: seq<Doc>, late: bool) {
    if c in m0 then c in after && after[c] == if data == [] then m0[c] else DataAfter(m0[c], data, late)
    else |data| <= 1 && (c in after <==> |data| == 1) && (c in after ==> after[c] == data[0])
  }

  lemma KeptExactlyWhen(m0: map<Doc, Doc>, after: map<Doc, Doc>, last: map<Doc, Doc>, c: Doc, data: seq<Doc>,
                        late: bool)
    requires (c in last <==> data != []) && (c in last ==> last[c] == data[|data| - 1])
    requires Becomes(m0, after, c, data, late)
    ensures Agree(after, m0, last, c, Kept(m0, c, data, late))
  {
    if c in m0 {
      OtherIsOther(data, m0[c]);
    }
  }

  /** At this context, `after` is `m0 + last` if and only if `kept`. */
  ghost predicate Agree(after: map<Doc, Doc>, m0: map<Doc, Doc>, last: map<Doc, Doc>, c: Doc, kept: bool) {
    && (c in after <==> c in m0 || c in last)
    && (c in last ==> (after[c] == last[c] <==> kept))
    && (c !in last ==> kept)
    && (c in m0 && c !in last ==> after[c] == m0[c])
  }

  lemma MapAt(t0: Table, t1: Table, ds: seq<Datum>, late: iset<Doc>, time: int, c: Doc)
    requires OneRowEach(t0) && OneRowEach(t1) && Upserted(t0, t1, ds, late, time)
    ensures Agree(Contents(t1), Contents(t0), LastData(ds), c, Kept(Contents(t0), c, DataFor(ds, c), c in late))
  {
    LastDataIsLast(ds, c);
    Reached(t0, t1, ds, late, time, c);
    KeptExactlyWhen(Contents(t0), Contents(t1), LastData(ds), c, DataFor(ds, c), c in late);
  }

  lemma Reached(t0: Table, t1: Table, ds: seq<Datum>, late: iset<Doc>, time: int, c: Doc)
    requires OneRowEach(t0) && OneRowEach(t1) && Upserted(t0, t1, ds, late, time)
    ensures Becomes(Contents(t0), Contents(t1), c, DataFor(ds, c), c in late)
  {
    if c in Contents(t0) {
      OldAt(t0, t1, ds, late, time, c);
    } else {
      NewAt(t0, t1, ds, late, time, c);
    }
  }

  lemma OldAt(t0: Table, t1: Table, ds: seq<Datum>, late: iset<Doc>, time: int, c: Doc)
    requires OneRowEach(t0) && OneRowEach(t1) && Upserted(t0, t1, ds, late, time) && c in Contents(t0)
    ensures c in Contents(t1)
    ensures Contents(t1)[c] == if DataFor(ds, c) == [] then Contents(t0)[c]
                               else DataAfter(Contents(t0)[c], DataFor(ds, c), c in late)
  {
    RowsOfOne(t0, c);
    RowsOfOne(t1, c);
    var id: nat :| Only(Rows(t0, c), id);
    RowAfter(t0, t1, ds, late, time, c, id);
  }

  lemma NewAt(t0: Table, t1: Table, ds: seq<Datum>, late: iset<Doc>, time: int, c: Doc)
    requires OneRowEach(t0) && OneRowEach(t1) && Upserted(t0, t1, ds, late, time) && c !in Contents(t0)
    ensures |DataFor(ds, c)| <= 1 && (c in Contents(t1) <==> |DataFor(ds, c)| == 1)
    ensures c in Contents(t1) ==> Contents(t1)[c] == DataFor(ds, c)[0]
  {
    RowsOfOne(t0, c);
    RowsOfOne(t1, c);
    assert Outcome(Rows(t0, c), Rows(t1, c), c, DataFor(ds, c), c in late, time);
    if DataFor(ds, c) != [] {
      InsertedAreSeveral(Rows(t1, c), c, DataFor(ds, c), time);
      OneInserted(Rows(t1, c), c, DataFor(ds, c), time);
      var id: nat :| OnlyRow(Rows(t1, c), id, Row(time, time, c, DataFor(ds, c)[0]));
      assert Only(Rows(t1, c), id) && Rows(t1, c)[id] == t1[id];
    }
  }

  lemma UpdatedExactlyWhen(after: map<Doc, Doc>, m0: map<Doc, Doc>, last: map<Doc, Doc>, kept: iset<Doc>)
    requires forall c :: Agree(after, m0, last, c, c in kept)
    ensures after == m0 + last <==> forall c :: c in kept
  {
    if c: Doc :| c !in kept {
      assert Agree(after, m0, last, c, c in kept);
      assert c in last && c in m0 + last && (m0 + last)[c] == last[c];
    } else {
      forall c: Doc ensures (c in after <==> c in m0 + last) && (c in after ==> after[c] == (m0 + last)[c]) {
        assert c in kept && Agree(after, m0, last, c, c in kept);
      }
    }
  }

  /** When a message updates the map from contexts to data as its items do one after the other. */
  lemma MapUpdatedExactlyWhen(t0: Table, t1: Table, ds: seq<Datum>, late: iset<Doc>, time: int)
    requires OneRowEach(t0) && Upserted(t0, t1, ds, late, time)
    ensures (OneRowEach(t1) && Contents(t1) == Contents(t0) + LastData(ds))
            <==> forall c :: Kept(Contents(t0), c, DataFor(ds, c), c in late)
  {
    OneRowEachExactlyWhen(t0, t1, ds, late, time);
    if OneRowEach(t1) {
      forall c: Doc
        ensures Agree(Contents(t1), Contents(t0), LastData(ds), c, Kept(Contents(t0), c, DataFor(ds, c), c in late))
      {
        MapAt(t0, t1, ds, late, time, c);
      }
      UpdatedExactlyWhen(Contents(t1), Contents(t0), LastData(ds),
                         iset c: Doc | Kept(Contents(t0), c, DataFor(ds, c), c in late));
    } else {
      var c: Doc :| c !in Contents(t0) && |DataFor(ds, c)| > 1;
      assert !Kept(Contents(t0), c, DataFor(ds, c), c in late);
    }
  }

  /** Every row of the message whose data are not dropped is stamped with its time, and was created then just if
      it is new or has new data; other rows are what they were. */
  lemma RowsAreStamped(t0: Table, t1: Table, ds: seq<Datum>, late: iset<Doc>, time: int, id: nat)
    requires OneRowEach(t0) && Upserted(t0, t1, ds, late, time)
    ensures id in t1 && id !in t0 ==>
              t1[id].created == t1[id].updated == time && t1[id].data in DataFor(ds, t1[id].context)
    ensures id in t0 ==> id in t1 && t1[id].context == t0[id].context
    ensures id in t0 && (DataFor(ds, t0[id].context) == [] || t0[id].context in late) ==> t1[id] == t0[id]
    ensures id in t0 && DataFor(ds, t0[id].context) != [] && t0[id].context !in late ==>
              t1[id].updated == time && t1[id].created == if t1[id].data == t0[id].data then t0[id].created else time
  {
    if id in t0 {
      var c := t0[id].context;
      OnlyOfContext(t0, id);
      RowAfter(t0, t1, ds, late, time, c, id);
      assert id in Rows(t1, c);
      OtherIsOther(DataFor(ds, c), t0[id].data);
    } else if id in t1 {
      var c := t1[id].context;
      assert id in Rows(t1, c) && id !in Rows(t0, c);
      NewRow(t0, t1, ds, late, time, c, id);
    }
  }

  lemma NewRow(t0: Table, t1: Table, ds: seq<Datum>, late: iset<Doc>, time: int, c: Doc, id: nat)
    requires OneRowEach(t0) && Upserted(t0, t1, ds, late, time) && id in Rows(t1, c) && id !in Rows(t0, c)
    ensures t1[id].created == t1[id].updated == time && t1[id].data in DataFor(ds, c)
  {
    var data := DataFor(ds, c);
    RowsOfOne(t0, c);
    assert Outcome(Rows(t0, c), Rows(t1, c), c, data, c in late, time);
    if Rows(t0, c) == map[] {
      var ids :| InsertedAs(Rows(t1, c), c, data, time, ids);
      assert id in ids && Rows(t1, c)[id] == t1[id];
    } else {
      assert false by {
        var only: nat :| Only(Rows(t0, c), only);
        RowAfter(t0, t1, ds, late, time, c, only);
      }
    }
  }

  lemma {:induction false} OtherIsOther(data: seq<Doc>, d0: Doc)
    ensures LastOther(data, d0).Some? ==> LastOther(data, d0).value != d0 && LastOther(data, d0).value in data
  {
    if |data| > 0 && data[|data| - 1] == d0 {
      OtherIsOther(data[..|data| - 1], d0);
    }
  }

  // ---------- The three-valued difference ----------

  /** True, False and None of `different`. */
  datatype Difference = Major | Same | Minor

  ghost predicate Conflict(row: Doc, data: Doc) {
    exists k :: k in data && k in row && row[k] != data[k]
  }

  /** different(row, data), whatever the order of the keys */
  method Different(row: Doc, data: Doc, partial: bool) returns (different: Difference)
    ensures different == Major <==> Conflict(row, data) || (!partial && data.Keys < row.Keys)
    ensures different == Minor <==> !Conflict(row, data) && exists k :: k in data && k !in row
    ensures !partial ==> (different == Same <==> row == data)
  {
    different := Same;
    var keys := data.Keys;
    while keys != {}
      invariant keys <= data.Keys && different != Major
      invariant forall k <- data :: k !in keys && k in row ==> row[k] == data[k]
      invariant different == Minor <==> exists k :: k in data && k !in keys && k !in row
      decreases keys
    {
      var k :| k in keys;
      if k in row && row[k] == data[k] {
      } else if k !in row {
        different := Minor;
      } else {
        different := Major;
        return;
      }
      keys := keys - {k};
    }
    if different == Same && !partial {
      SizesTell(data.Keys, row.Keys);
      if |row| > |data| {
        different := Major;
      }
    }
  }

  lemma SizesTell(a: set<string>, b: set<string>)
    requires a <= b
    ensures |a| < |b| <==> a != b
  {
    assert b == a + (b - a);
    if a != b {
      assert |b - a| > 0;
    }
  }
}
