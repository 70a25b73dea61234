/**
 All groups of a driver together, and the turn from columns to rows (lib/ptolemy/poller/workers.py:323-430).
 */
module GathererRows {
  import opened Basics
  import opened Gatherer

  // ---------- From columns to rows ----------

  type Rows = map<Index, map<Field, Option<string>>>

  predicate HasCell(rows: Rows, k: Index, f: Field) {
    k in rows && f in rows[k]
  }

  /** The text "None" stands for no value. */
  function Cell(v: Option<string>): Option<string> {
    if v == Some("None") then None else v
  }

  function CleanNames(defs: seq<Def>): set<Field> {
    set i | 0 <= i < |defs| && defs[i].clean :: defs[i].name
  }

  /** `rows` is the transpose of the columns in `fields`, without empty rows. */
  ghost predicate Transposed(t: Table, fields: set<Field>, rows: Rows) {
    && (forall k, f {:trigger HasCell(rows, k, f)} :: HasCell(rows, k, f) <==> f in fields && f in t && k in t[f])
    && (forall k, f {:trigger HasCell(rows, k, f)} :: HasCell(rows, k, f) ==> rows[k][f] == Cell(t[f][k]))
    && (forall k <- rows :: rows[k] != map[])
  }

  /** A definition that makes the field, and none that cleans it. */
  ghost predicate Shown(defs: seq<Def>, f: Field) {
    && (exists i :: 0 <= i < |defs| && defs[i].name == f)
    && (forall i :: 0 <= i < |defs| && defs[i].name == f ==> !defs[i].clean)
  }

  /** One cell of the rows of a group: it is there when its field is to be shown and the column has the index, and it
      holds the value of the column, or None where the value is the text "None". */
  ghost predicate CellTells(t: Table, defs: seq<Def>, rows: Rows, k: Index, f: Field) {
    && ((k in rows && f in rows[k]) <==> Shown(defs, f) && f in t && k in t[f])
    && (k in rows && f in rows[k] && t[f][k] != Some("None") ==> rows[k][f] == t[f][k])
    && (k in rows && f in rows[k] && t[f][k] == Some("None") ==> rows[k][f] == None)
    && (k in rows ==> exists h :: h in rows[k])
  }

  ghost predicate RowsTell(t: Table, defs: seq<Def>, rows: Rows) {
    forall k, f {:trigger CellTells(t, defs, rows, k, f)} :: CellTells(t, defs, rows, k, f)
  }

  lemma RowsOfGroup(t: Table, defs: seq<Def>, rows: Rows)
    requires Transposed(t, Names(defs) - CleanNames(defs), rows)
    ensures RowsTell(t, defs, rows)
  {
    forall k, f ensures CellTells(t, defs, rows, k, f) {
      CellOfGroup(t, defs, rows, k, f);
    }
  }

  lemma CellOfGroup(t: Table, defs: seq<Def>, rows: Rows, k: Index, f: Field)
    requires Transposed(t, Names(defs) - CleanNames(defs), rows)
    ensures CellTells(t, defs, rows, k, f)
  {
    assert HasCell(rows, k, f) <==> k in rows && f in rows[k];
    assert f in CleanNames(defs) <==> exists i :: 0 <= i < |defs| && defs[i].clean && defs[i].name == f;
    assert f in Names(defs) <==> exists i :: 0 <= i < |defs| && defs[i].name == f;
    if k in rows {
      SomeCell(rows[k]);
    }
  }

  lemma SomeCell(row: map<Field, Option<string>>)
    requires row != map[]
    ensures exists f :: f in row
  {
    assert row.Keys != {};
  }

  /** One column of the transpose. */
  method AddColumn(t: Table, ghost fields: set<Field>, rows: Rows, f: Field) returns (r: Rows)
    requires Transposed(t, fields, rows) && f in t && f !in fields
    ensures Transposed(t, fields + {f}, r)
  {
    r := rows;
    var keys := t[f].Keys;
    while keys != {}
      invariant keys <= t[f].Keys
      invariant forall k, g {:trigger HasCell(r, k, g)} :: HasCell(r, k, g) <==>
                  (g in fields && g in t && k in t[g]) || (g == f && k in t[f] && k !in keys)
      invariant forall k, g {:trigger HasCell(r, k, g)} :: HasCell(r, k, g) ==> r[k][g] == Cell(t[g][k])
      invariant forall k <- r :: r[k] != map[]
      decreases keys
    {
      var k :| k in keys;
      var v := t[f][k];
      ghost var was := r;
      if k !in r {
        r := r[k := map[]];
      }
      if v == Some("None") {
        v := None;
      }
      r := r[k := r[k][f := v]];
      assert f in r[k];
      forall k2, g
        ensures HasCell(r, k2, g) <==> HasCell(was, k2, g) || (k2 == k && g == f)
        ensures HasCell(r, k2, g) && !(k2 == k && g == f) ==> r[k2][g] == was[k2][g]
      {
      }
      keys := keys - {k};
    }
  }

  /** Removes a field from every row, and rows that become empty. */
  method RemoveField(ghost t: Table, ghost fields: set<Field>, rows: Rows, f: Field) returns (r: Rows)
    requires Transposed(t, fields, rows)
    ensures Transposed(t, fields - {f}, r)
  {
    r := rows;
    var keys := rows.Keys;
    while keys != {}
      invariant keys <= r.Keys <= rows.Keys
      invariant forall k, g {:trigger HasCell(r, k, g)} ::
                  HasCell(r, k, g) <==> HasCell(rows, k, g) && (g != f || k in keys)
      invariant forall k, g {:trigger HasCell(r, k, g)} :: HasCell(r, k, g) ==> r[k][g] == rows[k][g]
      invariant forall k <- r :: r[k] != map[]
      decreases keys
    {
      var k :| k in keys;
      ghost var was := r;
      if f in r[k] {
        r := r[k := r[k] - {f}];
      }
      forall k2, g
        ensures HasCell(r, k2, g) <==> HasCell(was, k2, g) && !(k2 == k && g == f)
        ensures HasCell(r, k2, g) ==> r[k2][g] == was[k2][g]
      {
      }
      if r[k] == map[] {
        ghost var full := r;
        r := r - {k};
        forall k2, g ensures HasCell(r, k2, g) <==> HasCell(full, k2, g) {
        }
      }
      keys := keys - {k};
    }
    forall k, g ensures HasCell(r, k, g) <==> HasCell(rows, k, g) && g != f {
    }
  }

  /** The key-major result of one group: the transpose of its columns, without the columns marked to be
      cleaned and without rows that are empty once those are gone. */
  method RowsOf(t: Table, defs: seq<Def>) returns (rows: Rows)
    ensures Transposed(t, Names(defs) - CleanNames(defs), rows)
    ensures RowsTell(t, defs, rows)
  {
    rows := map[];
    var fields := t.Keys;
    ghost var done: set<Field> := {};
    while fields != {}
      invariant fields <= t.Keys && done == (t.Keys - fields) * Names(defs)
      invariant Transposed(t, done, rows)
      decreases fields
    {
      var f :| f in fields;
      if f in Names(defs) {
        rows := AddColumn(t, done, rows, f);
        done := done + {f};
      }
      fields := fields - {f};
    }
    SameTranspose(t, done, Names(defs), rows);
    ghost var left := Names(defs);
    for i := 0 to |defs|
      invariant left == Names(defs) - (set j | 0 <= j < i && defs[j].clean :: defs[j].name)
      invariant Transposed(t, left, rows)
    {
      if defs[i].clean {
        rows := RemoveField(t, left, rows, defs[i].name);
        left := left - {defs[i].name};
      }
    }
    assert left == Names(defs) - CleanNames(defs);
    RowsOfGroup(t, defs, rows);
  }

  lemma SameTranspose(t: Table, a: set<Field>, b: set<Field>, rows: Rows)
    requires Transposed(t, a, rows) && a * t.Keys == b * t.Keys
    ensures Transposed(t, b, rows)
  {
    forall k, f ensures HasCell(rows, k, f) <==> f in b && f in t && k in t[f] {
      if f in t {
        assert f in a * t.Keys <==> f in b * t.Keys;
      }
    }
  }

  // ---------- All groups ----------

  /** The columns that the first `n` groups use up. */
  function Used(groups: seq<Group>, n: nat): set<Field>
    requires n <= |groups|
  {
    if n == 0 then {} else Used(groups, n - 1) + Spent(groups[n - 1].defs)
  }

  function AllNames(groups: seq<Group>, n: nat): set<Field>
    requires n <= |groups|
  {
    if n == 0 then {} else AllNames(groups, n - 1) + Names(groups[n - 1].defs)
  }

  /** The simple form: all definitions of all groups, each reading the collected columns, nothing ever
      taken away. */
  function Simple(t0: Table, groups: seq<Group>, n: nat): Result<Table, Error>
    requires n <= |groups|
  {
    if n == 0 then Ok(t0)
    else
      var before := Simple(t0, groups, n - 1);
      var defs := groups[n - 1].defs;
      if before.Err? then before
      else Evaluate(t0, before.value, defs, |defs|)
  }

  predicate IsDef(groups: seq<Group>, g: int, i: int) {
    0 <= g < |groups| && 0 <= i < |groups[g].defs|
  }

  /** A field is named like a column only if it is made of that column, and nobody wants that later or in another
      group. */
  ghost predicate Separate(groups: seq<Group>) {
    forall g, i, h, j {:trigger IsDef(groups, g, i), IsDef(groups, h, j)} ::
      IsDef(groups, g, i) && IsDef(groups, h, j) && groups[g].defs[i].name == groups[h].defs[j].ref ==>
        g == h && groups[g].defs[i].ref == groups[g].defs[i].name && j <= i
  }

  lemma SeparateGroup(groups: seq<Group>, g: nat)
    requires Separate(groups) && g < |groups|
    ensures KeepsApart(groups[g].defs)
  {
    var defs := groups[g].defs;
    forall i, j | 0 <= i < |defs| && 0 <= j < |defs| && defs[i].name == defs[j].ref
      ensures defs[i].ref == defs[i].name && j <= i
    {
      assert IsDef(groups, g, i) && IsDef(groups, g, j);
    }
  }

  lemma {:induction false} NamedWhere(groups: seq<Group>, n: nat, f: Field)
    requires n <= |groups|
    ensures f in AllNames(groups, n) <==> exists g, i :: IsDef(groups, g, i) && g < n && groups[g].defs[i].name == f
  {
    if n > 0 {
      NamedWhere(groups, n - 1, f);
      var defs := groups[n - 1].defs;
      if i :| 0 <= i < |defs| && defs[i].name == f {
        assert IsDef(groups, n - 1, i) && f in Names(defs);
      }
    }
  }

  lemma {:induction false} UsedWhere(groups: seq<Group>, n: nat, f: Field)
    requires n <= |groups| && f in Used(groups, n)
    ensures exists g, i :: IsDef(groups, g, i) && g < n && groups[g].defs[i].ref == f && f in Spent(groups[g].defs)
  {
    if f in Spent(groups[n - 1].defs) {
      var i :| 0 <= i < |groups[n - 1].defs| && groups[n - 1].defs[i].ref == f;
      assert IsDef(groups, n - 1, i);
    } else {
      UsedWhere(groups, n - 1, f);
    }
  }

  /** No field is named like a column that is used up. */
  lemma NamesStay(groups: seq<Group>, n: nat)
    requires Separate(groups) && n <= |groups|
    ensures AllNames(groups, |groups|) !! Used(groups, n)
  {
    forall f | f in Used(groups, n) ensures f !in AllNames(groups, |groups|) {
      UsedWhere(groups, n, f);
      NamedWhere(groups, |groups|, f);
      var h, j :| IsDef(groups, h, j) && h < n && groups[h].defs[j].ref == f && f in Spent(groups[h].defs);
      forall g, i | IsDef(groups, g, i) ensures groups[g].defs[i].name != f {
        if g == h {
          assert groups[h].defs[i].name in Names(groups[h].defs);
        }
      }
    }
  }

  /** No earlier group makes a field that is named like a column of this one. */
  lemma EarlierNamesDiffer(groups: seq<Group>, g: nat, f: Field)
    requires Separate(groups) && g < |groups| && f in Refs(groups[g].defs)
    ensures f !in AllNames(groups, g)
  {
    NamedWhere(groups, g, f);
    var j :| 0 <= j < |groups[g].defs| && groups[g].defs[j].ref == f;
    assert IsDef(groups, g, j);
  }

  /** Nobody wants a column of another group, and fields are named like columns only as above. */
  ghost predicate Independent(groups: seq<Group>) {
    && (forall i, j | 0 <= i < j < |groups| :: Refs(groups[i].defs) !! Refs(groups[j].defs))
    && Separate(groups)
  }

  /** Columns shared within a group were collected. */
  ghost predicate SharedPresent(t0: Table, groups: seq<Group>, n: nat)
    requires n <= |groups|
  {
    forall i | 0 <= i < n :: SharedRefsPresent(t0, groups[i].defs)
  }

  lemma {:induction false} GroupInAll(groups: seq<Group>, i: nat, n: nat)
    requires i < n <= |groups|
    ensures Spent(groups[i].defs) <= Used(groups, n) && Names(groups[i].defs) <= AllNames(groups, n)
    decreases n
  {
    if i < n - 1 {
      GroupInAll(groups, i, n - 1);
    }
  }

  lemma {:induction false} LaterRefsAreNew(groups: seq<Group>, i: nat, n: nat)
    requires Independent(groups) && i <= n < |groups|
    ensures Used(groups, i) !! Refs(groups[n].defs)
  {
    if i > 0 {
      LaterRefsAreNew(groups, i - 1, n);
    }
  }

  /** Evaluating a group on what is left of a table is evaluating it on the whole table, but for the columns that
      are gone. */
  lemma {:induction false} EvaluateWithout(t0: Table, s: Table, used: set<Field>, defs: seq<Def>, i: nat)
    requires i <= |defs| && used !! Names(defs)
    requires forall f <- Refs(defs) - used :: (f in t0 <==> f in s) && (f in t0 ==> t0[f] == s[f])
    ensures var a, b := Evaluate(s - used, s - used, defs, i), Evaluate(t0 - used, s, defs, i);
            && (a.Err? <==> b.Err?)
            && (a.Ok? ==> a.value == b.value - used)
  {
    if i > 0 {
      EvaluateWithout(t0, s, used, defs, i - 1);
      var d := defs[i - 1];
      assert d.ref in Refs(defs) && d.name in Names(defs);
      assert Tallies(s - used, d.ref) <==> Tallies(t0 - used, d.ref);
    }
  }

  lemma LeftoverIsMinus(t: Table, defs: seq<Def>)
    ensures Leftover(t, defs, |defs|) == t - Spent(defs)
  {
  }

  /** The groups one after the other, each on the table the one before has left. */
  function Sequential(t0: Table, groups: seq<Group>, n: nat): Result<Table, Error>
    requires n <= |groups|
  {
    if n == 0 then Ok(t0)
    else
      var before := Sequential(t0, groups, n - 1);
      var defs := groups[n - 1].defs;
      if before.Err? then before
      else if !SharedRefsPresent(before.value, defs) then Err(RefNotFound(groups[n - 1].name))
      else
        var made := Evaluate(before.value, before.value, defs, |defs|);
        if made.Err? then made else Ok(Leftover(made.value, defs, |defs|))
  }

  /** What a later group finds of a column that is no field name is the collected column, or nothing. */
  lemma {:induction false} SequentialKeeps(t0: Table, groups: seq<Group>, n: nat, f: Field)
    requires n <= |groups| && f !in AllNames(groups, n) && Sequential(t0, groups, n).Ok?
    ensures var t := Sequential(t0, groups, n).value;
            (f in t <==> f in t0 && f !in Used(groups, n)) && (f in t ==> t[f] == t0[f])
  {
    if n > 0 {
      SequentialKeeps(t0, groups, n - 1, f);
      var defs := groups[n - 1].defs;
      var t := Sequential(t0, groups, n - 1).value;
      assert defs[..|defs|] == defs;
      RefsStay(t, t, defs, |defs|, f);
      LeftoverIsMinus(Evaluate(t, t, defs, |defs|).value, defs);
    }
  }

  // ---------- What the groups see ----------

  /** The collected columns that no earlier group has used up. */
  function Unused(t0: Table, groups: seq<Group>, g: nat): Table
    requires g <= |groups|
  {
    t0 - Used(groups, g)
  }

  /** The simple form again, but every group reads only the columns that no earlier group has used up. */
  function Seen(t0: Table, groups: seq<Group>, n: nat): Result<Table, Error>
    requires n <= |groups|
  {
    if n == 0 then Ok(t0)
    else
      var before := Seen(t0, groups, n - 1);
      var defs := groups[n - 1].defs;
      if before.Err? then before
      else Evaluate(Unused(t0, groups, n - 1), before.value, defs, |defs|)
  }

  lemma {:induction false} SeenKeeps(t0: Table, groups: seq<Group>, n: nat, f: Field)
    requires n <= |groups| && f !in AllNames(groups, n) && Seen(t0, groups, n).Ok?
    ensures f in Seen(t0, groups, n).value <==> f in t0
    ensures f in t0 ==> Seen(t0, groups, n).value[f] == t0[f]
  {
    if n > 0 {
      SeenKeeps(t0, groups, n - 1, f);
      var defs := groups[n - 1].defs;
      assert defs[..|defs|] == defs;
      RefsStay(Unused(t0, groups, n - 1), Seen(t0, groups, n - 1).value, defs, |defs|, f);
    }
  }

  /** One group on what the groups before have left. */
  lemma OneGroup(t0: Table, groups: seq<Group>, n: nat)
    requires n < |groups| && Separate(groups) && Seen(t0, groups, n).Ok?
    ensures var t := Seen(t0, groups, n).value - Used(groups, n);
            var defs := groups[n].defs;
            var made := Evaluate(t, t, defs, |defs|);
            && (SharedRefsPresent(t, defs) <==> SharedRefsPresent(Unused(t0, groups, n), defs))
            && (made.Err? <==> Seen(t0, groups, n + 1).Err?)
            && (made.Ok? ==> Leftover(made.value, defs, |defs|)
                             == Seen(t0, groups, n + 1).value - Used(groups, n + 1))
  {
    var s, used, defs := Seen(t0, groups, n).value, Used(groups, n), groups[n].defs;
    GroupInAll(groups, n, |groups|);
    NamesStay(groups, n);
    forall f | f in Refs(defs) ensures (f in t0 <==> f in s) && (f in t0 ==> t0[f] == s[f]) {
      EarlierNamesDiffer(groups, n, f);
      SeenKeeps(t0, groups, n, f);
    }
    assert used !! Names(defs);
    EvaluateWithout(t0, s, used, defs, |defs|);
    forall i | 0 <= i < |defs| ensures defs[i].ref in s - used <==> defs[i].ref in t0 - used {
      assert defs[i].ref in Refs(defs);
    }
    var made := Evaluate(s - used, s - used, defs, |defs|);
    if made.Ok? {
      LeftoverIsMinus(made.value, defs);
    }
  }

  /** Columns shared within a group are there when its turn comes. */
  ghost predicate SharedUnused(t0: Table, groups: seq<Group>, n: nat)
    requires n <= |groups|
  {
    forall i {:trigger SharesUnused(t0, groups, i)} | 0 <= i < n :: SharesUnused(t0, groups, i)
  }

  ghost predicate SharesUnused(t0: Table, groups: seq<Group>, g: nat)
    requires g < |groups|
  {
    SharedRefsPresent(Unused(t0, groups, g), groups[g].defs)
  }

  lemma SharedUnusedStep(t0: Table, groups: seq<Group>, n: nat)
    requires 0 < n <= |groups|
    ensures SharedUnused(t0, groups, n) <==>
              (SharedUnused(t0, groups, n - 1) && SharedRefsPresent(Unused(t0, groups, n - 1), groups[n - 1].defs))
  {
    assert SharesUnused(t0, groups, n - 1) <==> SharedRefsPresent(Unused(t0, groups, n - 1), groups[n - 1].defs);
  }

  /** Processing refines the simple form on unused columns: the groups one after the other make what all
      definitions make of the columns that are unused when their turn comes, and leave none of the columns
      they used. */
  lemma {:induction false} SequentialIsSeen(t0: Table, groups: seq<Group>, n: nat)
    requires n <= |groups| && Separate(groups)
    ensures Sequential(t0, groups, n).Err? <==> Seen(t0, groups, n).Err? || !SharedUnused(t0, groups, n)
    ensures Sequential(t0, groups, n).Ok? ==>
              Sequential(t0, groups, n).value == Seen(t0, groups, n).value - Used(groups, n)
  {
    if n > 0 {
      SequentialIsSeen(t0, groups, n - 1);
      OneMoreSeen(t0, groups, n - 1);
    }
  }

  lemma OneMoreSeen(t0: Table, groups: seq<Group>, n: nat)
    requires n < |groups| && Separate(groups)
    requires Sequential(t0, groups, n).Err? <==> Seen(t0, groups, n).Err? || !SharedUnused(t0, groups, n)
    requires Sequential(t0, groups, n).Ok? ==>
               Sequential(t0, groups, n).value == Seen(t0, groups, n).value - Used(groups, n)
    ensures Sequential(t0, groups, n + 1).Err? <==> Seen(t0, groups, n + 1).Err? || !SharedUnused(t0, groups, n + 1)
    ensures Sequential(t0, groups, n + 1).Ok? ==>
              Sequential(t0, groups, n + 1).value == Seen(t0, groups, n + 1).value - Used(groups, n + 1)
  {
    SharedUnusedStep(t0, groups, n + 1);
    if Sequential(t0, groups, n).Ok? {
      OneGroup(t0, groups, n);
    }
  }

  // ---------- When groups do not share columns ----------

  lemma SharedPresentStep(t0: Table, groups: seq<Group>, n: nat)
    requires 0 < n <= |groups|
    ensures SharedPresent(t0, groups, n) <==>
              (SharedPresent(t0, groups, n - 1) && SharedRefsPresent(t0, groups[n - 1].defs))
  {
  }

  /** No group misses anything when no column is wanted by two groups. */
  lemma {:induction false} SeenIsSimple(t0: Table, groups: seq<Group>, n: nat)
    requires n <= |groups| && Independent(groups)
    ensures Seen(t0, groups, n) == Simple(t0, groups, n)
    ensures SharedUnused(t0, groups, n) <==> SharedPresent(t0, groups, n)
  {
    if n > 0 {
      SeenIsSimple(t0, groups, n - 1);
      var defs, used := groups[n - 1].defs, Used(groups, n - 1);
      LaterRefsAreNew(groups, n - 1, n - 1);
      forall i | 0 <= i < |defs| ensures defs[i].ref !in used {
        assert defs[i].ref in Refs(defs);
      }
      if Simple(t0, groups, n - 1).Ok? {
        EvaluateBlind(t0, Simple(t0, groups, n - 1).value, used, defs, |defs|);
      }
      SharedUnusedStep(t0, groups, n);
      SharedPresentStep(t0, groups, n);
      assert SharedRefsPresent(Unused(t0, groups, n - 1), defs) <==> SharedRefsPresent(t0, defs);
    }
  }

  /** The evaluator does not see columns that no definition wants, or that were not there. */
  lemma {:induction false} EvaluateBlind(t0: Table, t: Table, used: set<Field>, defs: seq<Def>, i: nat)
    requires i <= |defs| && forall j :: 0 <= j < |defs| ==> defs[j].ref !in used || defs[j].ref !in t0
    ensures Evaluate(t0 - used, t, defs, i) == Evaluate(t0, t, defs, i)
  {
    if i > 0 {
      EvaluateBlind(t0, t, used, defs, i - 1);
      var d := defs[i - 1];
      assert d.ref in t0 <==> d.ref in t0 - used;
      assert Tallies(t0 - used, d.ref) <==> Tallies(t0, d.ref);
    }
  }

  /** Processing refines the simple form: when no column is wanted by two groups, the groups one after the
      other make what all definitions make of the untouched data, and leave none of the columns they used. */
  lemma SequentialIsSimple(t0: Table, groups: seq<Group>, n: nat)
    requires n <= |groups| && Independent(groups)
    ensures Sequential(t0, groups, n).Err? <==> Simple(t0, groups, n).Err? || !SharedPresent(t0, groups, n)
    ensures Sequential(t0, groups, n).Ok? ==>
              Sequential(t0, groups, n).value == Simple(t0, groups, n).value - Used(groups, n)
  {
    SequentialIsSeen(t0, groups, n);
    SeenIsSimple(t0, groups, n);
  }

  // ---------- When they do ----------

  /** A definition ends the processing with an error: it is required and its column is used up or has no value,
      or its column is shared within the group and is used up or was not collected. */
  predicate Stumbles(t0: Table, groups: seq<Group>, g: nat, i: nat)
    requires g < |groups| && i < |groups[g].defs|
  {
    var d, used := groups[g].defs[i], Used(groups, g);
    || (d.required && (d.ref in used || !Tallies(t0, d.ref)))
    || (UsesFrom(groups[g].defs, 0, d.ref) > 1 && (d.ref in used || d.ref !in t0))
  }

  ghost predicate GroupStumbles(t0: Table, groups: seq<Group>, g: nat)
    requires g < |groups|
  {
    exists i {:trigger Stumbles(t0, groups, g, i)} :: 0 <= i < |groups[g].defs| && Stumbles(t0, groups, g, i)
  }

  predicate Lacks(t0: Table, d: Def) {
    d.required && !Tallies(t0, d.ref)
  }

  lemma {:induction false} EvaluateFailsExactlyWhen(t0: Table, t: Table, defs: seq<Def>, i: nat)
    requires i <= |defs|
    ensures Evaluate(t0, t, defs, i).Err? <==> exists j :: 0 <= j < i && Lacks(t0, defs[j])
  {
    if i > 0 {
      EvaluateFailsExactlyWhen(t0, t, defs, i - 1);
      assert Lacks(t0, defs[i - 1]) <==> defs[i - 1].required && !Tallies(t0, defs[i - 1].ref);
    }
  }

  lemma GroupFailsExactlyWhen(t0: Table, groups: seq<Group>, g: nat, t: Table)
    requires g < |groups|
    ensures (!SharedRefsPresent(Unused(t0, groups, g), groups[g].defs)
              || Evaluate(Unused(t0, groups, g), t, groups[g].defs, |groups[g].defs|).Err?)
            <==> GroupStumbles(t0, groups, g)
  {
    var seen, defs := Unused(t0, groups, g), groups[g].defs;
    EvaluateFailsExactlyWhen(seen, t, defs, |defs|);
    forall i | 0 <= i < |defs|
      ensures Stumbles(t0, groups, g, i) <==>
                Lacks(seen, defs[i]) || (UsesFrom(defs, 0, defs[i].ref) > 1 && defs[i].ref !in seen)
    {
      assert Tallies(seen, defs[i].ref) <==> Tallies(t0, defs[i].ref) && defs[i].ref !in Used(groups, g);
    }
    if j :| 0 <= j < |defs| && Lacks(seen, defs[j]) {
      assert Stumbles(t0, groups, g, j);
    }
    if j :| 0 <= j < |defs| && UsesFrom(defs, 0, defs[j].ref) > 1 && defs[j].ref !in seen {
      assert Stumbles(t0, groups, g, j);
    }
  }

  lemma OneMoreFails(t0: Table, groups: seq<Group>, n: nat)
    requires n < |groups| && Separate(groups) && Sequential(t0, groups, n).Ok?
    ensures Sequential(t0, groups, n + 1).Err? <==> GroupStumbles(t0, groups, n)
  {
    SequentialIsSeen(t0, groups, n);
    SequentialIsSeen(t0, groups, n + 1);
    SharedUnusedStep(t0, groups, n + 1);
    GroupFailsExactlyWhen(t0, groups, n, Seen(t0, groups, n).value);
  }

  /** The exact condition: the processing fails if and only if some definition of some group stumbles. */
  lemma {:induction false} FailsExactlyWhen(t0: Table, groups: seq<Group>, n: nat)
    requires n <= |groups| && Separate(groups)
    ensures Sequential(t0, groups, n).Err? <==> exists g :: 0 <= g < n && GroupStumbles(t0, groups, g)
  {
    if n > 0 {
      FailsExactlyWhen(t0, groups, n - 1);
      if Sequential(t0, groups, n - 1).Ok? {
        OneMoreFails(t0, groups, n - 1);
      }
    }
  }

  /** Every field is made by one definition, and nothing was collected under its name but its own column. */
  ghost predicate FreshNames(t0: Table, groups: seq<Group>) {
    && (forall g, i {:trigger IsDef(groups, g, i)} ::
          IsDef(groups, g, i) && groups[g].defs[i].name in t0 ==> groups[g].defs[i].ref == groups[g].defs[i].name)
    && (forall g, h, i, j {:trigger IsDef(groups, g, i), IsDef(groups, h, j)} ::
          IsDef(groups, g, i) && IsDef(groups, h, j) && groups[g].defs[i].name == groups[h].defs[j].name ==>
            g == h && i == j)
  }

  /** The definition wants a collected column that an earlier group has used up. */
  predicate Robbed(t0: Table, groups: seq<Group>, g: nat, i: nat)
    requires g < |groups| && i < |groups[g].defs|
  {
    groups[g].defs[i].ref in t0 && groups[g].defs[i].ref in Used(groups, g)
  }

  lemma {:induction false} EvaluateMakes(t0: Table, t: Table, defs: seq<Def>, i: nat, j: nat)
    requires i <= |defs| && j < |defs| && Evaluate(t0, t, defs, i).Ok?
    requires defs[j].name in t ==> defs[j].ref in t0
    requires forall k :: 0 <= k < |defs| && k != j ==> defs[k].name != defs[j].name
    ensures var v, f := Evaluate(t0, t, defs, i).value, defs[j].name;
            if j < i then
              (f in v <==> defs[j].ref in t0) && (f in v ==> v[f] == defs[j].shape(t0[defs[j].ref]))
            else
              (f in v <==> f in t) && (f in v ==> v[f] == t[f])
  {
    if i > 0 {
      EvaluateMakes(t0, t, defs, i - 1, j);
    }
  }

  lemma NameApart(t0: Table, groups: seq<Group>, g: nat, i: nat, h: nat)
    requires FreshNames(t0, groups) && g < |groups| && i < |groups[g].defs| && h < |groups|
    ensures h != g ==> groups[g].defs[i].name !in Names(groups[h].defs)
    ensures forall k :: 0 <= k < |groups[g].defs| && k != i ==> groups[g].defs[k].name != groups[g].defs[i].name
    ensures groups[g].defs[i].name in t0 ==> groups[g].defs[i].ref == groups[g].defs[i].name
  {
    assert IsDef(groups, g, i);
    forall k | 0 <= k < |groups[h].defs| && groups[h].defs[k].name == groups[g].defs[i].name ensures g == h && k == i {
      assert IsDef(groups, h, k);
    }
    forall k | 0 <= k < |groups[g].defs| && groups[g].defs[k].name == groups[g].defs[i].name ensures k == i {
      assert IsDef(groups, g, k);
    }
  }

  /** A field that is made, or that is still what was collected under its name. */
  ghost predicate Makes(t0: Table, v: Table, d: Def, made: bool, seen: bool) {
    if made then (d.name in v <==> d.ref in t0 && seen) && (d.name in v ==> v[d.name] == d.shape(t0[d.ref]))
    else (d.name in v <==> d.name in t0) && (d.name in v ==> v[d.name] == t0[d.name])
  }

  /** In the simple form a field is there exactly when its column was collected. */
  lemma {:induction false} SimpleMakes(t0: Table, groups: seq<Group>, n: nat, g: nat, i: nat)
    requires FreshNames(t0, groups)
    requires n <= |groups| && g < |groups| && i < |groups[g].defs| && Simple(t0, groups, n).Ok?
    ensures Makes(t0, Simple(t0, groups, n).value, groups[g].defs[i], g < n, true)
  {
    NameApart(t0, groups, g, i, g);
    if n > 0 {
      SimpleMakes(t0, groups, n - 1, g, i);
      NameApart(t0, groups, g, i, n - 1);
      var t, defs := Simple(t0, groups, n - 1).value, groups[n - 1].defs;
      if n - 1 == g {
        EvaluateMakes(t0, t, defs, |defs|, i);
      } else {
        assert defs[..|defs|] == defs;
        RefsStay(t0, t, defs, |defs|, groups[g].defs[i].name);
      }
    }
  }

  /** In what the groups see a field is there exactly when its column was collected and no earlier group has used
      it: an optional definition whose column is used up silently loses its field. */
  lemma {:induction false} SeenMakes(t0: Table, groups: seq<Group>, n: nat, g: nat, i: nat)
    requires FreshNames(t0, groups) && Separate(groups)
    requires n <= |groups| && g < |groups| && i < |groups[g].defs| && Seen(t0, groups, n).Ok?
    ensures var d := groups[g].defs[i];
            Makes(t0, Seen(t0, groups, n).value, d, g < n, d.ref !in Used(groups, g))
  {
    NameApart(t0, groups, g, i, g);
    NamesStay(groups, g);
    GroupInAll(groups, g, |groups|);
    assert groups[g].defs[i].name in Names(groups[g].defs);
    if n > 0 {
      SeenMakes(t0, groups, n - 1, g, i);
      NameApart(t0, groups, g, i, n - 1);
      var t, defs := Seen(t0, groups, n - 1).value, groups[n - 1].defs;
      if n - 1 == g {
        EvaluateMakes(Unused(t0, groups, g), t, defs, |defs|, i);
      } else {
        assert defs[..|defs|] == defs;
        RefsStay(Unused(t0, groups, n - 1), t, defs, |defs|, groups[g].defs[i].name);
      }
    }
  }

  /** The definition keeps the processing from being what all definitions together make. */
  predicate Spoils(t0: Table, groups: seq<Group>, g: nat, i: nat)
    requires g < |groups| && i < |groups[g].defs|
  {
    var d := groups[g].defs[i];
    Robbed(t0, groups, g, i) || (UsesFrom(groups[g].defs, 0, d.ref) > 1 && (d.ref in Used(groups, g) || d.ref !in t0))
  }

  ghost predicate NothingSpoils(t0: Table, groups: seq<Group>, n: nat)
    requires n <= |groups|
  {
    forall g, i {:trigger Spoils(t0, groups, g, i)} ::
      0 <= g < n && 0 <= i < |groups[g].defs| ==> !Spoils(t0, groups, g, i)
  }

  lemma {:induction false} SimpleLacksNothing(t0: Table, groups: seq<Group>, n: nat, g: nat, i: nat)
    requires g < n <= |groups| && i < |groups[g].defs| && Simple(t0, groups, n).Ok?
    ensures !Lacks(t0, groups[g].defs[i])
  {
    EvaluateFailsExactlyWhen(t0, Simple(t0, groups, n - 1).value, groups[n - 1].defs, |groups[n - 1].defs|);
    if g < n - 1 {
      SimpleLacksNothing(t0, groups, n - 1, g, i);
    }
  }

  lemma {:induction false} UnspoiltSeenIsSimple(t0: Table, groups: seq<Group>, n: nat)
    requires n <= |groups| && NothingSpoils(t0, groups, n)
    ensures Seen(t0, groups, n) == Simple(t0, groups, n)
  {
    if n > 0 {
      UnspoiltSeenIsSimple(t0, groups, n - 1);
      var defs := groups[n - 1].defs;
      forall i | 0 <= i < |defs| ensures defs[i].ref !in Used(groups, n - 1) || defs[i].ref !in t0 {
        assert !Spoils(t0, groups, n - 1, i);
      }
      if Simple(t0, groups, n - 1).Ok? {
        EvaluateBlind(t0, Simple(t0, groups, n - 1).value, Used(groups, n - 1), defs, |defs|);
      }
    }
  }

  lemma UnspoiltSucceeds(t0: Table, groups: seq<Group>, n: nat)
    requires n <= |groups| && Separate(groups)
    requires Simple(t0, groups, n).Ok? && NothingSpoils(t0, groups, n)
    ensures Sequential(t0, groups, n).Ok?
    ensures Sequential(t0, groups, n).value == Simple(t0, groups, n).value - Used(groups, n)
  {
    forall g, i | 0 <= g < n && 0 <= i < |groups[g].defs| ensures !Stumbles(t0, groups, g, i) {
      assert !Spoils(t0, groups, g, i);
      SimpleLacksNothing(t0, groups, n, g, i);
    }
    FailsExactlyWhen(t0, groups, n);
    SequentialIsSeen(t0, groups, n);
    UnspoiltSeenIsSimple(t0, groups, n);
  }

  /** The exact condition for the refinement, when every field is made by one definition: the processing makes what
      all definitions together make, if and only if no definition wants a collected column that an earlier group
      has used up, and columns shared within a group are there. */
  lemma RefinesExactlyWhen(t0: Table, groups: seq<Group>, n: nat)
    requires n <= |groups| && Separate(groups) && FreshNames(t0, groups)
    requires Simple(t0, groups, n).Ok?
    ensures Sequential(t0, groups, n) == Ok(Simple(t0, groups, n).value - Used(groups, n))
            <==> NothingSpoils(t0, groups, n)
  {
    if NothingSpoils(t0, groups, n) {
      UnspoiltSucceeds(t0, groups, n);
    } else {
      var g: nat, i: nat :| g < n && i < |groups[g].defs| && Spoils(t0, groups, g, i);
      SpoiltDiffers(t0, groups, n, g, i);
    }
  }

  lemma SpoiltDiffers(t0: Table, groups: seq<Group>, n: nat, g: nat, i: nat)
    requires n <= |groups| && Separate(groups) && FreshNames(t0, groups)
    requires Simple(t0, groups, n).Ok? && g < n && i < |groups[g].defs| && Spoils(t0, groups, g, i)
    ensures Sequential(t0, groups, n) != Ok(Simple(t0, groups, n).value - Used(groups, n))
  {
    FailsExactlyWhen(t0, groups, n);
    SequentialIsSeen(t0, groups, n);
    if Stumbles(t0, groups, g, i) {
      assert GroupStumbles(t0, groups, g);
    } else if Sequential(t0, groups, n).Ok? {
      var f := groups[g].defs[i].name;
      SimpleMakes(t0, groups, n, g, i);
      SeenMakes(t0, groups, n, g, i);
      GroupInAll(groups, g, |groups|);
      NamesStay(groups, n);
      assert f in Names(groups[g].defs) && f !in Used(groups, n);
      assert f !in Sequential(t0, groups, n).value && f in Simple(t0, groups, n).value - Used(groups, n);
    }
  }

  /** A column that is collected and wanted by two groups is lost to the second: with two groups that both require
      it, all definitions together succeed, and the processing fails. */
  lemma SharedColumnFails(t0: Table, groups: seq<Group>)
    requires t0 == map["status" := map["1" := Some("up")]]
    requires |groups| == 2 && groups[0].defs == [Def("a", "status", true, false, c => c)]
    requires groups[1].defs == [Def("b", "status", true, false, c => c)]
    ensures Simple(t0, groups, 2).Ok? && Sequential(t0, groups, 2).Err?
  {
    assert "a" != "status" && "b" != "status";
    assert Separate(groups);
    assert "status" in Used(groups, 1) by {
      assert groups[0].defs[0].ref in Refs(groups[0].defs);
      assert Used(groups, 1) == Used(groups, 0) + Spent(groups[0].defs);
    }
    assert Tallies(t0, "status") by {
      assert "1" in t0["status"];
    }
    EvaluateFailsExactlyWhen(t0, t0, groups[0].defs, 1);
    assert Simple(t0, groups, 0) == Ok(t0) && Simple(t0, groups, 1) == Evaluate(t0, t0, groups[0].defs, 1);
    EvaluateFailsExactlyWhen(t0, Simple(t0, groups, 1).value, groups[1].defs, 1);
    FailsExactlyWhen(t0, groups, 2);
    assert Stumbles(t0, groups, 1, 0);
    assert GroupStumbles(t0, groups, 1);
  }

  // ---------- The whole of it ----------

  /** The groups one after the other, each taking the columns it wants from the table and putting back what it wants
      again. */
  function Chained(t0: Table, groups: seq<Group>, n: nat): Result<Table, Error>
    requires n <= |groups|
  {
    if n == 0 then Ok(t0)
    else
      var before := Chained(t0, groups, n - 1);
      var defs := groups[n - 1].defs;
      if before.Err? then before
      else if !SharedRefsPresent(before.value, defs) then Err(RefNotFound(groups[n - 1].name))
      else Piped(before.value, defs, |defs|)
  }

  /** The renaming half of `process`, group by group, whatever the names are. */
  method ProcessGroups(t0: Table, groups: seq<Group>) returns (r: Result<Table, Error>)
    ensures r.Err? <==> Chained(t0, groups, |groups|).Err?
    ensures r.Ok? ==> r.value == Chained(t0, groups, |groups|).value
  {
    var result := t0;
    for i := 0 to |groups|
      invariant Chained(t0, groups, i) == Ok(result)
    {
      var next := ProcessGroup(result, groups[i].defs);
      if next.Err? {
        FailureStays(t0, groups, i + 1, |groups|);
        return next;
      }
      result := next.value;
    }
    return Ok(result);
  }

  lemma {:induction false} FailureStays(t0: Table, groups: seq<Group>, i: nat, n: nat)
    requires i <= n <= |groups| && Chained(t0, groups, i).Err?
    ensures Chained(t0, groups, n).Err?
  {
    if i < n {
      FailureStays(t0, groups, i, n - 1);
    }
  }

  /** Columns that are collected have entries. */
  ghost predicate AllFull(t0: Table, groups: seq<Group>) {
    forall g {:trigger groups[g]} | 0 <= g < |groups| :: ColumnsAreFull(t0, groups[g].defs)
  }

  /** The refinement for all groups: when names and columns are kept apart, the groups make what the evaluator makes
      of what they have left each other. */
  lemma {:induction false} ChainedIsSequential(t0: Table, groups: seq<Group>, n: nat)
    requires n <= |groups| && Separate(groups) && AllFull(t0, groups)
    ensures Chained(t0, groups, n).Err? <==> Sequential(t0, groups, n).Err?
    ensures Chained(t0, groups, n).Ok? ==> Chained(t0, groups, n).value == Sequential(t0, groups, n).value
  {
    if n > 0 {
      ChainedIsSequential(t0, groups, n - 1);
      if Sequential(t0, groups, n - 1).Ok? {
        StillFull(t0, groups, n - 1);
        SeparateGroup(groups, n - 1);
        PipedIsEvaluated(Sequential(t0, groups, n - 1).value, groups[n - 1].defs, |groups[n - 1].defs|);
      }
    }
  }

  lemma StillFull(t0: Table, groups: seq<Group>, n: nat)
    requires n < |groups| && Separate(groups) && AllFull(t0, groups) && Sequential(t0, groups, n).Ok?
    ensures ColumnsAreFull(Sequential(t0, groups, n).value, groups[n].defs)
  {
    var t, defs := Sequential(t0, groups, n).value, groups[n].defs;
    forall f | f in Refs(defs) && f in t ensures t[f] != map[] {
      EarlierNamesDiffer(groups, n, f);
      SequentialKeeps(t0, groups, n, f);
      assert ColumnsAreFull(t0, groups[n].defs);
    }
  }

  ghost predicate GroupNamesDiffer(groups: seq<Group>) {
    forall i, j :: 0 <= i < j < |groups| ==> groups[i].name != groups[j].name
  }

  /** The key-major result of a group that the simple form on unused columns promises. */
  ghost predicate AsEvaluated(t0: Table, groups: seq<Group>, i: nat, rows: Rows)
    requires i < |groups| && Seen(t0, groups, |groups|).Ok?
  {
    TransposedGroup(Seen(t0, groups, |groups|).value, groups[i], rows)
  }

  /** `process`: the rows of every group are made of what the groups one after the other leave of the table.  When
      names and columns are kept apart, it fails exactly when some definition stumbles, and else makes the rows of what
      the definitions see; which is what the simple form makes when no column is wanted by two groups (SeenIsSimple). */
  method Process(t0: Table, groups: seq<Group>) returns (r: Result<map<string, Rows>, Error>)
    requires GroupNamesDiffer(groups)
    ensures r.Err? <==> Chained(t0, groups, |groups|).Err?
    ensures r.Ok? ==> r.value.Keys == set i | 0 <= i < |groups| :: groups[i].name
    ensures r.Ok? ==> forall i :: 0 <= i < |groups| ==>
              TransposedGroup(Chained(t0, groups, |groups|).value, groups[i], r.value[groups[i].name])
    ensures r.Ok? ==> forall i :: 0 <= i < |groups| ==>
              RowsTell(Chained(t0, groups, |groups|).value, groups[i].defs, r.value[groups[i].name])
    ensures Separate(groups) && AllFull(t0, groups) ==> AsPromised(t0, groups, r)
  {
    var processed := ProcessGroups(t0, groups);
    if processed.Err? {
      if Separate(groups) && AllFull(t0, groups) {
        FailureIsPromised(t0, groups);
      }
      return Err(processed.error);
    }
    var wanted := WantedFields(groups);
    var result := DropOthers(processed.value, wanted);
    var rows := RowsOfAll(result, groups);
    forall i | 0 <= i < |groups|
      ensures TransposedGroup(processed.value, groups[i], rows[groups[i].name])
      ensures RowsTell(processed.value, groups[i].defs, rows[groups[i].name])
    {
      GroupInAll(groups, i, |groups|);
      SameColumns(processed.value, result, Names(groups[i].defs) - CleanNames(groups[i].defs), rows[groups[i].name]);
      RowsOfGroup(processed.value, groups[i].defs, rows[groups[i].name]);
    }
    if Separate(groups) && AllFull(t0, groups) {
      RowsArePromised(t0, groups, rows);
    }
    return Ok(rows);
  }

  /** What `process` comes to when names and columns are kept apart. */
  ghost predicate AsPromised(t0: Table, groups: seq<Group>, r: Result<map<string, Rows>, Error>) {
    && (r.Err? <==> exists g :: 0 <= g < |groups| && GroupStumbles(t0, groups, g))
    && (r.Ok? ==> Seen(t0, groups, |groups|).Ok?)
    && (r.Ok? ==> forall i :: 0 <= i < |groups| ==>
          groups[i].name in r.value && AsEvaluated(t0, groups, i, r.value[groups[i].name]))
  }

  lemma FailureIsPromised(t0: Table, groups: seq<Group>)
    requires Separate(groups) && AllFull(t0, groups)
    ensures Chained(t0, groups, |groups|).Err? <==> exists g :: 0 <= g < |groups| && GroupStumbles(t0, groups, g)
  {
    ChainedIsSequential(t0, groups, |groups|);
    FailsExactlyWhen(t0, groups, |groups|);
  }

  lemma RowsArePromised(t0: Table, groups: seq<Group>, rows: map<string, Rows>)
    requires Separate(groups) && AllFull(t0, groups) && Chained(t0, groups, |groups|).Ok?
    requires forall i :: 0 <= i < |groups| ==>
               && groups[i].name in rows
               && TransposedGroup(Chained(t0, groups, |groups|).value, groups[i], rows[groups[i].name])
    ensures AsPromised(t0, groups, Ok(rows))
  {
    FailureIsPromised(t0, groups);
    ChainedIsSequential(t0, groups, |groups|);
    SequentialIsSeen(t0, groups, |groups|);
    NamesStay(groups, |groups|);
    var left := Chained(t0, groups, |groups|).value;
    forall i | 0 <= i < |groups| ensures AsEvaluated(t0, groups, i, rows[groups[i].name]) {
      GroupInAll(groups, i, |groups|);
      SameColumns(Seen(t0, groups, |groups|).value, left, Names(groups[i].defs) - CleanNames(groups[i].defs),
                  rows[groups[i].name]);
    }
  }

  /** The second half of `process`: every group's rows. */
  method RowsOfAll(t: Table, groups: seq<Group>) returns (rows: map<string, Rows>)
    requires GroupNamesDiffer(groups)
    ensures rows.Keys == set i | 0 <= i < |groups| :: groups[i].name
    ensures forall i :: 0 <= i < |groups| ==> TransposedGroup(t, groups[i], rows[groups[i].name])
  {
    rows := map[];
    for i := 0 to |groups|
      invariant rows.Keys == set j | 0 <= j < i :: groups[j].name
      invariant forall j :: 0 <= j < i ==> TransposedGroup(t, groups[j], rows[groups[j].name])
    {
      var made := RowsOf(t, groups[i].defs);
      rows := rows[groups[i].name := made];
    }
  }

  /** Under Separate, the columns that are used up are those an earlier group wants. */
  lemma UsedExactlyWhen(groups: seq<Group>, g: nat, i: nat)
    requires Separate(groups) && IsDef(groups, g, i)
    ensures groups[g].defs[i].ref in Used(groups, g)
            <==> exists h, j :: IsDef(groups, h, j) && h < g && groups[h].defs[j].ref == groups[g].defs[i].ref
  {
    var f := groups[g].defs[i].ref;
    if f in Used(groups, g) {
      UsedWhere(groups, g, f);
    }
    forall h, j | IsDef(groups, h, j) && h < g && groups[h].defs[j].ref == f ensures f in Used(groups, g) {
      forall k | 0 <= k < |groups[h].defs| ensures groups[h].defs[k].name != f {
        assert IsDef(groups, h, k);
      }
      assert f in Spent(groups[h].defs);
      GroupInAll(groups, h, g);
    }
  }

  /** What becomes of one definition when `process` succeeds, names and columns are kept apart and every field is made
      once: its field has a cell for every index that its maps make of the collected column, unless it is to be cleaned,
      its column was not collected or an earlier group wants the column too. */
  lemma StoredCell(t0: Table, groups: seq<Group>, r: Result<map<string, Rows>, Error>, g: nat, i: nat, k: Index)
    requires Separate(groups) && FreshNames(t0, groups) && IsDef(groups, g, i)
    requires r.Ok? && AsPromised(t0, groups, r)
    ensures groups[g].name in r.value
    ensures var d, rows := groups[g].defs[i], r.value[groups[g].name];
            && ((k in rows && d.name in rows[k])
                <==> !d.clean && d.ref in t0 && k in d.shape(t0[d.ref])
                     && !exists h, j :: IsDef(groups, h, j) && h < g && groups[h].defs[j].ref == d.ref)
            && (k in rows && d.name in rows[k] && d.shape(t0[d.ref])[k] != Some("None") ==>
                  rows[k][d.name] == d.shape(t0[d.ref])[k])
            && (k in rows && d.name in rows[k] && d.shape(t0[d.ref])[k] == Some("None") ==> rows[k][d.name] == None)
  {
    var d := groups[g].defs[i];
    assert AsEvaluated(t0, groups, g, r.value[groups[g].name]);
    SeenMakes(t0, groups, |groups|, g, i);
    CellOfGroup(Seen(t0, groups, |groups|).value, groups[g].defs, r.value[groups[g].name], k, d.name);
    UsedExactlyWhen(groups, g, i);
    NameApart(t0, groups, g, i, g);
    assert Shown(groups[g].defs, d.name) <==> !d.clean;
  }

  ghost predicate TransposedGroup(t: Table, g: Group, rows: Rows) {
    Transposed(t, Names(g.defs) - CleanNames(g.defs), rows)
  }

  /** The field names of all definitions. */
  method WantedFields(groups: seq<Group>) returns (wanted: set<Field>)
    ensures wanted == AllNames(groups, |groups|)
  {
    wanted := {};
    for i := 0 to |groups|
      invariant wanted == AllNames(groups, i)
    {
      wanted := wanted + Names(groups[i].defs);
    }
  }

  /** Deletes the columns that no definition names. */
  method DropOthers(t: Table, wanted: set<Field>) returns (r: Table)
    ensures r == t - (t.Keys - wanted)
  {
    r := t;
    var keys := t.Keys;
    while keys != {}
      invariant keys <= t.Keys
      invariant r == t - ((t.Keys - keys) - wanted)
      decreases keys
    {
      var f :| f in keys;
      if f !in wanted {
        r := r - {f};
      }
      keys := keys - {f};
    }
  }

  lemma SameColumns(a: Table, b: Table, fields: set<Field>, rows: Rows)
    requires Transposed(b, fields, rows)
    requires forall f <- fields :: (f in a <==> f in b) && (f in a ==> a[f] == b[f])
    ensures Transposed(a, fields, rows)
  {
    forall k, f ensures HasCell(rows, k, f) <==> f in fields && f in a && k in a[f] {
    }
  }
}
