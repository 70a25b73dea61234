/**
 Shaping what a driver collected (lib/ptolemy/poller/workers.py:323-430; lib/ptolemy/poller/driver.py:853-876,
 1644-1687).  Columns are renamed in place, so a column that several definitions want is copied first
 and put back after every use but the last.
 */
module Gatherer {
  import opened Basics

  type Field = string
  type Index = string

  /** A column of collected values; a value may be None. */
  type Column = map<Index, Option<string>>

  type Table = map<Field, Column>

  /** One definition: the field `name` is made from the column `ref` by the maps of the definition, which
      touch their own column only. */
  datatype Def = Def(name: Field, ref: Field, required: bool, clean: bool, shape: Column -> Column)

  datatype Group = Group(name: string, defs: seq<Def>)

  /** A required variable is not in the data. */
  datatype Error = RefNotFound(field: Field)

  // ---------- Names and references ----------

  function Refs(defs: seq<Def>): set<Field> {
    set i | 0 <= i < |defs| :: defs[i].ref
  }

  function Names(defs: seq<Def>): set<Field> {
    set i | 0 <= i < |defs| :: defs[i].name
  }

  /** How many of the definitions from `i` on want the column `r`. */
  function UsesFrom(defs: seq<Def>, i: nat, r: Field): nat
    requires i <= |defs|
    decreases |defs| - i
  {
    if i == |defs| then 0 else (if defs[i].ref == r then 1 else 0) + UsesFrom(defs, i + 1, r)
  }

  lemma {:induction false} UsedMeansRef(defs: seq<Def>, i: nat, r: Field)
    requires i <= |defs|
    ensures UsesFrom(defs, i, r) > 0 <==> exists j :: i <= j < |defs| && defs[j].ref == r
    decreases |defs| - i
  {
    if i < |defs| {
      UsedMeansRef(defs, i + 1, r);
    }
  }

  /** A column is wanted more than once when two definitions refer to it. */
  lemma {:induction false} SharedMeansTwo(defs: seq<Def>, i: nat, r: Field)
    requires i <= |defs|
    ensures UsesFrom(defs, i, r) > 1
            <==> exists j, k :: i <= j < k < |defs| && defs[j].ref == r && defs[k].ref == r
    decreases |defs| - i
  {
    if i < |defs| {
      SharedMeansTwo(defs, i + 1, r);
      UsedMeansRef(defs, i + 1, r);
      if defs[i].ref == r && UsesFrom(defs, i + 1, r) > 0 {
        var k :| i + 1 <= k < |defs| && defs[k].ref == r;
        assert i <= i < k;
      }
    }
  }

  /** Some value of the column is not None. */
  predicate Tallies(t: Table, r: Field) {
    r in t && exists k <- t[r] :: t[r][k] != None
  }

  // ---------- The simple evaluator ----------

  /** What the first `i` definitions make of the table `t` when nothing is ever taken away: every
      definition reads the column of `t0`. */
  function Evaluate(t0: Table, t: Table, defs: seq<Def>, i: nat): Result<Table, Error>
    requires i <= |defs|
  {
    if i == 0 then Ok(t)
    else
      var before := Evaluate(t0, t, defs, i - 1);
      var d := defs[i - 1];
      if before.Err? then before
      else if d.required && !Tallies(t0, d.ref) then Err(RefNotFound(d.name))
      else Ok(Define(t0, before.value, d))
  }

  function Define(t0: Table, t: Table, d: Def): Table {
    if d.ref in t0 then t[d.name := d.shape(t0[d.ref])]
    else if d.name in t then t[d.name := d.shape(t[d.name])]
    else t
  }

  /** A column that is wanted more than once must be there, even by definitions that are not required. */
  predicate SharedRefsPresent(t0: Table, defs: seq<Def>) {
    forall i | 0 <= i < |defs| :: UsesFrom(defs, 0, defs[i].ref) > 1 ==> defs[i].ref in t0
  }

  /** A field is named like a column only if it is made of that column, and no later definition wants that. */
  predicate KeepsApart(defs: seq<Def>) {
    forall i, j | 0 <= i < |defs| && 0 <= j < |defs| && defs[i].name == defs[j].ref ::
      defs[i].ref == defs[i].name && j <= i
  }

  // ---------- The pipeline of one group ----------

  /** What a definition makes of the table: its column moves to its name, and its maps are applied there. */
  function Renamed(t: Table, d: Def): Table {
    if d.ref in t && d.ref != d.name then (t - {d.ref})[d.name := d.shape(t[d.ref])]
    else if d.name in t then t[d.name := d.shape(t[d.name])]
    else t
  }

  /** The entries of a copy go back into the column, or into a new one. */
  function PutBack(t: Table, f: Field, copy: Column): Table {
    if copy == map[] then t else t[f := (if f in t then t[f] else map[]) + copy]
  }

  /** The table after one definition field by field. */
  lemma RenamedAt(t: Table, d: Def, f: Field)
    ensures f != d.ref && f != d.name ==> (f in Renamed(t, d) <==> f in t) && (f in t ==> Renamed(t, d)[f] == t[f])
    ensures d.ref != d.name ==> d.ref !in Renamed(t, d)
    ensures d.name in Renamed(t, d) <==> d.ref in t || d.name in t
    ensures d.ref in t ==> Renamed(t, d)[d.name] == d.shape(t[d.ref])
    ensures d.ref !in t && d.name in t ==> Renamed(t, d)[d.name] == d.shape(t[d.name])
  {
  }

  /** A copy that is put back has its entries in the column again, over what the column holds by then. */
  lemma PutBackAt(t: Table, f: Field, copy: Column, g: Field, k: Index)
    ensures g != f ==> (g in PutBack(t, f, copy) <==> g in t) && (g in t ==> PutBack(t, f, copy)[g] == t[g])
    ensures f in PutBack(t, f, copy) <==> f in t || exists x :: x in copy
    ensures k in copy ==> k in PutBack(t, f, copy)[f] && PutBack(t, f, copy)[f][k] == copy[k]
    ensures k !in copy && f in t ==> (k in PutBack(t, f, copy)[f] <==> k in t[f])
    ensures k !in copy && f in t && k in t[f] ==> PutBack(t, f, copy)[f][k] == t[f][k]
    ensures k !in copy && f !in t && f in PutBack(t, f, copy) ==> k !in PutBack(t, f, copy)[f]
  {
    if copy.Keys == {} {
      assert copy == map[];
    }
  }

  /** The table after the first `i` definitions: each renames its column away, and a column that is wanted again is
      put back as it was collected. */
  function Piped(t0: Table, defs: seq<Def>, i: nat): Result<Table, Error>
    requires i <= |defs|
  {
    if i == 0 then Ok(t0)
    else
      var before := Piped(t0, defs, i - 1);
      var d := defs[i - 1];
      if before.Err? then before
      else if d.required && !Tallies(before.value, d.ref) then Err(RefNotFound(d.name))
      else Ok(AfterOne(t0, before.value, d, UsesFrom(defs, i, d.ref)))
  }

  function AfterOne(t0: Table, t: Table, d: Def, wanted: nat): Table {
    if wanted > 0 && d.ref in t0 then PutBack(Renamed(t, d), d.ref, t0[d.ref]) else Renamed(t, d)
  }

  /** The columns that a group uses up. */
  function Spent(defs: seq<Def>): set<Field> {
    Refs(defs) - Names(defs)
  }

  /** What is left of the evaluated table when the definitions before `i` have used their columns up:
      a column to be used up is there as long as somebody still wants it. */
  function Leftover(t: Table, defs: seq<Def>, i: nat): Table
    requires i <= |defs|
  {
    map f | f in t && (f in Spent(defs) ==> UsesFrom(defs, i, f) > 0) :: t[f]
  }

  /** _process_by_field_rename and the maps, as Driver.remap applies them */
  method Remap(t: Table, d: Def) returns (r: Result<Table, Error>)
    ensures r.Err? <==> d.required && (d.ref !in t || forall k <- t[d.ref] :: t[d.ref][k] == None)
    ensures r.Err? ==> r.error == RefNotFound(d.name)
    ensures r.Ok? ==> r.value == Renamed(t, d)
  {
    var tally := false;
    if d.ref in t {
      var keys := t[d.ref].Keys;
      while keys != {}
        invariant keys <= t[d.ref].Keys
        invariant tally <==> exists k :: k in t[d.ref] && k !in keys && t[d.ref][k] != None
        decreases keys
      {
        var k :| k in keys;
        if t[d.ref][k] != None {
          tally := true;
        }
        keys := keys - {k};
      }
    }
    if !tally && d.required {
      return Err(RefNotFound(d.name));
    }
    var data := t;
    if d.ref != d.name && d.ref in data {
      var this_ := data[d.ref];
      data := data - {d.ref};
      data := data[d.name := this_];
    }
    if d.name in data {
      data := data[d.name := d.shape(data[d.name])];
    }
    return Ok(data);
  }

  /** The counts of references at the start of a group. */
  method CountRefs(defs: seq<Def>) returns (counts: map<Field, nat>)
    ensures counts.Keys == Refs(defs)
    ensures forall r <- counts :: counts[r] == UsesFrom(defs, 0, r)
  {
    counts := map[];
    ghost var seen: set<Field> := {};
    for i := 0 to |defs|
      invariant counts.Keys == set j | 0 <= j < i :: defs[j].ref
      invariant forall r <- counts :: counts[r] + UsesFrom(defs, i, r) == UsesFrom(defs, 0, r)
      invariant forall r :: r !in counts ==> UsesFrom(defs, i, r) == UsesFrom(defs, 0, r)
    {
      var r := defs[i].ref;
      if r !in counts {
        counts := counts[r := 0];
      }
      counts := counts[r := counts[r] + 1];
    }
  }

  /** Copies of the columns that are wanted more than once. */
  method Snapshots(t: Table, counts: map<Field, nat>) returns (r: Result<Table, Error>)
    ensures r.Err? <==> exists f :: f in counts && counts[f] > 1 && f !in t
    ensures r.Ok? ==> forall f <- counts :: counts[f] > 1 ==> f in r.value && f in t && r.value[f] == t[f]
  {
    var copies: Table := map[];
    var refs := counts.Keys;
    while refs != {}
      invariant refs <= counts.Keys
      invariant forall f <- counts :: f !in refs && counts[f] > 1 ==> f in copies && f in t && copies[f] == t[f]
      decreases refs
    {
      var f :| f in refs;
      if counts[f] > 1 {
        if f !in t {
          return Err(RefNotFound(f));
        }
        copies := copies[f := t[f]];
      }
      refs := refs - {f};
    }
    return Ok(copies);
  }

  /** A definition never touches a column that is no field name. */
  lemma {:induction false} RefsStay(t0: Table, t: Table, defs: seq<Def>, i: nat, f: Field)
    requires i <= |defs| && f !in Names(defs[..i]) && Evaluate(t0, t, defs, i).Ok?
    ensures f in Evaluate(t0, t, defs, i).value <==> f in t
    ensures f in t ==> Evaluate(t0, t, defs, i).value[f] == t[f]
  {
    if i > 0 {
      assert defs[..i][i - 1] == defs[i - 1] && forall j | 0 <= j < i - 1 :: defs[..i - 1][j] == defs[..i][j];
      RefsStay(t0, t, defs, i - 1, f);
    }
  }

  /** Puts the copy of a column back, entry by entry. */
  method Restore(t: Table, f: Field, copy: Column) returns (r: Table)
    ensures r == PutBack(t, f, copy)
  {
    r := t;
    var keys := copy.Keys;
    ghost var had := if f in t then t[f] else map[];
    while keys != {}
      invariant keys <= copy.Keys
      invariant keys == copy.Keys ==> r == t
      invariant keys != copy.Keys ==> r == t[f := had + Among(copy, copy.Keys - keys)]
      decreases keys
    {
      var x :| x in keys;
      if f !in r {
        r := r[f := map[]];
      }
      OneMoreEntry(had, copy, keys, x);
      r := r[f := r[f][x := copy[x]]];
      keys := keys - {x};
    }
    assert copy.Keys - keys == copy.Keys && Among(copy, copy.Keys) == copy;
    assert copy != map[] ==> copy.Keys != {};
  }

  function Among(c: Column, keys: set<Index>): Column {
    map k | k in c && k in keys :: c[k]
  }

  lemma OneMoreEntry(had: Column, copy: Column, keys: set<Index>, x: Index)
    requires keys <= copy.Keys && x in keys
    ensures had + Among(copy, copy.Keys - (keys - {x})) == (had + Among(copy, copy.Keys - keys))[x := copy[x]]
    ensures keys == copy.Keys ==> had + Among(copy, copy.Keys - keys) == had
  {
  }

  ghost predicate CountsFrom(defs: seq<Def>, i: nat, counts: map<Field, nat>)
    requires i <= |defs|
  {
    counts.Keys == Refs(defs) && forall f <- counts :: counts[f] == UsesFrom(defs, i, f)
  }

  lemma OneCountLess(defs: seq<Def>, i: nat, counts: map<Field, nat>)
    requires i < |defs| && CountsFrom(defs, i, counts)
    ensures defs[i].ref in counts && counts[defs[i].ref] == 1 + UsesFrom(defs, i + 1, defs[i].ref)
    ensures CountsFrom(defs, i + 1, counts[defs[i].ref := UsesFrom(defs, i + 1, defs[i].ref)])
  {
    assert defs[i].ref in Refs(defs);
  }

  /** One group of `process`, whatever its names are. */
  method ProcessGroup(t0: Table, defs: seq<Def>) returns (r: Result<Table, Error>)
    ensures r.Err? <==> !SharedRefsPresent(t0, defs) || Piped(t0, defs, |defs|).Err?
    ensures r.Ok? ==> r.value == Piped(t0, defs, |defs|).value
  {
    var counts := CountRefs(defs);
    var copies := Snapshots(t0, counts);
    CountsSaySharing(t0, defs, counts);
    if copies.Err? {
      return Err(copies.error);
    }
    assert SharedAreCopied(t0, defs, copies.value) by {
      forall j | 0 <= j < |defs| ensures defs[j].ref in counts {
      }
    }
    var result := t0;
    for i := 0 to |defs|
      invariant CountsFrom(defs, i, counts)
      invariant Piped(t0, defs, i) == Ok(result)
    {
      var d := defs[i];
      OneCountLess(defs, i, counts);
      if UsesFrom(defs, i + 1, d.ref) > 0 {
        WantedIsCopied(t0, defs, i, copies.value);
      }
      counts := counts[d.ref := counts[d.ref] - 1];
      var next := Apply(t0, result, d, counts[d.ref], copies.value);
      if next.Err? {
        FailureStays(t0, defs, i + 1, |defs|);
        return next;
      }
      result := next.value;
    }
    return Ok(result);
  }

  ghost predicate SharedAreCopied(t0: Table, defs: seq<Def>, copies: Table) {
    forall j | 0 <= j < |defs| && UsesFrom(defs, 0, defs[j].ref) > 1 ::
      defs[j].ref in copies && defs[j].ref in t0 && copies[defs[j].ref] == t0[defs[j].ref]
  }

  lemma WantedIsCopied(t0: Table, defs: seq<Def>, i: nat, copies: Table)
    requires i < |defs| && SharedAreCopied(t0, defs, copies) && UsesFrom(defs, i + 1, defs[i].ref) > 0
    ensures defs[i].ref in copies && defs[i].ref in t0 && copies[defs[i].ref] == t0[defs[i].ref]
  {
    UsesShrink(defs, i, defs[i].ref);
  }

  /** One definition of a group: its column is used up, and put back if it is still wanted. */
  method Apply(ghost t0: Table, t: Table, d: Def, wanted: nat, copies: Table) returns (r: Result<Table, Error>)
    requires wanted > 0 ==> d.ref in copies && d.ref in t0 && copies[d.ref] == t0[d.ref]
    ensures r.Err? <==> d.required && !Tallies(t, d.ref)
    ensures r.Ok? ==> r.value == AfterOne(t0, t, d, wanted)
  {
    r := Remap(t, d);
    if r.Ok? && wanted > 0 {
      var whole := Restore(r.value, d.ref, copies[d.ref]);
      r := Ok(whole);
    }
  }

  lemma {:induction false} FailureStays(t0: Table, defs: seq<Def>, i: nat, n: nat)
    requires i <= n <= |defs| && Piped(t0, defs, i).Err?
    ensures Piped(t0, defs, n).Err?
  {
    if i < n {
      FailureStays(t0, defs, i, n - 1);
    }
  }

  lemma {:induction false} UsesShrink(defs: seq<Def>, i: nat, r: Field)
    requires i <= |defs|
    ensures UsesFrom(defs, i, r) <= UsesFrom(defs, 0, r)
  {
    if i > 0 {
      UsesShrink(defs, i - 1, r);
    }
  }

  lemma CountsSaySharing(t0: Table, defs: seq<Def>, counts: map<Field, nat>)
    requires counts.Keys == Refs(defs) && forall f <- counts :: counts[f] == UsesFrom(defs, 0, f)
    ensures SharedRefsPresent(t0, defs) <==> !exists f :: f in counts && counts[f] > 1 && f !in t0
  {
    forall i | 0 <= i < |defs| ensures defs[i].ref in counts {
    }
  }

  // ---------- When names and columns are kept apart ----------

  lemma StartsWhole(t0: Table, defs: seq<Def>)
    ensures Leftover(t0, defs, 0) == t0
  {
    forall f | f in Refs(defs) ensures UsesFrom(defs, 0, f) > 0 {
      UsedMeansRef(defs, 0, f);
    }
  }

  /** Columns that are collected have entries. */
  predicate ColumnsAreFull(t0: Table, defs: seq<Def>) {
    forall f <- Refs(defs) :: f in t0 ==> t0[f] != map[]
  }

  /** A column that is still wanted is as it was collected. */
  lemma WantedStay(t0: Table, defs: seq<Def>, i: nat, j: nat)
    requires KeepsApart(defs) && i <= j < |defs| && Evaluate(t0, t0, defs, i).Ok?
    ensures var t, f := Evaluate(t0, t0, defs, i).value, defs[j].ref;
            (f in t0 <==> f in t) && (f in t0 ==> t0[f] == t[f])
  {
    forall k | 0 <= k < i ensures defs[..i][k].name != defs[j].ref {
      assert defs[..i][k] == defs[k];
    }
    RefsStay(t0, t0, defs, i, defs[j].ref);
  }

  /** The step of the invariant: one definition on the leftover table is one definition of the evaluator. */
  lemma OneDefinition(t0: Table, t: Table, defs: seq<Def>, i: nat)
    requires i < |defs| && KeepsApart(defs) && ColumnsAreFull(t0, defs)
    requires forall j | i <= j < |defs| :: (defs[j].ref in t0 <==> defs[j].ref in t) &&
                                           (defs[j].ref in t0 ==> t0[defs[j].ref] == t[defs[j].ref])
    ensures AfterOne(t0, Leftover(t, defs, i), defs[i], UsesFrom(defs, i + 1, defs[i].ref))
         == Leftover(Define(t0, t, defs[i]), defs, i + 1)
  {
    var d := defs[i];
    assert d.ref in Refs(defs) && d.name in Names(defs) && UsesFrom(defs, i, d.ref) > 0;
    var after := AfterOne(t0, Leftover(t, defs, i), d, UsesFrom(defs, i + 1, d.ref));
    var target := Leftover(Define(t0, t, d), defs, i + 1);
    WantedAfter(defs, i);
    forall f ensures (f in after <==> f in target) && (f in after ==> after[f] == target[f]) {
      assert f != d.ref ==> UsesFrom(defs, i + 1, f) == UsesFrom(defs, i, f);
    }
  }

  /** A column that is named like a field is wanted until that field is made. */
  lemma WantedAfter(defs: seq<Def>, i: nat)
    requires i < |defs| && KeepsApart(defs)
    ensures defs[i].ref == defs[i].name ==> UsesFrom(defs, i + 1, defs[i].ref) == 0
    ensures defs[i].ref != defs[i].name && defs[i].ref in Names(defs) ==> UsesFrom(defs, i + 1, defs[i].ref) > 0
  {
    UsedMeansRef(defs, i + 1, defs[i].ref);
    if defs[i].ref in Names(defs) {
      var k :| 0 <= k < |defs| && defs[k].name == defs[i].ref;
      assert defs[k].ref == defs[k].name && i <= k;
    }
  }

  /** The refinement: when names and columns are kept apart, a group makes what the simple evaluator makes, less the
      columns it uses up, and fails exactly when that fails. */
  lemma {:induction false} PipedIsEvaluated(t0: Table, defs: seq<Def>, i: nat)
    requires i <= |defs| && KeepsApart(defs) && ColumnsAreFull(t0, defs)
    ensures Piped(t0, defs, i).Err? <==> Evaluate(t0, t0, defs, i).Err?
    ensures Piped(t0, defs, i).Ok? ==> Piped(t0, defs, i).value == Leftover(Evaluate(t0, t0, defs, i).value, defs, i)
  {
    if i == 0 {
      StartsWhole(t0, defs);
    } else {
      PipedIsEvaluated(t0, defs, i - 1);
      if Piped(t0, defs, i - 1).Ok? {
        OneMorePiped(t0, Evaluate(t0, t0, defs, i - 1).value, defs, i - 1);
      }
    }
  }

  lemma OneMorePiped(t0: Table, t: Table, defs: seq<Def>, i: nat)
    requires i < |defs| && KeepsApart(defs) && ColumnsAreFull(t0, defs) && Evaluate(t0, t0, defs, i) == Ok(t)
    ensures Tallies(Leftover(t, defs, i), defs[i].ref) <==> Tallies(t0, defs[i].ref)
    ensures AfterOne(t0, Leftover(t, defs, i), defs[i], UsesFrom(defs, i + 1, defs[i].ref))
         == Leftover(Define(t0, t, defs[i]), defs, i + 1)
  {
    forall j | i <= j < |defs|
      ensures (defs[j].ref in t0 <==> defs[j].ref in t) && (defs[j].ref in t0 ==> t0[defs[j].ref] == t[defs[j].ref])
    {
      WantedStay(t0, defs, i, j);
    }
    OneDefinition(t0, t, defs, i);
  }

  // ---------- A field named like the column it is made of ----------

  predicate Wants(defs: seq<Def>, f: Field, lo: nat, hi: nat) {
    exists j :: lo <= j < hi && j < |defs| && defs[j].ref == f
  }

  /** The definition `k` keeps the name of its column, and no other definition makes a field of that name. */
  predicate KeepsName(defs: seq<Def>, k: nat) {
    && k < |defs| && defs[k].ref == defs[k].name
    && forall j | 0 <= j < |defs| && j != k :: defs[j].name != defs[k].name
  }

  /** What is under the name after `m` definitions: the collected column, until definition `k` applies its maps to it.
      If it is wanted again, the collected entries are put back over that, and the next definition that wants it takes
      the mixture away. */
  function UnderName(column: Column, defs: seq<Def>, k: nat, m: nat): Option<Column>
    requires k < |defs| && m <= |defs|
  {
    var f, shaped := defs[k].ref, defs[k].shape(column);
    if m <= k then Some(column)
    else if Wants(defs, f, k + 1, m) then if UsesFrom(defs, m, f) > 0 then Some(column) else None
    else Some(if UsesFrom(defs, m, f) > 0 then shaped + column else shaped)
  }

  lemma {:induction false} KeptName(t0: Table, defs: seq<Def>, k: nat, m: nat)
    requires KeepsName(defs, k) && m <= |defs| && Piped(t0, defs, m).Ok?
    requires defs[k].ref in t0 && t0[defs[k].ref] != map[]
    ensures var t, f := Piped(t0, defs, m).value, defs[k].ref;
            var now := UnderName(t0[f], defs, k, m);
            (f in t <==> now.Some?) && (f in t ==> t[f] == now.value)
  {
    if m > 0 {
      KeptName(t0, defs, k, m - 1);
      OneMoreUnderName(t0[defs[k].ref], defs, k, m - 1);
      AfterOneAt(t0, Piped(t0, defs, m - 1).value, defs[m - 1], UsesFrom(defs, m, defs[m - 1].ref), defs[k].ref);
    }
  }

  /** What one definition does to a column. */
  lemma AfterOneAt(t0: Table, t: Table, d: Def, wanted: nat, f: Field)
    requires f in t0 && t0[f] != map[]
    ensures var after := AfterOne(t0, t, d, wanted);
            && (d.ref != f && d.name != f ==> (f in after <==> f in t) && (f in t ==> after[f] == t[f]))
            && (d.ref == f && d.name != f ==> (f in after <==> wanted > 0)
                                              && (f in after ==> after[f] == t0[f]))
            && (d.ref == f && d.name == f && f in t ==>
                  f in after && after[f] == if wanted > 0 then d.shape(t[f]) + t0[f] else d.shape(t[f]))
  {
    assert map[] + t0[f] == t0[f];
  }

  lemma OneMoreUnderName(column: Column, defs: seq<Def>, k: nat, m: nat)
    requires k < |defs| && m < |defs|
    ensures var f, wanted := defs[k].ref, UsesFrom(defs, m + 1, defs[k].ref) > 0;
            var was, now := UnderName(column, defs, k, m), UnderName(column, defs, k, m + 1);
            && (m == k ==> was == Some(column)
                           && now == Some(if wanted then defs[k].shape(column) + column else defs[k].shape(column)))
            && (m != k && defs[m].ref == f ==> was.Some? && now == if wanted then Some(column) else None)
            && (m != k && defs[m].ref != f ==> now == was)
  {
    var f := defs[k].ref;
    UsedMeansRef(defs, m, f);
    UsedMeansRef(defs, m + 1, f);
    assert Wants(defs, f, k + 1, m + 1) <==> Wants(defs, f, k + 1, m) || (k < m && defs[m].ref == f);
  }

  /** The exact condition: the field is lost if and only if a later definition of the group wants the column too. */
  lemma FieldLostExactlyWhen(t0: Table, defs: seq<Def>, k: nat)
    requires KeepsName(defs, k) && Piped(t0, defs, |defs|).Ok?
    requires defs[k].ref in t0 && t0[defs[k].ref] != map[]
    ensures var t, f := Piped(t0, defs, |defs|).value, defs[k].name;
            (f !in t <==> Wants(defs, f, k + 1, |defs|)) && (f in t ==> t[f] == defs[k].shape(t0[f]))
  {
    KeptName(t0, defs, k, |defs|);
  }

  /** And the next definition that wants the column gets the collected entries over what the maps have made. */
  lemma NextGetsMixture(t0: Table, defs: seq<Def>, k: nat, j: nat)
    requires KeepsName(defs, k) && k < j < |defs| && Piped(t0, defs, j + 1).Ok?
    requires defs[k].ref in t0 && t0[defs[k].ref] != map[]
    requires defs[j].ref == defs[k].ref && !Wants(defs, defs[k].ref, k + 1, j)
    ensures var t, column := Piped(t0, defs, j + 1).value, t0[defs[k].ref];
            defs[j].name in t && t[defs[j].name] == defs[j].shape(defs[k].shape(column) + column)
  {
    KeptName(t0, defs, k, j);
  }

  /** A group in which it happens: the names of the interfaces are kept and then made into labels as well. */
  lemma OwnNameIsLost(t0: Table, defs: seq<Def>)
    requires t0 == map["ifName" := map["1" := Some("eth0")]]
    requires defs == [Def("ifName", "ifName", true, false, c => c), Def("label", "ifName", true, false, c => c)]
    ensures Evaluate(t0, t0, defs, 2).Ok? && "ifName" in Evaluate(t0, t0, defs, 2).value
    ensures Piped(t0, defs, 2).Ok? && "ifName" !in Piped(t0, defs, 2).value
  {
    assert "1" in t0["ifName"] && Tallies(t0, "ifName");
    var column := t0["ifName"];
    assert UsesFrom(defs, 2, "ifName") == 0 && UsesFrom(defs, 1, "ifName") == 1;
    assert Piped(t0, defs, 0) == Ok(t0) && Evaluate(t0, t0, defs, 0) == Ok(t0);
    assert column + column == column;
    assert t0["ifName" := column] == t0;
    assert Piped(t0, defs, 1) == Ok(t0) && Evaluate(t0, t0, defs, 1) == Ok(t0);
    assert "label" != "ifName";
  }
}
