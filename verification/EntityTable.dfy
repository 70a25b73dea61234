/**
 The table side of culling entities (lib/ptolemy/poller/driver.py:355-390, 535-559): rows that carry
 nothing worth keeping are spliced out, and their children move up to their parent.
 */
module EntityTable {
  import opened ParentTable

  /** The row index that stands for "not contained in anything". */
  const ROOT: Label := "0"

  /** A row may lack the serial field, hold a null serial, or hold a serial. */
  datatype Serial = Missing | Null | Text(text: string)

  /** `passesOn`: the description is one of those whose children inherit the relative position. */
  datatype Row = Row(parent: Label, kind: string, serial: Serial, passesOn: bool, position: int)

  type Table = map<Label, Row>

  predicate Useless(row: Row) {
    row.serial == Null && row.kind != "fan"
  }

  /** The cull removes useless rows, but never one that hangs at the root. */
  predicate Doomed(row: Row) {
    row.parent != ROOT && Useless(row)
  }

  function ParentsOf(rows: Table): Parents {
    map l | l in rows :: rows[l].parent
  }

  /** regraft on the table: the children of `x` move to the parent of `x`. */
  function Repointed(rows: Table, x: Label): Table
    requires x in rows
  {
    map l | l in rows ::
      if rows[l].parent == x then
        rows[l].(parent := rows[x].parent,
                 position := if rows[x].passesOn then rows[x].position else rows[l].position)
      else rows[l]
  }

  function Spliced(rows: Table, x: Label): Table
    requires x in rows
  {
    Repointed(rows, x) - {x}
  }

  /** The same row by row: the row itself goes, its children get its parent, and its position if it passes that on,
      and nothing else changes. */
  lemma SplicedAt(rows: Table, x: Label, l: Label)
    requires x in rows
    ensures l in Spliced(rows, x) <==> l in rows && l != x
    ensures l in rows && l != x && rows[l].parent != x ==> Spliced(rows, x)[l] == rows[l]
    ensures l in rows && l != x && rows[l].parent == x && rows[x].passesOn ==>
              Spliced(rows, x)[l] == rows[l].(parent := rows[x].parent, position := rows[x].position)
    ensures l in rows && l != x && rows[l].parent == x && !rows[x].passesOn ==>
              Spliced(rows, x)[l] == rows[l].(parent := rows[x].parent)
  {
  }

  /** The cull loop over the rows in the given order. */
  function Culled(rows: Table, order: seq<Label>): Table {
    if order == [] then rows
    else
      var n := |order| - 1;
      var rest := Culled(rows, order[..n]);
      if order[n] in rest && Doomed(rest[order[n]]) then Spliced(rest, order[n]) else rest
  }

  // ---------- Ancestors ----------

  ghost predicate AllReach(parents: Parents) {
    && ROOT !in parents
    && forall l <- parents :: Reaches(parents, ROOT, l)
  }

  /** How many rows lie between `l` and the root. */
  ghost function Steps(parents: Parents, l: Label): (n: nat)
    requires Reaches(parents, ROOT, l)
    ensures ReachesIn(parents, ROOT, l, n) && (n > 0 ==> !ReachesIn(parents, ROOT, l, n - 1))
  {
    var n: nat :| ReachesIn(parents, ROOT, l, n);
    Least(parents, l, n)
  }

  ghost function Least(parents: Parents, l: Label, n: nat): (m: nat)
    requires ReachesIn(parents, ROOT, l, n)
    ensures ReachesIn(parents, ROOT, l, m) && (m > 0 ==> !ReachesIn(parents, ROOT, l, m - 1))
    decreases n
  {
    if n > 0 && ReachesIn(parents, ROOT, l, n - 1) then Least(parents, l, n - 1) else n
  }

  lemma StepUp(parents: Parents, l: Label)
    requires Reaches(parents, ROOT, l) && parents[l] != ROOT
    ensures Reaches(parents, ROOT, parents[l]) && Steps(parents, parents[l]) < Steps(parents, l)
  {
    var n := Steps(parents, l);
    assert ReachesIn(parents, ROOT, parents[l], n - 1);
    var m := Steps(parents, parents[l]);
    if m >= n {
      ReachesInMonotone(parents, ROOT, parents[l], n - 1, m - 1);
    }
  }

  ghost predicate IsAncestor(parents: Parents, a: Label, l: Label)
    requires AllReach(parents) && l in parents
    decreases Steps(parents, l)
  {
    parents[l] == a
    || (parents[l] != ROOT && (StepUp(parents, l); IsAncestor(parents, a, parents[l])))
  }

  /** The first label above `l`, in the original table, that is not gone. */
  ghost function NearestKept(parents: Parents, gone: set<Label>, l: Label): Label
    requires AllReach(parents) && l in parents
    decreases Steps(parents, l)
  {
    var p := parents[l];
    if p == ROOT || p !in gone then p
    else
      StepUp(parents, l);
      NearestKept(parents, gone, p)
  }

  /** The last label on the way up from `l` to its nearest kept ancestor. */
  ghost function Below(parents: Parents, gone: set<Label>, l: Label): Label
    requires AllReach(parents) && l in parents
    decreases Steps(parents, l)
  {
    var p := parents[l];
    if p == ROOT || p !in gone then l
    else
      StepUp(parents, l);
      Below(parents, gone, p)
  }

  /** Every gone row between `l` and its nearest kept ancestor passes its position on. */
  ghost predicate PassedOn(rows: Table, gone: set<Label>, l: Label)
    requires AllReach(ParentsOf(rows)) && l in rows
    decreases Steps(ParentsOf(rows), l)
  {
    var p := rows[l].parent;
    p == ROOT || p !in gone
    || (StepUp(ParentsOf(rows), l); p in rows && rows[p].passesOn && PassedOn(rows, gone, p))
  }

  /** The parent of `l` is gone and passes its position on. */
  predicate TakesOver(rows: Table, gone: set<Label>, l: Label)
    requires l in rows
  {
    var p := rows[l].parent;
    p != ROOT && p in gone && p in rows && rows[p].passesOn
  }

  /** `l` can end up with the position of `s`: that is `l` itself, or a gone row above it that passes its position on,
      and nothing is passed on to `s`. */
  ghost predicate IsSource(rows: Table, gone: set<Label>, s: Label, l: Label)
    requires AllReach(ParentsOf(rows)) && s in rows && l in rows
    decreases Steps(ParentsOf(rows), l)
  {
    if s == l then !TakesOver(rows, gone, s)
    else
      var p := rows[l].parent;
      p != ROOT && p in gone && rows[s].passesOn && (StepUp(ParentsOf(rows), l); IsSource(rows, gone, s, p))
  }

  /** A source is at or above the row. */
  lemma {:induction false} SourceIsAbove(rows: Table, gone: set<Label>, s: Label, l: Label)
    requires AllReach(ParentsOf(rows)) && s in rows && l in rows && IsSource(rows, gone, s, l)
    ensures Steps(ParentsOf(rows), s) <= Steps(ParentsOf(rows), l)
    decreases Steps(ParentsOf(rows), l)
  {
    if s != l {
      StepUp(ParentsOf(rows), l);
      SourceIsAbove(rows, gone, s, rows[l].parent);
    }
  }

  /** When `x` goes too, a row still has its source, unless `x` passes its own position on to it. */
  lemma {:induction false} SourceStays(rows: Table, gone: set<Label>, x: Label, s: Label, l: Label)
    requires AllReach(ParentsOf(rows)) && x in rows && s in rows && l in rows && IsSource(rows, gone, s, l)
    requires NearestKept(ParentsOf(rows), gone, l) == x ==> !rows[x].passesOn
    ensures IsSource(rows, gone + {x}, s, l)
    decreases Steps(ParentsOf(rows), l)
  {
    if s != l {
      StepUp(ParentsOf(rows), l);
      SourceStays(rows, gone, x, s, rows[l].parent);
    }
  }

  /** And then it has the source of `x`. */
  lemma {:induction false} SourceMovesDown(rows: Table, gone: set<Label>, x: Label, s: Label, l: Label)
    requires AllReach(ParentsOf(rows)) && x in rows && s in rows && l in rows && x !in gone
    requires NearestKept(ParentsOf(rows), gone, l) == x && rows[x].passesOn && IsSource(rows, gone, s, x)
    ensures IsSource(rows, gone + {x}, s, l)
    decreases Steps(ParentsOf(rows), l)
  {
    var ps := ParentsOf(rows);
    SourceIsAbove(rows, gone, s, x);
    KeptIsAbove(ps, gone, l);
    StepUp(ps, l);
    if ps[l] == x {
      AboveIsBlind(rows, gone, x, x);
      SourceStays(rows, gone, x, s, x);
    } else {
      SourceMovesDown(rows, gone, x, s, ps[l]);
    }
  }

  lemma {:induction false} KeptIsAbove(parents: Parents, gone: set<Label>, l: Label)
    requires AllReach(parents) && l in parents && NearestKept(parents, gone, l) != ROOT
    ensures NearestKept(parents, gone, l) in parents
    ensures Steps(parents, NearestKept(parents, gone, l)) < Steps(parents, l)
    decreases Steps(parents, l)
  {
    StepUp(parents, l);
    if parents[l] in gone {
      KeptIsAbove(parents, gone, parents[l]);
    }
  }

  /** When everything in between passes on, there is one source, the last row below the nearest kept ancestor. */
  lemma {:induction false} OnlySource(rows: Table, gone: set<Label>, s: Label, l: Label)
    requires AllReach(ParentsOf(rows)) && s in rows && l in rows && PassedOn(rows, gone, l)
    ensures IsSource(rows, gone, s, l) ==> s == Below(ParentsOf(rows), gone, l)
    decreases Steps(ParentsOf(rows), l)
  {
    var ps := ParentsOf(rows);
    if ps[l] != ROOT && ps[l] in gone {
      StepUp(ps, l);
      OnlySource(rows, gone, s, ps[l]);
    }
  }

  /** A row at or above `x` does not see whether `x` is gone. */
  lemma {:induction false} AboveIsBlind(rows: Table, gone: set<Label>, x: Label, l: Label)
    requires AllReach(ParentsOf(rows)) && x in rows && l in rows && x !in gone
    requires Steps(ParentsOf(rows), l) <= Steps(ParentsOf(rows), x)
    ensures var ps := ParentsOf(rows);
            && NearestKept(ps, gone, l) != x
            && NearestKept(ps, gone + {x}, l) == NearestKept(ps, gone, l)
            && Below(ps, gone + {x}, l) == Below(ps, gone, l)
            && (PassedOn(rows, gone + {x}, l) <==> PassedOn(rows, gone, l))
    decreases Steps(ParentsOf(rows), l)
  {
    var ps := ParentsOf(rows);
    if ps[l] != ROOT {
      StepUp(ps, l);
      AboveIsBlind(rows, gone, x, ps[l]);
    }
  }

  /** What one more gone row changes: only rows whose nearest kept ancestor it was. */
  lemma {:induction false} OneMoreGone(rows: Table, gone: set<Label>, x: Label, l: Label)
    requires AllReach(ParentsOf(rows)) && x in rows && l in rows && x !in gone
    ensures var ps := ParentsOf(rows);
            var hit := NearestKept(ps, gone, l) == x;
            && NearestKept(ps, gone + {x}, l) == NearestKept(ps, gone, if hit then x else l)
            && Below(ps, gone + {x}, l) == Below(ps, gone, if hit then x else l)
            && (PassedOn(rows, gone + {x}, l) ==> PassedOn(rows, gone, l))
            && (PassedOn(rows, gone + {x}, l) && hit ==> rows[x].passesOn && PassedOn(rows, gone, x))
    decreases Steps(ParentsOf(rows), l)
  {
    var ps := ParentsOf(rows);
    if ps[l] != ROOT {
      StepUp(ps, l);
      if ps[l] == x {
        AboveIsBlind(rows, gone, x, x);
      } else {
        OneMoreGone(rows, gone, x, ps[l]);
      }
    }
  }

  /** No row that is gone hung at the root, so nothing is moved up to the root. */
  lemma {:induction false} RootStaysApart(rows: Table, gone: set<Label>, l: Label)
    requires AllReach(ParentsOf(rows)) && l in rows
    requires forall g <- gone :: g in rows ==> rows[g].parent != ROOT
    ensures NearestKept(ParentsOf(rows), gone, l) == ROOT <==> rows[l].parent == ROOT
    decreases Steps(ParentsOf(rows), l)
  {
    var ps := ParentsOf(rows);
    if ps[l] != ROOT && ps[l] in gone {
      StepUp(ps, l);
      RootStaysApart(rows, gone, ps[l]);
    }
  }

  // ---------- Main result ----------

  /** `now` is `rows` with exactly `gone` taken out: survivors hang at their nearest surviving ancestor, keep everything
      else, and their position is that of one of their sources: of the last row below that ancestor whenever the rows
      in between pass it on, their own when none of them does, and else it depends on the order. */
  ghost predicate CutDown(rows: Table, gone: set<Label>, now: Table)
    requires AllReach(ParentsOf(rows))
  {
    && now.Keys == rows.Keys - gone
    && forall l <- now :: Survives(rows, gone, l, now[l])
  }

  ghost predicate Survives(rows: Table, gone: set<Label>, l: Label, row: Row)
    requires AllReach(ParentsOf(rows)) && l in rows
  {
    && row.parent == NearestKept(ParentsOf(rows), gone, l)
    && row.kind == rows[l].kind && row.serial == rows[l].serial && row.passesOn == rows[l].passesOn
    && (exists s {:trigger IsSource(rows, gone, s, l)} ::
          s in rows && IsSource(rows, gone, s, l) && row.position == rows[s].position)
    && (PassedOn(rows, gone, l) ==>
          Below(ParentsOf(rows), gone, l) in rows
          && row.position == rows[Below(ParentsOf(rows), gone, l)].position)
  }

  lemma SplicedCutsDown(rows: Table, gone: set<Label>, now: Table, x: Label)
    requires AllReach(ParentsOf(rows)) && CutDown(rows, gone, now) && x in now
    requires forall g <- gone :: g in rows ==> rows[g].parent != ROOT
    ensures CutDown(rows, gone + {x}, Spliced(now, x))
  {
    var next := Spliced(now, x);
    forall l | l in next ensures Survives(rows, gone + {x}, l, next[l]) {
      assert Survives(rows, gone, l, now[l]) && Survives(rows, gone, x, now[x]);
      OneMoreGone(rows, gone, x, l);
      var s := SourceAfter(rows, gone, now, x, l);
    }
  }

  lemma SourceAfter(rows: Table, gone: set<Label>, now: Table, x: Label, l: Label) returns (s: Label)
    requires AllReach(ParentsOf(rows)) && x in rows && l in rows && x !in gone && l != x && x in now && l in now
    requires Survives(rows, gone, l, now[l]) && Survives(rows, gone, x, now[x])
    ensures s in rows && IsSource(rows, gone + {x}, s, l) && Spliced(now, x)[l].position == rows[s].position
  {
    if NearestKept(ParentsOf(rows), gone, l) == x && rows[x].passesOn {
      s :| s in rows && IsSource(rows, gone, s, x) && now[x].position == rows[s].position;
      SourceMovesDown(rows, gone, x, s, l);
    } else {
      s :| s in rows && IsSource(rows, gone, s, l) && now[l].position == rows[s].position;
      SourceStays(rows, gone, x, s, l);
    }
  }

  /** The rows the cull takes out, told from the table it starts with. */
  function DoomedRows(rows: Table, visited: seq<Label>): set<Label> {
    set l | l in visited && l in rows && Doomed(rows[l])
  }

  /** What has been removed does not matter for whether a row is doomed. */
  lemma StillDoomed(rows: Table, gone: set<Label>, x: Label, row: Row)
    requires AllReach(ParentsOf(rows)) && x in rows && Survives(rows, gone, x, row)
    requires forall g <- gone :: g in rows ==> rows[g].parent != ROOT
    ensures Doomed(row) <==> Doomed(rows[x])
  {
    RootStaysApart(rows, gone, x);
  }

  /** The cull loop, in any order and whatever rows are useless: see CutDown. */
  lemma {:induction false} CullKeepsNearestAncestors(rows: Table, order: seq<Label>)
    requires AllReach(ParentsOf(rows))
    ensures CutDown(rows, DoomedRows(rows, order), Culled(rows, order))
  {
    if order == [] {
      NothingCulled(rows);
      assert DoomedRows(rows, order) == {};
    } else {
      var n := |order| - 1;
      CullKeepsNearestAncestors(rows, order[..n]);
      OneMoreDoomed(rows, order[..n], order[n]);
      assert order == order[..n] + [order[n]];
      OneMoreCulled(rows, DoomedRows(rows, order[..n]), Culled(rows, order[..n]), order[n]);
    }
  }

  lemma NothingCulled(rows: Table)
    requires AllReach(ParentsOf(rows))
    ensures CutDown(rows, {}, rows)
  {
    forall l | l in rows ensures Survives(rows, {}, l, rows[l]) {
      assert IsSource(rows, {}, l, l);
    }
  }

  lemma OneMoreDoomed(rows: Table, visited: seq<Label>, x: Label)
    ensures DoomedRows(rows, visited + [x])
         == DoomedRows(rows, visited) + if x in rows && Doomed(rows[x]) then {x} else {}
  {
  }

  lemma OneMoreCulled(rows: Table, gone: set<Label>, before: Table, x: Label)
    requires AllReach(ParentsOf(rows)) && CutDown(rows, gone, before)
    requires forall g <- gone :: g in rows && Doomed(rows[g])
    ensures CutDown(rows, gone + (if x in rows && Doomed(rows[x]) then {x} else {}),
                    if x in before && Doomed(before[x]) then Spliced(before, x) else before)
  {
    if x in before {
      StillDoomed(rows, gone, x, before[x]);
    }
    if x in before && Doomed(rows[x]) {
      SplicedCutsDown(rows, gone, before, x);
    } else {
      assert gone + (if x in rows && Doomed(rows[x]) then {x} else {}) == gone;
    }
  }

  /** Which entities the cull removes, told from their fields in the table it starts with: those it visits that are
      contained in something, have a serial field without a serial, and are no fan. */
  lemma CulledExactlyWhen(rows: Table, order: seq<Label>, l: Label)
    requires AllReach(ParentsOf(rows)) && l in rows
    ensures l !in Culled(rows, order) <==>
              l in order && rows[l].parent != "0" && rows[l].serial == Null && rows[l].kind != "fan"
    ensures l in Culled(rows, order) ==>
              Culled(rows, order)[l].serial == rows[l].serial && Culled(rows, order)[l].kind == rows[l].kind
  {
    CullKeepsNearestAncestors(rows, order);
    if l in Culled(rows, order) {
      assert Survives(rows, DoomedRows(rows, order), l, Culled(rows, order)[l]);
    }
  }

  /** A slot in a module in a chassis, of which the chassis alone stays and only the module passes its position on: a
      port in the slot gets the position of the module when the slot is removed first, and keeps its own when the
      module is. */
  lemma OrderDecidesPosition(rows: Table)
    requires rows.Keys == {"1", "2", "3", "4"} && rows["1"] == Row(ROOT, "chassis", Text("x"), false, 1)
    requires rows["2"] == Row("1", "module", Null, true, 2) && rows["3"] == Row("2", "slot", Null, false, 3)
    requires rows["4"] == Row("3", "port", Text("y"), false, 4)
    ensures "4" in Culled(rows, ["3", "2"]) && Culled(rows, ["3", "2"])["4"] == Row("1", "port", Text("y"), false, 2)
    ensures "4" in Culled(rows, ["2", "3"]) && Culled(rows, ["2", "3"])["4"] == Row("1", "port", Text("y"), false, 4)
  {
    CulledTwo(rows, "3", "2");
    CulledTwo(rows, "2", "3");
  }

  lemma CulledTwo(rows: Table, x: Label, y: Label)
    requires x in rows && Doomed(rows[x]) && y in rows && y != x && Doomed(Spliced(rows, x)[y])
    ensures Culled(rows, [x, y]) == Spliced(Spliced(rows, x), y)
  {
    assert [x, y][..1] == [x] && [x][..0] == [];
    assert Culled(rows, []) == rows;
    assert Culled(rows, [x]) == Spliced(rows, x);
  }

  // ---------- One regraft step ----------

  lemma {:induction false} SplicedReachesIn(rows: Table, x: Label, l: Label, n: nat)
    requires AllReach(ParentsOf(rows)) && x in rows && l in rows && l != x
    requires ReachesIn(ParentsOf(rows), ROOT, l, n)
    ensures ReachesIn(ParentsOf(Spliced(rows, x)), ROOT, l, n)
    decreases n
  {
    var ps, next := ParentsOf(rows), ParentsOf(Spliced(rows, x));
    if ps[l] != ROOT {
      if ps[l] != x {
        SplicedReachesIn(rows, x, ps[l], n - 1);
      } else if ps[x] != ROOT {
        StepUp(ps, l);
        StepUp(ps, x);
        assert ReachesIn(ps, ROOT, ps[x], n - 2);
        SplicedReachesIn(rows, x, ps[x], n - 2);
        ReachesInMonotone(next, ROOT, ps[x], n - 2, n - 1);
      }
    }
  }

  lemma SplicedStillReaches(rows: Table, x: Label)
    requires AllReach(ParentsOf(rows)) && x in rows
    ensures AllReach(ParentsOf(Spliced(rows, x)))
  {
    var ps, next := ParentsOf(rows), ParentsOf(Spliced(rows, x));
    forall l | l in next ensures Reaches(next, ROOT, l) {
      var n: nat :| ReachesIn(ps, ROOT, l, n);
      SplicedReachesIn(rows, x, l, n);
    }
  }

  /** Taking out one row keeps the ancestor relation among the others. */
  lemma {:induction false} SpliceKeepsAncestors(rows: Table, x: Label, a: Label, l: Label)
    requires AllReach(ParentsOf(rows)) && x in rows && l in rows && l != x && a != x && a != ROOT
    ensures AllReach(ParentsOf(Spliced(rows, x)))
    ensures IsAncestor(ParentsOf(Spliced(rows, x)), a, l) <==> IsAncestor(ParentsOf(rows), a, l)
    decreases Steps(ParentsOf(rows), l)
  {
    var ps, next := ParentsOf(rows), ParentsOf(Spliced(rows, x));
    SplicedStillReaches(rows, x);
    if ps[l] != ROOT {
      StepUp(ps, l);
      if ps[l] != x {
        SpliceKeepsAncestors(rows, x, a, ps[l]);
        StepUp(next, l);
      } else if ps[x] != ROOT {
        StepUp(ps, x);
        SpliceKeepsAncestors(rows, x, a, ps[x]);
        StepUp(next, l);
      }
    }
  }

  /** The culled table is again one in which every row reaches the root. */
  lemma {:induction false} CulledStillReaches(rows: Table, order: seq<Label>)
    requires AllReach(ParentsOf(rows))
    ensures AllReach(ParentsOf(Culled(rows, order)))
  {
    if order != [] {
      var n := |order| - 1;
      CulledStillReaches(rows, order[..n]);
      if order[n] in Culled(rows, order[..n]) {
        SplicedStillReaches(Culled(rows, order[..n]), order[n]);
      }
    }
  }
}
