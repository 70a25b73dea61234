/**
 A device's entity table next to its topology (lib/ptolemy/poller/driver.py:355-390, 455-559): regraft
 changes both in place, and the cull loop keeps them in step.
 */
module EntityInventory {
  import opened ParentTable
  import opened EntityForest
  import opened EntityTable
  import opened BuildTree

  // ---------- Flat views of the three changes regraft makes to the nested dict ----------

  /** The dict of `c` hangs at `link` instead. */
  ghost function Lift(v: View, c: Label, link: Link): View {
    v.(up := v.up[c := link])
  }

  /** A label without kids is taken out. */
  ghost function Pluck(v: View, x: Label): View
    requires Aligned(v) && x in v.up
  {
    View(map l | l in v.up && l != x :: v.up[l], map l | l in v.up && l != x :: v.head[l],
         map l | l in v.up && l != x :: v.depth[l], map l | l in v.up && l != x :: v.at[l],
         map b | b in v.owner && b != v.at[x] :: v.owner[b])
  }

  /** `c` hangs under `x`, and `x` under `p`. */
  ghost predicate CanLift(v: View, top: Branch, x: Label, p: Label, c: Label) {
    && Laid(v, top)
    && x in v.up && v.up[x] == Under(p) && p in v.up
    && c in v.up && v.up[c] == Under(x)
  }

  lemma LiftLaid(v: View, top: Branch, x: Label, p: Label, c: Label)
    requires CanLift(v, top, x, p, c)
    ensures Laid(Lift(v, c, Under(p)), top)
  {
    var w := Lift(v, c, Under(p));
    assert Hung(v, x);
    forall l | l in w.up ensures Hung(w, l) {
      assert Hung(v, l);
    }
  }

  lemma LiftKids(v: View, x: Label, p: Label, c: Label, here: Link)
    requires Aligned(v) && c in v.up && v.up[c] == Under(x) && p != x
    ensures KidsAt(Lift(v, c, Under(p)), here) ==
            if here == Under(p) then KidsAt(v, here)[c := v.at[c]]
            else if here == Under(x) then KidsAt(v, here) - {c}
            else KidsAt(v, here)
  {
  }

  lemma PluckLaid(v: View, top: Branch, x: Label)
    requires Laid(v, top) && x in v.up && KidsAt(v, Under(x)) == map[]
    ensures Laid(Pluck(v, x), top)
  {
    var w := Pluck(v, x);
    assert Hung(v, x);
    forall l | l in w.up ensures Hung(w, l) {
      assert Hung(v, l);
      assert v.up[l] == Under(x) <==> l in KidsAt(v, Under(x));
    }
  }

  lemma PluckKids(v: View, top: Branch, x: Label, b: Branch)
    requires Laid(v, top) && x in v.up && b in Pluck(v, x).owner
    ensures var w := Pluck(v, x);
            KidsAt(w, w.owner[b]) ==
            if v.owner[b] == v.up[x] then KidsAt(v, v.up[x]) - {x} else KidsAt(v, v.owner[b])
  {
    assert Hung(v, x);
  }

  /** `c` and everything inside its dict. */
  ghost function LimbAt(v: View, c: Label): set<Label>
    requires WellHung(v)
  {
    set l | l in v.up && (l == c || Inside(v, l, Under(c)))
  }

  /** The view without `c` and what is inside its dict. */
  ghost function Lop(v: View, c: Label): View
    requires WellHung(v)
  {
    var rest := v.up.Keys - LimbAt(v, c);
    View(map l | l in rest :: v.up[l], map l | l in rest :: v.head[l], map l | l in rest :: v.depth[l],
         map l | l in rest :: v.at[l],
         map b | b in v.owner && (v.owner[b].Under? ==> v.owner[b].parent in rest) :: v.owner[b])
  }

  /** What hangs inside the dict of `c` hangs under a label of the same limb. */
  lemma LimbIsClosed(v: View, c: Label, l: Label)
    requires WellHung(v) && c in v.up && l in v.up && l != c
    ensures l in LimbAt(v, c) <==> v.up[l].Under? && v.up[l].parent in LimbAt(v, c)
  {
    assert Hung(v, l);
  }

  lemma LopLaid(v: View, top: Branch, c: Label)
    requires Laid(v, top) && c in v.up
    ensures Laid(Lop(v, c), top)
  {
    var w := Lop(v, c);
    forall l | l in w.up ensures Hung(w, l) {
      assert Hung(v, l);
      LimbIsClosed(v, c, l);
    }
  }

  lemma LopKids(v: View, top: Branch, c: Label, b: Branch)
    requires Laid(v, top) && c in v.up && b in Lop(v, c).owner
    ensures Aligned(Lop(v, c))
    ensures var w := Lop(v, c);
            KidsAt(w, w.owner[b]) ==
            if v.owner[b] == v.up[c] then KidsAt(v, v.up[c]) - {c} else KidsAt(v, v.owner[b])
  {
    forall l | l in v.up && v.up[l] == v.owner[b] && l != c ensures l !in LimbAt(v, c) {
      LimbIsClosed(v, c, l);
    }
  }

  /** Lopping one child of `x` spares `x` and its other children. */
  lemma LopKeeps(v: View, x: Label, c: Label, others: set<Label>)
    requires WellHung(v) && x in v.up && v.up[x] == Top && c in v.up && v.up[c] == Under(x)
    requires forall d <- others :: d in v.up && v.up[d] == Under(x) && d != c
    ensures x in Lop(v, c).up && forall d <- others :: d in Lop(v, c).up
  {
    assert x != c;
    LimbIsClosed(v, c, x);
    forall d | d in others ensures d !in LimbAt(v, c) {
      LimbIsClosed(v, c, d);
    }
  }

  // ---------- The statements of regraft on the nested dict ----------

  /** Once the two dicts have changed, the nested dict is the lifted one. */
  lemma PromotedIsValid(topology: Topology, v: View, x: Label, p: Label, c: Label)
    requires CanLift(v, topology.top, x, p, c) && topology.view == Lift(v, c, Under(p))
    requires topology in topology.repr && v.owner.Keys <= topology.repr
    requires v.at[p].kids == KidsAt(v, Under(p))[c := v.at[c]]
    requires v.at[x].kids == KidsAt(v, Under(x)) - {c}
    requires forall b <- v.owner :: b != v.at[p] && b != v.at[x] ==> b.kids == KidsAt(v, v.owner[b])
    ensures topology.Valid()
  {
    LiftLaid(v, topology.top, x, p, c);
    assert Hung(v, x) && Hung(v, p);
    forall b | b in topology.view.owner ensures b.kids == KidsAt(topology.view, topology.view.owner[b]) {
      LiftKids(v, x, p, c, v.owner[b]);
    }
  }

  /** parent[c] = this[c].copy(); del this[c].  Nothing else refers to the dict that is copied, so the
      dict itself moves. */
  method Promote(topology: Topology, x: Label, self: Branch, p: Label, parent: Branch, c: Label)
    requires topology.Valid()
    requires x in topology.view.up && topology.view.up[x] == Under(p) && self == topology.view.at[x]
    requires p in topology.view.up && parent == topology.view.at[p]
    requires c in topology.view.up && topology.view.up[c] == Under(x)
    modifies topology, self, parent
    ensures topology.Valid() && topology.repr == old(topology.repr)
    ensures topology.view == Lift(old(topology.view), c, Under(p))
  {
    ghost var v := topology.view;
    assert v.owner[self] == Under(x) && v.owner[parent] == Under(p) && p != x by {
      assert Hung(v, x) && Hung(v, p);
    }
    assert c in KidsAt(v, Under(x));
    parent.kids := parent.kids[c := self.kids[c]];
    self.kids := self.kids - {c};
    topology.view := Lift(v, c, Under(p));
    PromotedIsValid(topology, v, x, p, c);
  }

  /** Once the dict of its parent has lost `x`, the nested dict is the plucked one. */
  lemma PluckedIsValid(topology: Topology, v: View, x: Label, parent: Branch)
    requires Laid(v, topology.top) && x in v.up && KidsAt(v, Under(x)) == map[]
    requires topology.view == Pluck(v, x)
    requires topology in topology.repr && v.owner.Keys <= topology.repr
    requires parent in v.owner && v.owner[parent] == v.up[x] && parent.kids == KidsAt(v, v.up[x]) - {x}
    requires forall b <- v.owner :: b != parent ==> b.kids == KidsAt(v, v.owner[b])
    ensures topology.Valid()
  {
    PluckLaid(v, topology.top, x);
    forall b | b in topology.view.owner ensures b.kids == KidsAt(topology.view, topology.view.owner[b]) {
      PluckKids(v, topology.top, x, b);
    }
  }

  /** del parent[x], once nothing hangs under `x` */
  method Remove(topology: Topology, x: Label, parent: Branch)
    requires topology.Valid() && x in topology.view.up && KidsAt(topology.view, Under(x)) == map[]
    requires Exists(topology.view, topology.view.up[x]) && parent == topology.DictAt(topology.view.up[x])
    modifies topology, parent
    ensures topology.Valid() && topology.repr == old(topology.repr)
    ensures topology.view == Pluck(old(topology.view), x)
  {
    ghost var v := topology.view;
    assert parent in v.owner && v.owner[parent] == v.up[x] by {
      assert v.up[x].Under? ==> Hung(v, v.up[x].parent);
    }
    parent.kids := parent.kids - {x};
    topology.view := Pluck(v, x);
    PluckedIsValid(topology, v, x, parent);
  }

  /** del this[c] with nothing to take the branch */
  method Discard(topology: Topology, x: Label, self: Branch, c: Label)
    requires topology.Valid() && x in topology.view.up && self == topology.view.at[x]
    requires c in topology.view.up && topology.view.up[c] == Under(x)
    modifies topology, self
    ensures topology.Valid() && topology.repr == old(topology.repr)
    ensures topology.view == Lop(old(topology.view), c)
  {
    ghost var v := topology.view;
    assert self in v.owner && v.owner[self] == Under(x) by {
      assert Hung(v, x) && Hung(v, c);
    }
    self.kids := self.kids - {c};
    topology.view := Lop(v, c);
    assert topology.Valid() by {
      LopLaid(v, topology.top, c);
      forall b | b in topology.view.owner ensures b.kids == KidsAt(topology.view, topology.view.owner[b]) {
        LopKids(v, topology.top, c, b);
      }
    }
  }

  // ---------- Table and topology together ----------

  /** The links a table asks for. */
  ghost function LinksOf(rows: Table): map<Label, Link> {
    map l | l in rows :: if rows[l].parent == ROOT then Top else Under(rows[l].parent)
  }

  /** The table when the children in `done` have moved from `x` to its parent. */
  ghost function RowsMidway(rows: Table, x: Label, done: set<Label>): Table
    requires x in rows
  {
    map l | l in rows :: if l in done then Repointed(rows, x)[l] else rows[l]
  }

  /** The links when the labels in `done` hang under `p`. */
  ghost function LinksMidway(up: map<Label, Link>, p: Label, done: set<Label>): map<Label, Link> {
    map l | l in up :: if l in done then Under(p) else up[l]
  }

  ghost function Moved(rows: Table, x: Label, c: Label): Row
    requires x in rows && c in rows
  {
    rows[c].(parent := rows[x].parent, position := if rows[x].passesOn then rows[x].position else rows[c].position)
  }

  /** The rows whose labels are in the tree. */
  ghost function Hanging(rows: Table, labels: set<Label>): (r: Table)
    ensures r.Keys == rows.Keys * labels
  {
    map l | l in rows && l in labels :: rows[l]
  }

  ghost function ChildrenIn(rows: Table, x: Label): set<Label> {
    set c | c in rows && rows[c].parent == x
  }

  /** regraft on the whole table, of which the rows in `labels` hang in the tree: only their parents change. */
  ghost function Regrafted(rows: Table, x: Label, labels: set<Label>): Table
    requires x in rows
  {
    RowsMidway(rows, x, ChildrenIn(Hanging(rows, labels), x))
  }

  lemma OneMoreMoved(rows: Table, up: map<Label, Link>, x: Label, p: Label, all: set<Label>, todo: set<Label>, c: Label)
    requires x in rows && x !in all && c in rows && rows[c].parent == x && c in up && c in todo && todo <= all
    ensures var mid := RowsMidway(rows, x, all - todo);
            mid[c := Moved(mid, x, c)] == RowsMidway(rows, x, all - (todo - {c}))
    ensures LinksMidway(up, p, all - todo)[c := Under(p)] == LinksMidway(up, p, all - (todo - {c}))
  {
    assert all - (todo - {c}) == (all - todo) + {c};
  }

  lemma NothingMoved(rows: Table, up: map<Label, Link>, x: Label, p: Label, all: set<Label>)
    requires x in rows
    ensures RowsMidway(rows, x, all - all) == rows && LinksMidway(up, p, all - all) == up
    ensures all - {} == all
  {
  }

  /** What regraft does to the rows in the tree, and that it leaves the others. */
  lemma RegraftedParts(rows: Table, x: Label, labels: set<Label>)
    requires x in rows && labels <= rows.Keys
    ensures Regrafted(rows, x, labels) - labels == rows - labels
    ensures x in labels ==> Hanging(Regrafted(rows, x, labels), labels) == Repointed(Hanging(rows, labels), x)
    ensures ChildrenIn(Hanging(rows, labels), x) == {} ==> Regrafted(rows, x, labels) == rows
  {
  }

  lemma AllMoved(hanging: Table, x: Label, v: View)
    requires x in hanging && ROOT !in hanging && hanging[x].parent != ROOT && hanging[x].parent != x
    requires Aligned(v) && v.up == LinksMidway(LinksOf(hanging), hanging[x].parent, ChildrenIn(hanging, x))
    ensures KidsAt(v, Under(x)) == map[]
    ensures Pluck(v, x).up == LinksOf(Spliced(hanging, x))
  {
    forall l | l in v.up ensures v.up[l] != Under(x) {
      assert l in hanging;
    }
    SameLinks(Pluck(v, x).up, LinksOf(Spliced(hanging, x)));
  }

  lemma SameLinks(a: map<Label, Link>, b: map<Label, Link>)
    requires a.Keys == b.Keys && forall l <- a :: a[l] == b[l]
    ensures a == b
  {
  }

  // ---------- What is inside a dict ----------

  /** `w` is `v` without some labels, and without nothing in between the others. */
  ghost predicate Thinned(v: View, w: View) {
    && WellHung(v) && WellHung(w) && w.up.Keys <= v.up.Keys
    && (forall l <- w.up :: w.up[l] == v.up[l])
    && (forall l, k {:trigger Inside(w, l, Under(k))} {:trigger Inside(v, l, Under(k))} ::
          l in w.up ==> (Inside(w, l, Under(k)) <==> Inside(v, l, Under(k))))
  }

  lemma {:induction false} LopInside(v: View, top: Branch, c: Label, l: Label, k: Label)
    requires Laid(v, top) && c in v.up && l in Lop(v, c).up && WellHung(Lop(v, c))
    ensures Inside(Lop(v, c), l, Under(k)) <==> Inside(v, l, Under(k))
    decreases v.depth[l]
  {
    var w := Lop(v, c);
    assert Hung(v, l) && Hung(w, l);
    if v.up[l] != Under(k) && v.up[l].Under? {
      LopInside(v, top, c, v.up[l].parent, k);
    }
  }

  lemma LopThins(v: View, w: View, top: Branch, c: Label)
    requires Thinned(v, w) && Laid(w, top) && c in w.up
    ensures Thinned(v, Lop(w, c))
    ensures Lop(w, c).up.Keys == w.up.Keys - set l | l in w.up && (l == c || Inside(v, l, Under(c)))
  {
    LopLaid(w, top, c);
    forall l, k | l in Lop(w, c).up ensures Inside(Lop(w, c), l, Under(k)) <==> Inside(v, l, Under(k)) {
      LopInside(w, top, c, l, k);
    }
  }

  /** The labels strictly inside the dict of `x`. */
  ghost function InsideOf(v: View, x: Label): set<Label>
    requires WellHung(v)
  {
    set l | l in v.up && Inside(v, l, Under(x))
  }

  /** The labels in the limbs of the given labels. */
  ghost function Limbs(v: View, tops: set<Label>): set<Label>
    requires WellHung(v)
  {
    set l, c | c in tops && l in v.up && (l == c || Inside(v, l, Under(c))) :: l
  }

  /** Inside the dict of `x` are the limbs of its children. */
  lemma InsideIsLimbs(v: View, x: Label, all: set<Label>)
    requires WellHung(v) && all == KidsAt(v, Under(x)).Keys
    ensures Limbs(v, all) == InsideOf(v, x)
  {
    forall l | l in InsideOf(v, x) ensures l in Limbs(v, all) {
      var k := InsideStartsAtAKey(v, l, Under(x));
      assert k in all;
    }
    forall l | l in Limbs(v, all) ensures l in InsideOf(v, x) {
      var c :| c in all && (l == c || Inside(v, l, Under(c)));
      assert Hung(v, c);
      if l != c {
        InsideAKeyIsInside(v, l, c);
      }
    }
  }

  /** Something is inside the dict of `x` exactly when it has a child in the tree. */
  lemma NoneInside(v: View, rows: Table, x: Label)
    requires WellHung(v) && v.up.Keys <= rows.Keys && v.up == LinksOf(Hanging(rows, v.up.Keys)) && x != ROOT
    ensures InsideOf(v, x) == {} <==> ChildrenIn(Hanging(rows, v.up.Keys), x) == {}
  {
    InsideIsLimbs(v, x, KidsAt(v, Under(x)).Keys);
    assert KidsAt(v, Under(x)).Keys == ChildrenIn(Hanging(rows, v.up.Keys), x);
  }

  /** What is left of the tree when everything inside the dict of `x` is lost is as the table says. */
  lemma DroppedInStep(rows: Table, v: View, x: Label, rows2: Table, w: View)
    requires WellHung(v) && v.up.Keys <= rows.Keys && v.up == LinksOf(Hanging(rows, v.up.Keys))
    requires x in rows && x != ROOT
    requires rows2 == Regrafted(rows, x, v.up.Keys) && w.up == v.up - InsideOf(v, x)
    ensures w.up == LinksOf(Hanging(rows2, w.up.Keys)) && w.up.Keys <= rows2.Keys
  {
    var before, after := LinksOf(Hanging(rows, v.up.Keys)), LinksOf(Hanging(rows2, w.up.Keys));
    forall l | l in w.up ensures rows2[l] == rows[l] && after[l] == before[l] {
      ChildIsInside(v, rows, x, l);
    }
    SameLinks(w.up, after);
  }

  lemma ChildIsInside(v: View, rows: Table, x: Label, l: Label)
    requires WellHung(v) && v.up.Keys <= rows.Keys && v.up == LinksOf(Hanging(rows, v.up.Keys)) && x != ROOT
    ensures l in ChildrenIn(Hanging(rows, v.up.Keys), x) ==> l in InsideOf(v, x)
  {
    if l in ChildrenIn(Hanging(rows, v.up.Keys), x) {
      assert Hung(v, l) && v.up[l] == Under(x);
    }
  }

  class Inventory {
    var rows: Table
    const topology: Topology

    /** The topology is a tree of dicts, apart from this object. */
    ghost predicate Sound()
      reads this, topology, topology.repr
    {
      this !in topology.repr && topology.Valid()
    }

    /** What hangs in the tree hangs there as the table says. */
    ghost predicate InStep()
      reads this, topology
    {
      && ROOT !in rows && topology.view.up.Keys <= rows.Keys
      && topology.view.up == LinksOf(OnTree())
    }

    /** The rows of the table that hang in the tree. */
    ghost function OnTree(): Table
      reads this, topology
    {
      Hanging(rows, topology.view.up.Keys)
    }

    constructor (rows: Table, topology: Topology)
      requires topology.Valid()
      ensures this.rows == rows && this.topology == topology
    {
      this.rows, this.topology := rows, topology;
    }

    /** The part of regraft that handles one child. */
    method MoveChild(x: Label, self: Branch, parent: Branch?, c: Label)
      requires Sound() && x in rows && c in rows
      requires x in topology.view.up && self == topology.view.at[x]
      requires c in topology.view.up && topology.view.up[c] == Under(x)
      requires parent != null ==> topology.view.up[x] == Under(rows[x].parent) && rows[x].parent in topology.view.up
                                  && parent == topology.view.at[rows[x].parent]
      modifies this, topology.repr
      ensures Sound() && topology.repr == old(topology.repr)
      ensures rows == old(rows)[c := Moved(old(rows), x, c)]
      ensures topology.view == if parent != null then Lift(old(topology.view), c, Under(old(rows)[x].parent))
                               else Lop(old(topology.view), c)
    {
      assert self in topology.repr && (parent != null ==> parent in topology.repr) by {
        assert Hung(topology.view, x);
        assert parent != null ==> Hung(topology.view, rows[x].parent);
      }
      var row := rows[c].(parent := rows[x].parent);
      if rows[x].passesOn {
        row := row.(position := rows[x].position);
      }
      rows := rows[c := row];
      if parent != null {
        Promote(topology, x, self, rows[x].parent, parent, c);
      } else {
        Discard(topology, x, self, c);
      }
    }

    /** regraft.  The children of `x` in the tree move to its parent; a row that is not in the tree has none.  Unless
        `x` hangs at the root, the tree is then spliced as the table is once the row of `x` is deleted as well.  At the
        root, `x` stays in the tree and everything inside its dict is lost to it; the tree is still as the table says,
        but it lacks the rows below `x`.  So the other rows all stay in the tree exactly when `x` does not hang at the
        root or has no child. */
    method Regraft(x: Label)
      requires Sound() && InStep() && x in rows
      modifies this, topology.repr
      ensures Sound() && topology.repr == old(topology.repr)
      ensures rows == Regrafted(old(rows), x, old(topology.view.up.Keys))
      ensures x !in old(topology.view.up) ==> rows == old(rows) && topology.view == old(topology.view)
      ensures x in old(topology.view.up) ==>
                (topology.view.up == LinksOf(Spliced(old(OnTree()), x)) <==> old(rows)[x].parent != ROOT)
      ensures x in old(topology.view.up) && old(rows)[x].parent == ROOT ==>
                topology.view.up == old(topology.view.up) - InsideOf(old(topology.view), x) && InStep()
      ensures x in old(topology.view.up) ==>
                (old(topology.view.up).Keys - {x} <= topology.view.up.Keys <==>
                 old(rows)[x].parent != ROOT || ChildrenIn(old(OnTree()), x) == {})
    {
      ghost var rows0, labels := rows, topology.view.up.Keys;
      var p := rows[x].parent;
      var self := topology.WalkTo(x, topology.top, Top);
      var parent := topology.WalkTo(p, topology.top, Top);
      RegraftedParts(rows0, x, labels);
      if self != null {
        assert Hung(topology.view, x);
        assert parent != null <==> p != ROOT;
        if parent != null {
          RegraftUnder(x, self, p, parent);
        } else {
          ghost var v0 := topology.view;
          DropChildren(x, self);
          NoneInside(v0, rows0, x);
          DroppedInStep(rows0, v0, x, rows, topology.view);
        }
      } else {
        NoChildren(topology, rows, x);
      }
    }

    /** regraft when the parent of `x` is in the tree */
    method RegraftUnder(x: Label, self: Branch, p: Label, parent: Branch)
      requires Sound() && InStep() && x in rows && rows[x].parent == p && p != ROOT
      requires x in topology.view.at && self == topology.view.at[x]
      requires p in topology.view.at && parent == topology.view.at[p]
      modifies this, topology.repr
      ensures Sound() && topology.repr == old(topology.repr)
      ensures rows == Regrafted(old(rows), x, old(topology.view.up.Keys))
      ensures topology.view.up == LinksOf(Spliced(old(OnTree()), x))
    {
      assert parent in topology.repr && p != x by {
        assert Hung(topology.view, x) && Hung(topology.view, p);
      }
      MoveChildren(x, self, p, parent);
      AllMoved(old(OnTree()), x, topology.view);
      Remove(topology, x, parent);
    }

    method MoveChildren(x: Label, self: Branch, p: Label, parent: Branch)
      requires Sound() && InStep() && x in rows && rows[x].parent == p && p != ROOT
      requires x in topology.view.at && self == topology.view.at[x]
      requires p in topology.view.at && parent == topology.view.at[p]
      modifies this, topology.repr
      ensures Sound() && topology.repr == old(topology.repr)
      ensures rows == Regrafted(old(rows), x, old(topology.view.up.Keys))
      ensures topology.view.up == LinksMidway(LinksOf(old(OnTree())), p, ChildrenIn(old(OnTree()), x))
      ensures topology.view == old(topology.view).(up := topology.view.up)
    {
      ghost var rows0, up0 := rows, topology.view.up;
      assert self.kids == KidsAt(topology.view, Under(x)) && parent in topology.repr && p != x by {
        assert Hung(topology.view, x) && Hung(topology.view, p);
      }
      ghost var all := ChildrenIn(OnTree(), x);
      assert x !in all && p !in all by {
        assert Hung(topology.view, x) && Hung(topology.view, p);
      }
      var todo := self.kids.Keys;
      assert todo == all;
      NothingMoved(rows0, up0, x, p, all);
      while todo != {}
        invariant Sound() && topology.repr == old(topology.repr)
        invariant rows == RowsMidway(rows0, x, all - todo)
        invariant topology.view == old(topology.view).(up := LinksMidway(up0, p, all - todo))
        invariant todo <= all
        decreases todo
      {
        var c :| c in todo;
        OneMoreMoved(rows0, up0, x, p, all, todo, c);
        MoveChild(x, self, parent, c);
        todo := todo - {c};
      }
    }

    /** regraft when the parent of `x` is not in the tree: everything inside the dict of `x`, and nothing
        else, is lost to the tree. */
    method DropChildren(x: Label, self: Branch)
      requires Sound() && InStep() && x in rows && rows[x].parent == ROOT
      requires x in topology.view.at && self == topology.view.at[x]
      modifies this, topology.repr
      ensures Sound() && topology.repr == old(topology.repr)
      ensures rows == Regrafted(old(rows), x, old(topology.view.up.Keys))
      ensures topology.view.up == old(topology.view.up) - InsideOf(old(topology.view), x)
      ensures x in topology.view.up
    {
      ghost var rows0, v0 := rows, topology.view;
      ghost var all := ChildrenIn(OnTree(), x);
      assert self.kids == KidsAt(v0, Under(x)) && x !in all by {
        assert Hung(v0, x);
      }
      var todo := self.kids.Keys;
      assert todo == all;
      NothingMoved(rows0, v0.up, x, ROOT, all);
      while todo != {}
        invariant Sound() && topology.repr == old(topology.repr)
        invariant rows == RowsMidway(rows0, x, all - todo)
        invariant x in topology.view.up && topology.view.up[x] == Top && self == topology.view.at[x]
        invariant forall c <- todo :: c in topology.view.up && topology.view.up[c] == Under(x)
        invariant todo <= all
        invariant Thinned(v0, topology.view) && topology.view.up.Keys == v0.up.Keys - Limbs(v0, all - todo)
        decreases todo
      {
        var c :| c in todo;
        OneMoreMoved(rows0, v0.up, x, ROOT, all, todo, c);
        LopKeeps(topology.view, x, c, todo - {c});
        LopThins(v0, topology.view, topology.top, c);
        OneMoreLimb(v0, topology.view.up.Keys, all, todo, c);
        MoveChild(x, self, null, c);
        todo := todo - {c};
      }
      InsideIsLimbs(v0, x, all);
      assert all - todo == all;
      SameLinks(topology.view.up, v0.up - InsideOf(v0, x));
    }

    /** The body of the cull loop, for one row. */
    method CullRow(l: Label)
      requires Sound() && InStep()
      modifies this, topology.repr
      ensures Sound() && InStep() && topology.repr == old(topology.repr)
      ensures OnTree() == CulledHanging(old(rows), old(topology.view.up.Keys), l)
      ensures rows == OnTree()
                      + (old(rows - topology.view.up.Keys)
                         - (if l in old(rows) && Doomed(old(rows)[l]) then {l} else {}))
      ensures topology.view.up.Keys <= old(topology.view.up.Keys)
      ensures CulledFrom(old(rows), [l], rows)
    {
      ghost var rows0, up0 := rows, topology.view.up;
      if l in rows && rows[l].parent != ROOT && Useless(rows[l]) {
        if l !in topology.view.up {
          NoChildren(topology, rows, l);
        }
        Regraft(l);
        rows := rows - {l};
        CulledOne(rows0, up0, topology.view.up, l);
      } else {
        WholeTable(rows, up0.Keys);
      }
      RowIsCulled(rows0, up0.Keys, l, rows);
    }

    /** The cull loop of post_normalise_entities, over the keys in the given order.  The rows in the tree are
        culled as the table alone would be; of the others the doomed ones are deleted. */
    method Cull(order: seq<Label>)
      requires Sound() && InStep()
      modifies this, topology.repr
      ensures Sound() && InStep() && topology.repr == old(topology.repr)
      ensures OnTree() == Culled(old(OnTree()), order)
      ensures rows == OnTree() + Left(old(rows - topology.view.up.Keys), order)
      ensures topology.view.up.Keys <= old(topology.view.up.Keys)
      ensures CulledFrom(old(rows), order, rows)
    {
      ghost var rows0, hanging, loose := rows, OnTree(), rows - topology.view.up.Keys;
      BuiltTableReaches(rows, topology);
      WholeTable(rows, topology.view.up.Keys);
      for i := 0 to |order|
        invariant Sound() && InStep() && topology.repr == old(topology.repr)
        invariant OnTree() == Culled(hanging, order[..i])
        invariant rows == OnTree() + Left(loose, order[..i])
        invariant topology.view.up.Keys <= hanging.Keys
      {
        OneMoreLeft(rows, hanging, loose, order, i, topology.view.up.Keys);
        CullRow(order[i]);
      }
      assert order[..|order|] == order;
      forall l ensures l in rows <==> l in rows0 && !(l in order && rows0[l].parent != "0" && rows0[l].serial == Null
                                                      && rows0[l].kind != "fan")
      {
        if l in hanging {
          CulledExactlyWhen(hanging, order, l);
        }
      }
    }
  }

  /** The rows that are left after a cull, told from their fields: of those visited all but the ones that are contained
      in something, have a serial field without a serial, and are no fan. */
  ghost predicate CulledFrom(rows: Table, order: seq<Label>, now: Table) {
    forall l :: l in now <==>
      l in rows && !(l in order && rows[l].parent != "0" && rows[l].serial == Null && rows[l].kind != "fan")
  }

  lemma RowIsCulled(rows: Table, labels: set<Label>, l: Label, now: Table)
    requires now == CulledHanging(rows, labels, l)
                    + (rows - labels - (if l in rows && Doomed(rows[l]) then {l} else {}))
    ensures CulledFrom(rows, [l], now)
  {
  }

  /** The rows in the tree after the cull loop has visited `l`. */
  ghost function CulledHanging(rows: Table, labels: set<Label>, l: Label): Table {
    if l in rows && l in labels && Doomed(rows[l]) then Spliced(Hanging(rows, labels), l) else Hanging(rows, labels)
  }

  /** The rows that are not doomed among those visited. */
  ghost function Left(loose: Table, visited: seq<Label>): Table {
    loose - DoomedRows(loose, visited)
  }

  lemma WholeTable(rows: Table, labels: set<Label>)
    requires labels <= rows.Keys
    ensures rows == Hanging(rows, labels) + Left(rows - labels, [])
    ensures Hanging(rows, labels).Keys == labels
  {
  }

  /** What one more visit means for the two parts of the table. */
  lemma OneMoreLeft(rows: Table, hanging: Table, loose: Table, order: seq<Label>, i: nat, labels: set<Label>)
    requires i < |order| && hanging.Keys !! loose.Keys && labels <= hanging.Keys && labels <= rows.Keys
    requires Hanging(rows, labels) == Culled(hanging, order[..i])
    requires rows == Hanging(rows, labels) + Left(loose, order[..i])
    ensures var l := order[i];
            && Left(loose, order[..i + 1])
               == Left(loose, order[..i]) - (if l in rows && Doomed(rows[l]) then {l} else {})
            && Culled(hanging, order[..i + 1]) == CulledHanging(rows, labels, l)
            && rows - labels == Left(loose, order[..i])
  {
    var l := order[i];
    assert order[..i + 1][..i] == order[..i];
    assert rows - labels == Left(loose, order[..i]);
    LeftStep(loose, order, i);
    assert l in Left(loose, order[..i]) ==> rows[l] == loose[l];
    assert l in labels ==> l !in loose;
  }

  lemma LeftStep(loose: Table, order: seq<Label>, i: nat)
    requires i < |order|
    ensures Left(loose, order[..i + 1])
            == Left(loose, order[..i]) - (if order[i] in loose && Doomed(loose[order[i]]) then {order[i]} else {})
  {
    assert order[..i + 1] == order[..i] + [order[i]];
    assert DoomedRows(loose, order[..i + 1])
        == DoomedRows(loose, order[..i]) + if order[i] in loose && Doomed(loose[order[i]]) then {order[i]} else {};
  }

  /** regraft and the deletion of one row, on the two parts of the table. */
  lemma CulledOne(rows: Table, up: map<Label, Link>, up2: map<Label, Link>, l: Label)
    requires up.Keys <= rows.Keys && l in rows && Doomed(rows[l]) && up == LinksOf(Hanging(rows, up.Keys))
    requires if l in up then up2 == LinksOf(Spliced(Hanging(rows, up.Keys), l)) else up2 == up
    requires l !in up ==> ChildrenIn(Hanging(rows, up.Keys), l) == {}
    ensures var now := Regrafted(rows, l, up.Keys) - {l};
            && up2.Keys == up.Keys - {l}
            && Hanging(now, up2.Keys) == CulledHanging(rows, up.Keys, l)
            && up2 == LinksOf(Hanging(now, up2.Keys))
            && now.Keys == rows.Keys - {l}
            && now == Hanging(now, up2.Keys) + (rows - up.Keys - {l})
  {
    var labels, now := up.Keys, Regrafted(rows, l, up.Keys) - {l};
    RegraftedParts(rows, l, labels);
    HangingWithout(rows, labels, l);
    assert up2.Keys == labels - {l};
  }

  lemma HangingWithout(rows: Table, labels: set<Label>, l: Label)
    requires labels <= rows.Keys && l in rows && Doomed(rows[l])
    requires l !in labels ==> ChildrenIn(Hanging(rows, labels), l) == {}
    ensures var now := Regrafted(rows, l, labels) - {l};
            && Hanging(now, labels - {l}) == CulledHanging(rows, labels, l)
            && now == Hanging(now, labels - {l}) + (rows - labels - {l})
  {
    RegraftedParts(rows, l, labels);
  }

  lemma OneMoreLimb(v: View, now: set<Label>, all: set<Label>, todo: set<Label>, c: Label)
    requires WellHung(v) && c in todo && todo <= all && now == v.up.Keys - Limbs(v, all - todo)
    ensures now - (set l | l in now && (l == c || Inside(v, l, Under(c)))) == v.up.Keys - Limbs(v, all - (todo - {c}))
  {
    assert all - (todo - {c}) == (all - todo) + {c};
  }

  /** No row in the tree has a parent that is not in the tree, but for the root. */
  lemma NoChildren(topology: Topology, rows: Table, x: Label)
    requires topology.Valid() && x !in topology.view.up && x in rows && ROOT !in rows
    requires topology.view.up == LinksOf(Hanging(rows, topology.view.up.Keys))
    ensures ChildrenIn(Hanging(rows, topology.view.up.Keys), x) == {}
  {
    forall c | c in topology.view.up ensures rows[c].parent != x {
      assert Hung(topology.view, c);
    }
  }

  lemma InStepFromBuild(rows: Table, topology: Topology)
    requires topology.view.up.Keys <= rows.Keys
    requires EdgesAgree(topology.view.up, ParentsOf(rows)) && TopsAgree(topology.view.up, ParentsOf(rows), ROOT)
    requires topology.Valid() && ROOT !in rows
    ensures topology.view.up == LinksOf(Hanging(rows, topology.view.up.Keys))
  {
    var up, links := topology.view.up, LinksOf(Hanging(rows, topology.view.up.Keys));
    forall l | l in up ensures up[l] == links[l] {
      assert Hung(topology.view, l);
    }
    SameLinks(up, links);
  }

  /** A row in the tree reaches the root through rows in the tree. */
  lemma {:induction false} HangingReaches(v: View, hanging: Table, l: Label)
    requires WellHung(v) && v.up == LinksOf(hanging) && l in v.up
    ensures ReachesIn(ParentsOf(hanging), ROOT, l, v.depth[l])
    decreases v.depth[l]
  {
    assert Hung(v, l);
    if v.up[l].Under? {
      HangingReaches(v, hanging, v.up[l].parent);
      ReachesInMonotone(ParentsOf(hanging), ROOT, v.up[l].parent, v.depth[v.up[l].parent], v.depth[l] - 1);
    }
  }

  /** The number of repair passes build_tree makes unless told otherwise. */
  const ITERATIONS := 2

  /** No stray branch is out of reach of the default number of passes. */
  ghost predicate ShallowStrays(rows: Table, order: seq<Label>)
    requires forall l <- order :: l in rows
  {
    var st := FirstLoop(ParentsOf(rows), ROOT, false, order);
    forall s <- Tops(st) :: RankBelow(ParentsOf(rows), st, ITERATIONS, s)
  }

  /** The labels in the topology once the passes have been made. */
  ghost function PlacedBy(rows: Table, order: seq<Label>, orders: seq<seq<Label>>): set<Label>
    requires forall l <- order :: l in rows
  {
    Passes(ParentsOf(rows), FirstLoop(ParentsOf(rows), ROOT, false, order), orders).placed
  }

  /** The passes are ones that build_tree can make: they go over all the strays there are, and end when there
      are none or their number is used up. */
  ghost predicate Possible(rows: Table, order: seq<Label>, orders: seq<seq<Label>>)
    requires forall l <- order :: l in rows
  {
    var st := FirstLoop(ParentsOf(rows), ROOT, false, order);
    && Thorough(ParentsOf(rows), st, orders)
    && |orders| <= ITERATIONS
    && (|orders| < ITERATIONS ==> Passes(ParentsOf(rows), st, orders).head == map[])
  }

  lemma ShallowStraysArePlaced(rows: Table, order: seq<Label>, orders: seq<seq<Label>>)
    requires (set l | l in order) == rows.Keys
    requires forall i, j | 0 <= i < j < |order| :: order[i] != order[j]
    requires ShallowStrays(rows, order) && Possible(rows, order, orders)
    ensures PlacedBy(rows, order, orders) == rows.Keys
  {
    var ps := ParentsOf(rows);
    var st := FirstLoop(ps, ROOT, false, order);
    var last := Passes(ps, st, orders);
    FirstLoopShape(ps, ROOT, false, order);
    PassesDescend(ps, st, orders);
    forall l | l in rows && last.head != map[] ensures l in last.placed {
      if l in st.head {
        assert Linked(ps, ROOT, st, l);
        PassesPlaceByRank(ps, ROOT, st, orders, st.head[l]);
        assert l in BranchOf(st, st.head[l]);
      }
    }
  }

  /** The exact condition: the tree holds every row, in whatever order the strays are visited, if and only if no
      stray branch has rank two or more. */
  lemma WholeExactlyWhenShallow(rows: Table, order: seq<Label>)
    requires (set l | l in order) == rows.Keys
    requires forall i, j | 0 <= i < j < |order| :: order[i] != order[j]
    ensures ShallowStrays(rows, order) <==>
              forall orders: seq<seq<Label>> {:trigger Possible(rows, order, orders)} ::
                Possible(rows, order, orders) ==> PlacedBy(rows, order, orders) == rows.Keys
  {
    forall orders: seq<seq<Label>> | Possible(rows, order, orders) && ShallowStrays(rows, order)
      ensures PlacedBy(rows, order, orders) == rows.Keys
    {
      ShallowStraysArePlaced(rows, order, orders);
    }
    var st := FirstLoop(ParentsOf(rows), ROOT, false, order);
    FirstLoopShape(ParentsOf(rows), ROOT, false, order);
    var worst := WorstPasses(ParentsOf(rows), ROOT, st, ITERATIONS);
    assert Possible(rows, order, worst);
    forall s | s in Tops(st) && PlacedBy(rows, order, worst) == rows.Keys
      ensures RankBelow(ParentsOf(rows), st, ITERATIONS, s)
    {
      assert st.head[s] == s && s in rows;
    }
  }

  lemma AllDoomed(hanging: Table, order: seq<Label>)
    requires hanging.Keys <= set l | l in order
    ensures DoomedRows(hanging, order) == (set l | l in hanging && Doomed(hanging[l]))
  {
    forall l | l in hanging ensures l in order {
      assert l in set m | m in order;
    }
  }

  /** The table once it is built into a tree of the rows `placed` and culled: of the rows in the tree the useful
      ones are left, every one under its nearest surviving ancestor; of the others the doomed ones are deleted
      and the rest stay as they were. */
  ghost predicate Normalised(rows: Table, placed: set<Label>, onTree: Table, now: Table) {
    && placed <= rows.Keys && AllReach(ParentsOf(Hanging(rows, placed)))
    && CutDown(Hanging(rows, placed), DoomedIn(Hanging(rows, placed)), onTree)
    && AllReach(ParentsOf(onTree))
    && now == onTree + (rows - placed - DoomedIn(rows - placed))
  }

  function DoomedIn(rows: Table): set<Label> {
    set l | l in rows && Doomed(rows[l])
  }

  lemma CulledIsNormalised(rows: Table, placed: set<Label>, order: seq<Label>)
    requires (set l | l in order) == rows.Keys && placed <= rows.Keys
    requires AllReach(ParentsOf(Hanging(rows, placed)))
    ensures var onTree := Culled(Hanging(rows, placed), order);
            Normalised(rows, placed, onTree, onTree + Left(rows - placed, order))
  {
    CullKeepsNearestAncestors(Hanging(rows, placed), order);
    CulledStillReaches(Hanging(rows, placed), order);
    AllDoomed(Hanging(rows, placed), order);
    AllDoomed(rows - placed, order);
  }

  lemma BuiltTableReaches(rows: Table, topology: Topology)
    requires topology.Valid() && ROOT !in rows && topology.view.up.Keys <= rows.Keys
    requires topology.view.up == LinksOf(Hanging(rows, topology.view.up.Keys))
    ensures AllReach(ParentsOf(Hanging(rows, topology.view.up.Keys)))
  {
    var hanging := Hanging(rows, topology.view.up.Keys);
    forall l | l in hanging ensures Reaches(ParentsOf(hanging), ROOT, l) {
      HangingReaches(topology.view, hanging, l);
    }
  }

  /** The tree-shaping part of post_normalise_entities: build, then cull, for any table.  What the tree holds it
      holds as the table says; it holds every row if no stray branch is too deep. */
  method Normalise(rows: Table, order: seq<Label>) returns (inventory: Inventory, ghost placed: set<Label>)
    requires ROOT !in rows
    requires (set l | l in order) == rows.Keys
    requires forall i, j | 0 <= i < j < |order| :: order[i] != order[j]
    ensures fresh(inventory) && inventory.Sound() && inventory.InStep()
    ensures Normalised(rows, placed, inventory.OnTree(), inventory.rows)
    ensures exists orders :: Possible(rows, order, orders) && placed == PlacedBy(rows, order, orders)
    ensures ShallowStrays(rows, order) ==> placed == rows.Keys
    ensures forall l :: l in inventory.rows <==>
              l in rows && !(rows[l].parent != "0" && rows[l].serial == Null && rows[l].kind != "fan")
  {
    var topology, strays, orders := BuildTree.BuildTree(ParentsOf(rows), order, ROOT, false, ITERATIONS);
    placed := topology.view.up.Keys;
    assert Possible(rows, order, orders) && placed == PlacedBy(rows, order, orders);
    if ShallowStrays(rows, order) {
      ShallowStraysArePlaced(rows, order, orders);
    }
    InStepFromBuild(rows, topology);
    BuiltTableReaches(rows, topology);
    inventory := new Inventory(rows, topology);
    inventory.Cull(order);
    CulledIsNormalised(rows, placed, order);
    forall l | l in rows ensures l in order {
      assert l in set m | m in order;
    }
  }
}
