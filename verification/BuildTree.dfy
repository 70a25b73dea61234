/**
 build_tree (lib/ptolemy/poller/driver.py:411-442): a table of parent pointers becomes a topology and
 some stray branches, and a bounded number of passes moves stray branches into the topology.
 */
module BuildTree {
  import opened ParentTable
  import opened EntityForest

  // ---------- Moving one branch, flatly ----------

  ghost function Limb(w: View, s: Label): set<Label> {
    set l | l in w.head && w.head[l] == s
  }

  ghost predicate InLimb(w: View, s: Label, here: Link) {
    here.Under? && here.parent in w.head && w.head[here.parent] == s
  }

  /** `v` with the branch of `w` topped by `s` hung under `p`. */
  ghost function Graft(v: View, w: View, s: Label, p: Label): View
    requires Aligned(v) && Aligned(w) && p in v.up
  {
    var all := v.up.Keys + Limb(w, s);
    View(map l | l in all :: if l in v.up then v.up[l] else if l == s then Under(p) else w.up[l],
         map l | l in all :: if l in v.up then v.head[l] else v.head[p],
         map l | l in all :: if l in v.up then v.depth[l] else w.depth[l] + v.depth[p] + 1,
         map l | l in all :: if l in v.up then v.at[l] else w.at[l],
         map b | b in v.owner.Keys + w.owner.Keys && (b in v.owner || InLimb(w, s, w.owner[b])) ::
           if b in v.owner then v.owner[b] else w.owner[b])
  }

  /** `w` without the branch topped by `s`. */
  ghost function Prune(w: View, s: Label): View
    requires Aligned(w)
  {
    var rest := w.up.Keys - Limb(w, s);
    View(map l | l in rest :: w.up[l], map l | l in rest :: w.head[l], map l | l in rest :: w.depth[l],
         map l | l in rest :: w.at[l], map b | b in w.owner && !InLimb(w, s, w.owner[b]) :: w.owner[b])
  }

  /** The dicts of the branch topped by `s`. */
  ghost function LimbDicts(w: View, s: Label): set<Branch> {
    set b | b in w.owner && InLimb(w, s, w.owner[b])
  }

  ghost predicate Apart(v: View, w: View) {
    v.up.Keys !! w.up.Keys && v.owner.Keys !! w.owner.Keys
  }

  lemma GraftHangs(v: View, w: View, s: Label, p: Label)
    requires WellHung(v) && WellHung(w) && Apart(v, w)
    requires p in v.up && s in w.up && w.up[s] == Top
    ensures WellHung(Graft(v, w, s, p))
  {
    var g := Graft(v, w, s, p);
    assert Hung(v, p);
    forall l | l in g.up ensures Hung(g, l) {
      if l in v.up {
        assert Hung(v, l);
      } else {
        assert Hung(w, l);
      }
    }
  }

  lemma PruneHangs(w: View, s: Label)
    requires WellHung(w)
    ensures WellHung(Prune(w, s))
  {
    var r := Prune(w, s);
    forall l | l in r.up ensures Hung(r, l) {
      assert Hung(w, l);
    }
  }

  /** A label of the branch hangs under `p` or inside the branch. */
  lemma LimbLinks(w: View, s: Label, c: Label)
    requires WellHung(w) && s in w.up && w.up[s] == Top && c in w.up
    ensures c in Limb(w, s) <==> c == s || InLimb(w, s, w.up[c])
  {
    assert Hung(w, s) && Hung(w, c);
  }

  /** The dict at `here` after the graft: the dict of `p` gains the branch, the other dicts of `v` stay. */
  lemma GraftKidsOutside(v: View, w: View, s: Label, p: Label, here: Link)
    requires WellHung(v) && WellHung(w) && Apart(v, w)
    requires p in v.up && s in w.up && w.up[s] == Top
    requires Exists(v, here)
    ensures KidsAt(Graft(v, w, s, p), here) ==
            if here == Under(p) then KidsAt(v, here)[s := w.at[s]] else KidsAt(v, here)
  {
    BranchNotHere(v, w, s, here);
  }

  lemma BranchNotHere(v: View, w: View, s: Label, here: Link)
    requires WellHung(v) && WellHung(w) && Apart(v, w) && s in w.up && w.up[s] == Top && Exists(v, here)
    ensures s in Limb(w, s) && forall c <- Limb(w, s) :: c != s ==> w.up[c] != here
  {
    assert Hung(w, s);
    forall c | c in Limb(w, s) && c != s ensures w.up[c] != here {
      LimbLinks(w, s, c);
    }
  }

  /** The dicts of the branch bring their kids along. */
  lemma GraftKidsInside(v: View, w: View, s: Label, p: Label, here: Link)
    requires WellHung(v) && WellHung(w) && Apart(v, w)
    requires p in v.up && s in w.up && w.up[s] == Top
    requires InLimb(w, s, here)
    ensures KidsAt(Graft(v, w, s, p), here) == KidsAt(w, here)
  {
    assert Hung(w, s);
    forall c | c in w.up && w.up[c] == here ensures c in Limb(w, s) && c != s {
      LimbLinks(w, s, c);
    }
    forall c | c in v.up ensures v.up[c] != here {
      assert Hung(v, c);
    }
  }

  lemma PruneKids(w: View, s: Label, here: Link)
    requires WellHung(w) && s in w.up && w.up[s] == Top
    requires Exists(w, here) && !InLimb(w, s, here)
    ensures KidsAt(Prune(w, s), here) ==
            if here == Top then KidsAt(w, here) - {s} else KidsAt(w, here)
  {
    assert Hung(w, s);
    forall c | c in w.up && w.up[c] == here ensures c in Limb(w, s) <==> here == Top && c == s {
      assert Hung(w, c);
    }
  }

  // ---------- build_tree ----------

  /** Two nested dicts that share nothing. */
  ghost predicate Disjoint(topology: Topology, strays: Topology)
    reads topology, strays
  {
    && topology.repr !! strays.repr
    && topology.view.up.Keys !! strays.view.up.Keys
  }

  lemma GraftLaid(v: View, vTop: Branch, w: View, wTop: Branch, s: Label, p: Label)
    requires Laid(v, vTop) && Laid(w, wTop) && Apart(v, w)
    requires p in v.up && s in w.up && w.up[s] == Top
    ensures Laid(Graft(v, w, s, p), vTop)
  {
    GraftHangs(v, w, s, p);
  }

  lemma PruneLaid(w: View, top: Branch, s: Label)
    requires Laid(w, top)
    ensures Laid(Prune(w, s), top)
  {
    PruneHangs(w, s);
  }

  /** The dicts after `t` has gained the branch are those of the grafted view. */
  lemma GraftedKids(v: View, vTop: Branch, w: View, wTop: Branch, s: Label, p: Label, b: Branch)
    requires Laid(v, vTop) && Laid(w, wTop) && Apart(v, w)
    requires p in v.up && s in w.up && w.up[s] == Top
    requires b in Graft(v, w, s, p).owner
    ensures KidsAt(Graft(v, w, s, p), Graft(v, w, s, p).owner[b]) ==
            if b == v.at[p] then KidsAt(v, Under(p))[s := w.at[s]]
            else if b in v.owner then KidsAt(v, v.owner[b])
            else KidsAt(w, w.owner[b])
  {
    assert Hung(v, p);
    if b in v.owner {
      GraftKidsOutside(v, w, s, p, v.owner[b]);
    } else {
      GraftKidsInside(v, w, s, p, w.owner[b]);
    }
  }

  /** t[s] = strays[s]: for a moment both nested dicts hold the branch. */
  method Hang(topology: Topology, strays: Topology, s: Label, t: Branch, ghost p: Label)
    requires topology.Valid() && strays.Valid() && Disjoint(topology, strays)
    requires s in strays.view.up && strays.view.up[s] == Top
    requires p in topology.view.up && t == topology.view.at[p]
    modifies topology, t
    ensures topology.Valid() && topology.repr == old(topology.repr) + LimbDicts(old(strays.view), s)
    ensures topology.view == Graft(old(topology.view), old(strays.view), s, p)
  {
    ghost var v, w := topology.view, strays.view;
    assert t in v.owner && v.owner[t] == Under(p) by {
      assert Hung(v, p);
    }
    assert strays.top.kids == KidsAt(w, Top) && Apart(v, w);
    t.kids := t.kids[s := strays.top.kids[s]];
    topology.view, topology.repr := Graft(v, w, s, p), topology.repr + LimbDicts(w, s);
    assert topology.Valid() by {
      GraftLaid(v, topology.top, w, strays.top, s, p);
      forall b | b in topology.view.owner ensures b.kids == KidsAt(topology.view, topology.view.owner[b]) {
        GraftedKids(v, topology.top, w, strays.top, s, p, b);
      }
    }
  }

  /** del strays[s] */
  method Drop(strays: Topology, s: Label)
    requires strays.Valid() && s in strays.view.up && strays.view.up[s] == Top
    modifies strays, strays.top
    ensures strays.Valid() && strays.view == Prune(old(strays.view), s)
    ensures strays.repr == old(strays.repr) - LimbDicts(old(strays.view), s)
  {
    ghost var w := strays.view;
    PruneLaid(w, strays.top, s);
    strays.top.kids := strays.top.kids - {s};
    strays.view, strays.repr := Prune(w, s), strays.repr - LimbDicts(w, s);
    forall b | b in strays.view.owner ensures b.kids == KidsAt(strays.view, w.owner[b]) {
      PruneKids(w, s, w.owner[b]);
    }
  }

  method MoveBranch(topology: Topology, strays: Topology, s: Label, t: Branch, ghost p: Label)
    requires topology.Valid() && strays.Valid() && Disjoint(topology, strays)
    requires s in strays.view.up && strays.view.up[s] == Top
    requires p in topology.view.up && t == topology.view.at[p]
    modifies topology, t, strays, strays.top
    ensures topology.Valid() && strays.Valid() && Disjoint(topology, strays)
    ensures topology.view == Graft(old(topology.view), old(strays.view), s, p)
    ensures strays.view == Prune(old(strays.view), s)
    ensures topology.repr + strays.repr == old(topology.repr + strays.repr)
  {
    assert t in topology.repr by {
      assert Hung(topology.view, p);
    }
    Hang(topology, strays, s, t, p);
    Drop(strays, s);
  }

  // ---------- The loops ----------

  /** The two nested dicts hold the labels of `st`, branch by branch. */
  ghost predicate Tracks(topology: Topology, strays: Topology, st: Split)
    reads topology, strays
  {
    && topology.view.up.Keys == st.placed
    && strays.view.head == st.head
  }

  /** Every edge is a parent pointer of the table. */
  ghost predicate EdgesAgree(up: map<Label, Link>, parents: Parents) {
    forall l <- up :: l in parents && (up[l].Under? ==> up[l].parent == parents[l])
  }

  /** Every top-level label points at the root. */
  ghost predicate TopsAgree(up: map<Label, Link>, parents: Parents, root: Label) {
    forall l <- up :: l in parents && (up[l].Top? ==> parents[l] == root)
  }

  lemma AgreeWithOneMore(up: map<Label, Link>, parents: Parents, root: Label, l: Label, link: Link)
    requires EdgesAgree(up, parents) && l in parents && (link.Under? ==> link.parent == parents[l])
    ensures EdgesAgree(up[l := link], parents)
    ensures TopsAgree(up, parents, root) && (link.Top? ==> parents[l] == root) ==>
              TopsAgree(up[l := link], parents, root)
  {
  }

  lemma {:induction false} HeadIsTop(v: View, l: Label)
    requires WellHung(v) && l in v.up
    ensures v.head[l] in v.up && v.up[v.head[l]] == Top
    decreases v.depth[l]
  {
    assert Hung(v, l);
    if v.up[l].Under? {
      HeadIsTop(v, v.up[l].parent);
    }
  }

  /** The keys of the outermost dict of strays are the tops of the stray branches. */
  lemma TopKeys(strays: Topology, st: Split)
    requires strays.Valid() && strays.view.head == st.head
    ensures strays.top.kids.Keys == Tops(st)
    ensures forall s <- strays.top.kids :: s in strays.view.up && strays.view.up[s] == Top
  {
    forall s | s in strays.view.up ensures strays.view.up[s] == Top <==> s in Tops(st) {
      assert Hung(strays.view, s);
      HeadIsTop(strays.view, s);
    }
  }

  /** What holds between any two steps of build_tree: the nested dicts track `st`, edges are parent
      pointers, and top-level labels point at the root unless orphans are welcome. */
  ghost predicate Built(topology: Topology, strays: Topology, parents: Parents, root: Label, orphans: bool, st: Split)
    reads topology, strays, topology.repr, strays.repr
  {
    && topology.Valid() && strays.Valid() && Disjoint(topology, strays)
    && Tracks(topology, strays, st)
    && EdgesAgree(topology.view.up, parents) && EdgesAgree(strays.view.up, parents)
    && (orphans || TopsAgree(topology.view.up, parents, root))
  }

  /** The body of the first loop. */
  method PlaceRow(topology: Topology, strays: Topology, parents: Parents, root: Label, addIfOrphan: bool,
                  l: Label, ghost st: Split)
    requires Built(topology, strays, parents, root, addIfOrphan, st)
    requires l in parents && l !in st.placed + st.head.Keys && st.head.Keys == st.steps.Keys
    modifies topology.repr, strays.repr
    ensures Built(topology, strays, parents, root, addIfOrphan, Place(parents, root, addIfOrphan, st, l))
    ensures fresh((topology.repr + strays.repr) - old(topology.repr + strays.repr))
  {
    var p := parents[l];
    var forceAdd := addIfOrphan || p == root;
    AgreeWithOneMore(topology.view.up, parents, root, l, if p in topology.view.up then Under(p) else Top);
    AgreeWithOneMore(strays.view.up, parents, root, l, if p in strays.view.up then Under(p) else Top);
    var added := topology.Attach(l, p, forceAdd);
    if !added {
      added := strays.Attach(l, p, true);
    } else {
      assert strays.view == old(strays.view) && strays.repr == old(strays.repr);
    }
  }

  lemma FirstLoopStep(parents: Parents, root: Label, orphans: bool, order: seq<Label>, i: nat)
    requires forall l <- order :: l in parents
    requires forall i, j | 0 <= i < j < |order| :: order[i] != order[j]
    requires i < |order|
    ensures var st := FirstLoop(parents, root, orphans, order[..i]);
            && order[i] !in st.placed + st.head.Keys && st.head.Keys == st.steps.Keys
            && FirstLoop(parents, root, orphans, order[..i + 1]) == Place(parents, root, orphans, st, order[i])
  {
    FirstLoopShape(parents, root, orphans, order[..i]);
    assert order[..i + 1][..i] == order[..i];
  }

  method EmptyTrees(ghost parents: Parents, ghost root: Label, ghost orphans: bool)
    returns (topology: Topology, strays: Topology)
    ensures fresh(topology.repr + strays.repr)
    ensures Built(topology, strays, parents, root, orphans, FirstLoop(parents, root, orphans, []))
  {
    topology := new Topology();
    strays := new Topology();
  }

  /** The first loop of build_tree, over the rows in any order. */
  method FirstLoopOver(parents: Parents, order: seq<Label>, root: Label, addIfOrphan: bool)
    returns (topology: Topology, strays: Topology)
    requires forall l <- order :: l in parents
    requires forall i, j | 0 <= i < j < |order| :: order[i] != order[j]
    ensures fresh(topology.repr + strays.repr)
    ensures Built(topology, strays, parents, root, addIfOrphan, FirstLoop(parents, root, addIfOrphan, order))
  {
    topology, strays := EmptyTrees(parents, root, addIfOrphan);
    ghost var st := FirstLoop(parents, root, addIfOrphan, []);
    assert order[..0] == [];
    for i := 0 to |order|
      invariant fresh(topology.repr + strays.repr)
      invariant st == FirstLoop(parents, root, addIfOrphan, order[..i])
      invariant Built(topology, strays, parents, root, addIfOrphan, st)
    {
      FirstLoopStep(parents, root, addIfOrphan, order, i);
      PlaceRow(topology, strays, parents, root, addIfOrphan, order[i], st);
      st := Place(parents, root, addIfOrphan, st, order[i]);
    }
    assert order[..|order|] == order;
  }

  lemma GraftAgrees(v: View, w: View, parents: Parents, root: Label, st: Split, s: Label)
    requires WellHung(v) && WellHung(w) && v.up.Keys !! w.up.Keys
    requires v.up.Keys == st.placed && w.head == st.head
    requires EdgesAgree(v.up, parents) && EdgesAgree(w.up, parents)
    requires s in Tops(st) && s in parents && parents[s] in v.up && w.up[s] == Top
    ensures var g, r := Graft(v, w, s, parents[s]), Prune(w, s);
            && g.up.Keys == Adopt(parents, st, s).placed && r.head == Adopt(parents, st, s).head
            && EdgesAgree(g.up, parents) && EdgesAgree(r.up, parents)
            && (TopsAgree(v.up, parents, root) ==> TopsAgree(g.up, parents, root))
  {
    GraftTracks(v, w, parents, st, s);
    GraftedEdges(v, w, parents, s);
    GraftedTops(v, w, parents, root, s);
  }

  /** The labels after a graft are those the abstract pass places, and the branch is gone from the strays. */
  lemma GraftTracks(v: View, w: View, parents: Parents, st: Split, s: Label)
    requires Aligned(v) && Aligned(w) && v.up.Keys == st.placed && w.head == st.head
    requires s in Tops(st) && s in parents && parents[s] in v.up
    ensures Graft(v, w, s, parents[s]).up.Keys == Adopt(parents, st, s).placed
    ensures Prune(w, s).head == Adopt(parents, st, s).head
  {
    assert Limb(w, s) == BranchOf(st, s);
  }

  /** The links after a graft are parent pointers. */
  lemma GraftedEdges(v: View, w: View, parents: Parents, s: Label)
    requires WellHung(v) && WellHung(w) && EdgesAgree(v.up, parents) && EdgesAgree(w.up, parents)
    requires s in w.up && s in parents && parents[s] in v.up
    ensures EdgesAgree(Graft(v, w, s, parents[s]).up, parents) && EdgesAgree(Prune(w, s).up, parents)
  {
  }

  /** The tops after a graft are those of before. */
  lemma GraftedTops(v: View, w: View, parents: Parents, root: Label, s: Label)
    requires WellHung(v) && WellHung(w) && v.up.Keys !! w.up.Keys
    requires EdgesAgree(v.up, parents) && EdgesAgree(w.up, parents)
    requires s in w.up && s in parents && parents[s] in v.up && w.up[s] == Top
    ensures TopsAgree(v.up, parents, root) ==> TopsAgree(Graft(v, w, s, parents[s]).up, parents, root)
  {
    var g := Graft(v, w, s, parents[s]);
    forall l | l in g.up && l !in v.up && l != s ensures g.up[l].Under? {
      assert Hung(w, l);
    }
  }

  /** The body of a repair pass, for one stray top. */
  method AdoptTop(topology: Topology, strays: Topology, parents: Parents, ghost root: Label, ghost orphans: bool,
                  s: Label, ghost st: Split)
    requires Built(topology, strays, parents, root, orphans, st) && s in Tops(st)
    modifies topology.repr, strays.repr
    ensures Built(topology, strays, parents, root, orphans, Adopt(parents, st, s))
    ensures topology.repr + strays.repr == old(topology.repr + strays.repr)
  {
    TopKeys(strays, st);
    assert s in strays.top.kids;
    var t := topology.WalkTo(parents[s], topology.top, Top);
    if t != null {
      assert t in topology.repr by {
        assert Hung(topology.view, parents[s]);
      }
      GraftAgrees(topology.view, strays.view, parents, root, st, s);
      MoveBranch(topology, strays, s, t, parents[s]);
    }
  }

  lemma PassStep(parents: Parents, st: Split, visited: seq<Label>, s: Label)
    ensures Pass(parents, st, visited + [s]) == Adopt(parents, Pass(parents, st, visited), s)
    ensures Tops(Pass(parents, st, visited)) - {s} <= Tops(Pass(parents, st, visited + [s]))
  {
    assert (visited + [s])[..|visited|] == visited;
  }

  /** One repair pass: visits the keys of `strays` as they were at its start, in any order. */
  method RepairPass(topology: Topology, strays: Topology, parents: Parents, ghost root: Label, ghost orphans: bool,
                    ghost st: Split)
    returns (ghost visited: seq<Label>)
    requires Built(topology, strays, parents, root, orphans, st)
    modifies topology.repr, strays.repr
    ensures Built(topology, strays, parents, root, orphans, Pass(parents, st, visited))
    ensures forall s <- Tops(st) :: s in visited
    ensures topology.repr + strays.repr == old(topology.repr + strays.repr)
  {
    TopKeys(strays, st);
    var todo := strays.top.kids.Keys;
    visited := [];
    ghost var now := st;
    while todo != {}
      invariant now == Pass(parents, st, visited)
      invariant Built(topology, strays, parents, root, orphans, now)
      invariant todo <= Tops(now)
      invariant forall s <- Tops(st) :: s in visited || s in todo
      invariant topology.repr + strays.repr == old(topology.repr + strays.repr)
      decreases todo
    {
      var s :| s in todo;
      AdoptTop(topology, strays, parents, root, orphans, s, now);
      PassStep(parents, st, visited, s);
      now := Adopt(parents, now, s);
      todo, visited := todo - {s}, visited + [s];
    }
  }

  /** build_tree.  The labels placed are those of `FirstLoop` and then of the passes in `orders`; edges
      are parent pointers and top-level labels point at the root. */
  method BuildTree(parents: Parents, order: seq<Label>, root: Label, addIfOrphan: bool, iterations: nat)
    returns (topology: Topology, strays: Topology, ghost orders: seq<seq<Label>>)
    requires (set l | l in order) == parents.Keys
    requires forall i, j | 0 <= i < j < |order| :: order[i] != order[j]
    ensures fresh(topology.repr + strays.repr)
    ensures var st := FirstLoop(parents, root, addIfOrphan, order);
            && Built(topology, strays, parents, root, addIfOrphan, Passes(parents, st, orders))
            && Thorough(parents, st, orders)
            && |orders| <= iterations
            && (|orders| < iterations ==> Passes(parents, st, orders).head == map[])
  {
    topology, strays := FirstLoopOver(parents, order, root, addIfOrphan);
    ghost var st := FirstLoop(parents, root, addIfOrphan, order);
    orders := [];
    ghost var now := st;
    var left := iterations;
    while strays.top.kids != map[] && left > 0
      invariant fresh(topology.repr + strays.repr)
      invariant now == Passes(parents, st, orders)
      invariant Built(topology, strays, parents, root, addIfOrphan, now)
      invariant Thorough(parents, st, orders)
      invariant |orders| + left == iterations
      decreases left
    {
      ghost var visited := RepairPass(topology, strays, parents, root, addIfOrphan, now);
      PassesStep(parents, st, orders, visited);
      now, orders := Pass(parents, now, visited), orders + [visited];
      left := left - 1;
    }
    if strays.top.kids == map[] {
      NothingStray(strays, now);
    }
  }

  lemma PassesStep(parents: Parents, st: Split, orders: seq<seq<Label>>, visited: seq<Label>)
    requires Thorough(parents, st, orders)
    requires forall s <- Tops(Passes(parents, st, orders)) :: s in visited
    ensures Thorough(parents, st, orders + [visited])
    ensures Passes(parents, st, orders + [visited]) == Pass(parents, Passes(parents, st, orders), visited)
  {
    var longer := orders + [visited];
    assert longer[..|orders|] == orders;
    forall i | 0 <= i < |longer| ensures forall s <- Tops(Passes(parents, st, longer[..i])) :: s in longer[i] {
      assert longer[..i] == orders[..i];
      assert orders[..|orders|] == orders;
    }
  }

  lemma StrayHasTop(strays: Topology, l: Label)
    requires strays.Valid() && l in strays.view.up
    ensures strays.view.head[l] in strays.top.kids
  {
    HeadIsTop(strays.view, l);
    assert strays.view.head[l] in KidsAt(strays.view, Top);
  }

  /** Nothing is stray as soon as the tree of strays has no key at the top. */
  lemma NothingStray(strays: Topology, st: Split)
    requires strays.Valid() && strays.view.head == st.head && strays.top.kids == map[]
    ensures st.head == map[]
  {
    if l :| l in st.head {
      StrayHasTop(strays, l);
      assert false;
    }
  }
}
