/**
 The arithmetic of parent pointers behind the entity tree (lib/ptolemy/poller/driver.py).

 A table gives every row the label of its parent.  This module says which rows hang, directly or
 not, from the root; which labels `build_tree` places in its topology, loop by loop; and what is
 left of the pointers when rows are spliced out.  The heap objects are in EntityForest.
 */
module ParentTable {
  type Label = string

  type Parents = map<Label, Label>

  // ---------- Rows that reach the root ----------

  /** The chain of parent pointers from `l` ends at the root after at most `n` rows of the table. */
  ghost predicate ReachesIn(parents: Parents, root: Label, l: Label, n: nat)
    decreases n
  {
    && l in parents
    && (parents[l] == root || (n > 0 && ReachesIn(parents, root, parents[l], n - 1)))
  }

  ghost predicate Reaches(parents: Parents, root: Label, l: Label) {
    exists n: nat :: ReachesIn(parents, root, l, n)
  }

  lemma {:induction false} ReachesInMonotone(parents: Parents, root: Label, l: Label, n: nat, m: nat)
    requires n <= m && ReachesIn(parents, root, l, n)
    ensures ReachesIn(parents, root, l, m)
    decreases n
  {
    if parents[l] != root {
      ReachesInMonotone(parents, root, parents[l], n - 1, m - 1);
    }
  }

  // ---------- The loops of build_tree, on labels ----------

  /** The labels in the topology; for every stray label the top of the stray branch it is in, and how
      many rows it is below that top. */
  datatype Split = Split(placed: set<Label>, head: map<Label, Label>, steps: map<Label, nat>)

  /** The labels of the stray branch topped by `s`. */
  function BranchOf(st: Split, s: Label): set<Label> {
    set l | l in st.head && st.head[l] == s
  }

  function Tops(st: Split): set<Label> {
    set s | s in st.head && st.head[s] == s
  }

  /** One turn of the first loop: `l` joins the topology or a stray branch. */
  function Place(parents: Parents, root: Label, orphans: bool, st: Split, l: Label): Split
    requires l in parents
  {
    var p := parents[l];
    if orphans || p == root || p in st.placed then
      Split(st.placed + {l}, st.head, st.steps)
    else if p in st.head && p in st.steps then
      Split(st.placed, st.head[l := st.head[p]], st.steps[l := st.steps[p] + 1])
    else
      Split(st.placed, st.head[l := l], st.steps[l := 0])
  }

  /** The first loop over the rows in the given order. */
  function FirstLoop(parents: Parents, root: Label, orphans: bool, order: seq<Label>): Split
    requires forall l <- order :: l in parents
  {
    if order == [] then Split({}, map[], map[])
    else
      var n := |order| - 1;
      Place(parents, root, orphans, FirstLoop(parents, root, orphans, order[..n]), order[n])
  }

  /** Moves the branch topped by `s` if its parent is in the topology. */
  function Adopt(parents: Parents, st: Split, s: Label): Split {
    if s in Tops(st) && s in parents && parents[s] in st.placed then
      Split(st.placed + BranchOf(st, s), st.head - BranchOf(st, s), st.steps - BranchOf(st, s))
    else st
  }

  /** One repair pass over the given tops. */
  function Pass(parents: Parents, st: Split, order: seq<Label>): Split {
    if order == [] then st
    else Adopt(parents, Pass(parents, st, order[..|order| - 1]), order[|order| - 1])
  }

  function Passes(parents: Parents, st: Split, orders: seq<seq<Label>>): Split {
    if orders == [] then st
    else Pass(parents, Passes(parents, st, orders[..|orders| - 1]), orders[|orders| - 1])
  }

  /** Every pass goes over all the tops that are stray when it starts. */
  ghost predicate Thorough(parents: Parents, st: Split, orders: seq<seq<Label>>) {
    forall i | 0 <= i < |orders| ::
      forall s <- Tops(Passes(parents, st, orders[..i])) :: s in orders[i]
  }

  /** A stray row does not point at the root, and below a top its parent is nearer to the same top. */
  ghost predicate Linked(parents: Parents, root: Label, st: Split, l: Label)
    requires l in st.head && st.head.Keys == st.steps.Keys
  {
    && l in parents && parents[l] != root
    && st.head[l] in st.head && st.head[st.head[l]] == st.head[l]
    && (st.head[l] != l ==>
          && parents[l] in st.head && st.head[parents[l]] == st.head[l]
          && st.steps[parents[l]] < st.steps[l])
  }

  /** Labels are either placed or stray, and a stray branch is a finite chain of parent pointers up to
      its top. */
  ghost predicate Shape(parents: Parents, root: Label, st: Split) {
    && st.placed !! st.head.Keys
    && st.head.Keys == st.steps.Keys
    && forall l {:trigger Linked(parents, root, st, l)} :: l in st.head ==> Linked(parents, root, st, l)
  }

  lemma PlaceShape(parents: Parents, root: Label, orphans: bool, st: Split, l: Label)
    requires Shape(parents, root, st) && l in parents && l !in st.placed + st.head.Keys
    ensures var next := Place(parents, root, orphans, st, l);
            && Shape(parents, root, next)
            && next.placed + next.head.Keys == st.placed + st.head.Keys + {l}
            && (orphans ==> next.head == st.head)
  {
    var next := Place(parents, root, orphans, st, l);
    forall k | k in next.head ensures Linked(parents, root, next, k) {
      if k != l {
        assert Linked(parents, root, st, k);
      } else if parents[l] in st.head {
        assert Linked(parents, root, st, parents[l]);
      }
    }
  }

  /** Conservation: every row is either placed or stray after the first loop, never both. */
  lemma {:induction false} FirstLoopShape(parents: Parents, root: Label, orphans: bool, order: seq<Label>)
    requires forall l <- order :: l in parents
    requires forall i, j | 0 <= i < j < |order| :: order[i] != order[j]
    ensures var st := FirstLoop(parents, root, orphans, order);
            && Shape(parents, root, st)
            && st.placed + st.head.Keys == (set l | l in order)
            && (orphans ==> st.head == map[])
  {
    if order != [] {
      var n := |order| - 1;
      FirstLoopShape(parents, root, orphans, order[..n]);
      assert order == order[..n] + [order[n]];
      PlaceShape(parents, root, orphans, FirstLoop(parents, root, orphans, order[..n]), order[n]);
    }
  }

  lemma {:induction false} FirstLoopSound(parents: Parents, root: Label, order: seq<Label>, l: Label)
    requires forall k <- order :: k in parents
    requires l in FirstLoop(parents, root, false, order).placed
    ensures Reaches(parents, root, l)
  {
    var n := |order| - 1;
    var prev := FirstLoop(parents, root, false, order[..n]);
    if l in prev.placed {
      FirstLoopSound(parents, root, order[..n], l);
    } else if parents[l] == root {
      assert ReachesIn(parents, root, l, 0);
    } else {
      FirstLoopSound(parents, root, order[..n], parents[l]);
      var k: nat :| ReachesIn(parents, root, parents[l], k);
      assert ReachesIn(parents, root, l, k + 1);
    }
  }

  // ---------- What a pass does ----------

  /** `st` comes from `st0` by moving whole branches into the topology. */
  ghost predicate Descends(st0: Split, st: Split) {
    && st0.placed <= st.placed
    && st.placed + st.head.Keys == st0.placed + st0.head.Keys
    && st.placed !! st.head.Keys
    && (forall l <- st.head :: l in st0.head && st.head[l] == st0.head[l])
    && (forall l <- st.head, m <- st0.head :: st0.head[l] == st0.head[m] ==> m in st.head)
  }

  lemma AdoptDescends(parents: Parents, st0: Split, st: Split, s: Label)
    requires Descends(st0, st)
    ensures Descends(st0, Adopt(parents, st, s))
    ensures st.placed <= Adopt(parents, st, s).placed
  {
  }

  lemma {:induction false} PassDescends(parents: Parents, st0: Split, st: Split, order: seq<Label>)
    requires Descends(st0, st)
    ensures Descends(st0, Pass(parents, st, order))
    ensures st.placed <= Pass(parents, st, order).placed
  {
    if order != [] {
      PassDescends(parents, st0, st, order[..|order| - 1]);
      AdoptDescends(parents, st0, Pass(parents, st, order[..|order| - 1]), order[|order| - 1]);
    }
  }

  lemma {:induction false} PassesDescend(parents: Parents, st: Split, orders: seq<seq<Label>>)
    requires st.placed !! st.head.Keys
    ensures Descends(st, Passes(parents, st, orders))
  {
    if orders != [] {
      var n := |orders| - 1;
      PassesDescend(parents, st, orders[..n]);
      PassDescends(parents, st, Passes(parents, st, orders[..n]), orders[n]);
    }
  }

  /** A top whose parent is in the topology when a pass starts is in the topology when it ends. */
  lemma {:induction false} PassAdoptsReady(parents: Parents, st0: Split, st: Split, order: seq<Label>, s: Label)
    requires Descends(st0, st)
    requires s in Tops(st) && s in parents && parents[s] in st.placed && s in order
    ensures s in Pass(parents, st, order).placed
  {
    var n := |order| - 1;
    var prev := Pass(parents, st, order[..n]);
    PassDescends(parents, st0, st, order[..n]);
    AdoptDescends(parents, st0, prev, order[n]);
    if s in order[..n] {
      PassAdoptsReady(parents, st0, st, order[..n], s);
    } else {
      assert order == order[..n] + [order[n]];
      assert s == order[n];
      assert s in st0.head && st0.head[s] == s;
      if s !in prev.placed {
        assert s in prev.head && prev.head[s] == s;
        assert s in Tops(prev) && s in BranchOf(prev, s);
      }
    }
  }

  // ---------- Rank of a stray branch ----------

  /** The branch topped by `s` has rank below `k`: rank 0 when the top's parent is in the topology,
      otherwise one more than the rank of the stray branch that holds the parent. */
  ghost predicate RankBelow(parents: Parents, st: Split, k: nat, s: Label) {
    && k > 0 && s in st.head && s in parents
    && (parents[s] in st.placed
        || (parents[s] in st.head && RankBelow(parents, st, k - 1, st.head[parents[s]])))
  }

  lemma {:induction false} RankBelowMonotone(parents: Parents, st: Split, k: nat, m: nat, s: Label)
    requires k <= m && RankBelow(parents, st, k, s)
    ensures RankBelow(parents, st, m, s)
  {
    if parents[s] !in st.placed {
      RankBelowMonotone(parents, st, k - 1, m - 1, st.head[parents[s]]);
    }
  }

  /** Bounded completeness: after `k` thorough passes every branch of rank below `k` is placed,
      whatever the order inside each pass. */
  lemma {:induction false} PassesPlaceByRank(parents: Parents, root: Label, st: Split,
                                             orders: seq<seq<Label>>, s: Label)
    requires Shape(parents, root, st) && Thorough(parents, st, orders)
    requires s in Tops(st) && RankBelow(parents, st, |orders|, s)
    ensures BranchOf(st, s) <= Passes(parents, st, orders).placed
  {
    var n := |orders| - 1;
    var prev := Passes(parents, st, orders[..n]);
    var last := Passes(parents, st, orders);
    PassesDescend(parents, st, orders[..n]);
    PassesDescend(parents, st, orders);
    PassDescends(parents, st, prev, orders[n]);
    assert Thorough(parents, st, orders[..n]) by {
      forall i | 0 <= i < n
        ensures forall t <- Tops(Passes(parents, st, orders[..n][..i])) :: t in orders[..n][i]
      {
        assert orders[..n][..i] == orders[..i];
      }
    }
    if parents[s] !in st.placed {
      var t := st.head[parents[s]];
      assert Linked(parents, root, st, parents[s]);
      PassesPlaceByRank(parents, root, st, orders[..n], t);
      assert parents[s] in BranchOf(st, t);
    }
    assert parents[s] in prev.placed;
    if s in prev.head {
      assert orders[..|orders| - 1] == orders[..n];
      assert s in Tops(prev);
      PassAdoptsReady(parents, st, prev, orders[n], s);
    }
    assert s in last.placed;
    forall l | l in BranchOf(st, s) ensures l in last.placed {
      assert st.head[l] == st.head[s];
      if l !in last.placed {
        assert false;
      }
    }
  }

  /** What the passes place reaches the root, if what they started from did. */
  lemma {:induction false} PassSound(parents: Parents, root: Label, st0: Split, st: Split, order: seq<Label>, l: Label)
    requires Descends(st0, st) && Shape(parents, root, st0)
    requires forall k <- st.placed :: Reaches(parents, root, k)
    requires l in Pass(parents, st, order).placed
    ensures Reaches(parents, root, l)
  {
    if order != [] {
      var n := |order| - 1;
      var prev := Pass(parents, st, order[..n]);
      PassDescends(parents, st0, st, order[..n]);
      if l in prev.placed {
        PassSound(parents, root, st0, st, order[..n], l);
      } else {
        var s := order[n];
        PassSound(parents, root, st0, st, order[..n], parents[s]);
        var k: nat :| ReachesIn(parents, root, parents[s], k);
        assert ReachesIn(parents, root, s, k + 1);
        assert l in prev.head && prev.head[l] == s;
        BelowTopReaches(parents, root, st0, l);
      }
    }
  }

  /** A stray label reaches the root if the top of its branch does. */
  lemma {:induction false} BelowTopReaches(parents: Parents, root: Label, st: Split, l: Label)
    requires Shape(parents, root, st) && l in st.head
    requires Reaches(parents, root, st.head[l])
    ensures Reaches(parents, root, l)
    decreases st.steps[l]
  {
    assert Linked(parents, root, st, l);
    if st.head[l] != l {
      BelowTopReaches(parents, root, st, parents[l]);
      var k: nat :| ReachesIn(parents, root, parents[l], k);
      assert ReachesIn(parents, root, l, k + 1);
    }
  }

  /** The top of the branch of a label that reaches the root reaches it no later. */
  lemma {:induction false} TopReachesIn(parents: Parents, root: Label, st: Split, l: Label, n: nat)
    requires Shape(parents, root, st) && l in st.head
    requires ReachesIn(parents, root, l, n)
    ensures ReachesIn(parents, root, st.head[l], n)
    decreases n
  {
    assert Linked(parents, root, st, l);
    if st.head[l] != l {
      TopReachesIn(parents, root, st, parents[l], n - 1);
      ReachesInMonotone(parents, root, st.head[l], n - 1, n);
    }
  }

  /** A stray branch that reaches the root has a rank. */
  lemma {:induction false} ReachingBranchHasRank(parents: Parents, root: Label, st: Split, l: Label, n: nat)
    requires Shape(parents, root, st) && st.placed + st.head.Keys == parents.Keys
    requires l in st.head && ReachesIn(parents, root, l, n)
    ensures RankBelow(parents, st, n + 1, st.head[l])
    decreases n
  {
    var s := st.head[l];
    TopReachesIn(parents, root, st, l, n);
    assert Linked(parents, root, st, l) && Linked(parents, root, st, s);
    if parents[s] !in st.placed {
      ReachingBranchHasRank(parents, root, st, parents[s], n - 1);
    }
  }

  // ---------- No branch has a rank as large as the number of stray branches ----------

  ghost function Ranked(parents: Parents, st: Split, k: nat): (r: set<Label>)
    ensures r <= Tops(st)
  {
    set s | s in Tops(st) && RankBelow(parents, st, k, s)
  }

  /** No branch has exactly rank `k`. */
  ghost predicate RankEmpty(parents: Parents, st: Split, k: nat) {
    Ranked(parents, st, k) == Ranked(parents, st, k + 1)
  }

  /** Once a rank is empty all higher ranks are. */
  lemma {:induction false} RanksStabilise(parents: Parents, root: Label, st: Split, k: nat, m: nat)
    requires Shape(parents, root, st) && k <= m
    requires RankEmpty(parents, st, k)
    ensures Ranked(parents, st, m) == Ranked(parents, st, k)
    decreases m
  {
    if k < m {
      RanksStabilise(parents, root, st, k, m - 1);
      forall s | s in Tops(st) ensures s in Ranked(parents, st, m) <==> s in Ranked(parents, st, k + 1) {
        if s in parents && parents[s] in st.head {
          var t := st.head[parents[s]];
          assert Linked(parents, root, st, parents[s]);
          assert t in Tops(st);
          assert t in Ranked(parents, st, m - 1) <==> t in Ranked(parents, st, k);
        }
      }
    }
  }

  lemma {:induction false} RanksGrow(parents: Parents, root: Label, st: Split, k: nat)
    requires Shape(parents, root, st)
    ensures |Ranked(parents, st, k)| >= k
            || exists j: nat :: j < k && RankEmpty(parents, st, j)
  {
    if k > 0 {
      RanksGrow(parents, root, st, k - 1);
      forall s | s in Ranked(parents, st, k - 1) ensures s in Ranked(parents, st, k) {
        RankBelowMonotone(parents, st, k - 1, k, s);
      }
      assert k - 1 + 1 == k;
      if !RankEmpty(parents, st, k - 1) {
        var extra :| extra in Ranked(parents, st, k) - Ranked(parents, st, k - 1);
        SmallerSubset(Ranked(parents, st, k - 1) + {extra}, Ranked(parents, st, k));
      }
    }
  }

  lemma {:induction false} SmallerSubset<T>(a: set<T>, b: set<T>)
    requires a <= b
    ensures |a| <= |b|
    decreases a
  {
    if x :| x in a {
      SmallerSubset(a - {x}, b - {x});
    }
  }

  /** As many passes as there are stray branches cover every rank. */
  lemma RankBounded(parents: Parents, root: Label, st: Split, k: nat, m: nat, s: Label)
    requires Shape(parents, root, st)
    requires |Tops(st)| <= m && s in Tops(st) && RankBelow(parents, st, k, s)
    ensures RankBelow(parents, st, m, s)
  {
    RanksGrow(parents, root, st, m + 1);
    SmallerSubset(Ranked(parents, st, m + 1), Tops(st));
    var j: nat :| j < m + 1 && RankEmpty(parents, st, j);
    var h := if k <= j then j else k;
    RankBelowMonotone(parents, st, k, h, s);
    RanksStabilise(parents, root, st, j, h);
    assert s in Ranked(parents, st, j);
    RankBelowMonotone(parents, st, j, m, s);
  }

  // ---------- Main results on build_tree ----------

  /** Soundness: whatever is placed, in whatever order rows and strays are visited, reaches the root;
      so no row on a parent cycle that avoids the root is ever placed. */
  lemma {:induction false} PassesSound(parents: Parents, root: Label, order: seq<Label>,
                                       orders: seq<seq<Label>>, l: Label)
    requires forall k <- order :: k in parents
    requires forall i, j | 0 <= i < j < |order| :: order[i] != order[j]
    requires l in Passes(parents, FirstLoop(parents, root, false, order), orders).placed
    ensures Reaches(parents, root, l)
  {
    var st := FirstLoop(parents, root, false, order);
    FirstLoopShape(parents, root, false, order);
    if orders == [] {
      FirstLoopSound(parents, root, order, l);
    } else {
      var n := |orders| - 1;
      var prev := Passes(parents, st, orders[..n]);
      PassesDescend(parents, st, orders[..n]);
      forall k | k in prev.placed ensures Reaches(parents, root, k) {
        PassesSound(parents, root, order, orders[..n], k);
      }
      PassSound(parents, root, st, prev, orders[n], l);
    }
  }

  /** With at least as many thorough passes as stray branches, or once nothing is stray, the topology
      is exactly the rows whose parent chain reaches the root. */
  lemma EnoughPassesComplete(parents: Parents, root: Label, order: seq<Label>, orders: seq<seq<Label>>)
    requires (set l | l in order) == parents.Keys
    requires forall i, j | 0 <= i < j < |order| :: order[i] != order[j]
    requires var st := FirstLoop(parents, root, false, order);
             && Thorough(parents, st, orders)
             && (|Tops(st)| <= |orders| || Passes(parents, st, orders).head == map[])
    ensures forall l :: l in Passes(parents, FirstLoop(parents, root, false, order), orders).placed
                        <==> Reaches(parents, root, l)
  {
    var st := FirstLoop(parents, root, false, order);
    var last := Passes(parents, st, orders);
    FirstLoopShape(parents, root, false, order);
    PassesDescend(parents, st, orders);
    forall l ensures l in last.placed <==> Reaches(parents, root, l) {
      if l in last.placed {
        PassesSound(parents, root, order, orders, l);
      } else if Reaches(parents, root, l) {
        ReachingRowIsPlaced(parents, root, st, orders, l);
      }
    }
  }

  lemma ReachingRowIsPlaced(parents: Parents, root: Label, st: Split, orders: seq<seq<Label>>, l: Label)
    requires Shape(parents, root, st) && st.placed + st.head.Keys == parents.Keys
    requires Thorough(parents, st, orders)
    requires |Tops(st)| <= |orders| || Passes(parents, st, orders).head == map[]
    requires Reaches(parents, root, l)
    ensures l in Passes(parents, st, orders).placed
  {
    PassesDescend(parents, st, orders);
    if |Tops(st)| <= |orders| && l in st.head {
      var n: nat :| ReachesIn(parents, root, l, n);
      var s := st.head[l];
      assert Linked(parents, root, st, l);
      ReachingBranchHasRank(parents, root, st, l, n);
      RankBounded(parents, root, st, n + 1, |orders|, s);
      PassesPlaceByRank(parents, root, st, orders, s);
      assert l in BranchOf(st, s);
    }
  }

  // ---------- Exactly the deep branches can be lost ----------

  /** A pass over the stray tops, each once, as the keys of the strays come. */
  ghost predicate Listing(st: Split, order: seq<Label>) {
    && (forall s :: s in order <==> s in Tops(st))
    && (forall i, j | 0 <= i < j < |order| :: order[i] != order[j])
  }

  /** The parent of the top is in the topology. */
  predicate ReadyTop(parents: Parents, st: Split, s: Label) {
    s in parents && parents[s] in st.placed
  }

  /** Visiting tops that are not ready changes nothing. */
  lemma {:induction false} IdlePass(parents: Parents, st: Split, order: seq<Label>)
    requires forall s <- order :: !ReadyTop(parents, st, s)
    ensures Pass(parents, st, order) == st
  {
    if order != [] {
      IdlePass(parents, st, order[..|order| - 1]);
      assert order[|order| - 1] in order;
    }
  }

  /** What a pass adds after tops that were not ready is in the branches visited after them. */
  lemma {:induction false} LatePass(parents: Parents, st: Split, idle: seq<Label>, late: seq<Label>, l: Label)
    requires st.placed !! st.head.Keys
    requires forall s <- idle :: !ReadyTop(parents, st, s)
    requires l in Pass(parents, st, idle + late).placed
    ensures l in st.placed || (l in st.head && st.head[l] in late)
  {
    if late == [] {
      assert idle + late == idle;
      IdlePass(parents, st, idle);
    } else {
      var n := |late| - 1;
      var order := idle + late;
      assert order[..|order| - 1] == idle + late[..n] && order[|order| - 1] == late[n];
      PassDescends(parents, st, st, idle + late[..n]);
      if l in Pass(parents, st, idle + late[..n]).placed {
        LatePass(parents, st, idle, late[..n], l);
        assert late == late[..n] + [late[n]];
      }
    }
  }

  lemma {:induction false} ListSet(s: set<Label>) returns (list: seq<Label>)
    ensures forall l :: l in list <==> l in s
    ensures forall i, j | 0 <= i < j < |list| :: list[i] != list[j]
    decreases s
  {
    list := [];
    if x :| x in s {
      var rest := ListSet(s - {x});
      list := rest + [x];
    }
  }

  /** The worst order of a pass visits the tops that are not ready first: it places the ready branches only. */
  lemma WorstPass(parents: Parents, st: Split) returns (order: seq<Label>)
    requires st.placed !! st.head.Keys
    ensures Listing(st, order)
    ensures forall l :: l in Pass(parents, st, order).placed ==>
                          l in st.placed || (l in st.head && ReadyTop(parents, st, st.head[l]))
  {
    var idle := ListSet(set s | s in Tops(st) && !ReadyTop(parents, st, s));
    var late := ListSet(set s | s in Tops(st) && ReadyTop(parents, st, s));
    order := idle + late;
    forall i, j | 0 <= i < |idle| && 0 <= j < |late| ensures idle[i] != late[j] {
      assert idle[i] in idle && late[j] in late;
    }
    forall s ensures s in order <==> s in Tops(st) {
      assert s in order <==> s in idle || s in late;
    }
    forall l | l in Pass(parents, st, order).placed
      ensures l in st.placed || (l in st.head && ReadyTop(parents, st, st.head[l]))
    {
      LatePass(parents, st, idle, late, l);
    }
  }

  /** Passes in the worst order place the branches of rank below their number only. */
  lemma {:induction false} WorstPasses(parents: Parents, root: Label, st: Split, k: nat)
    returns (orders: seq<seq<Label>>)
    requires Shape(parents, root, st)
    ensures |orders| == k && Thorough(parents, st, orders)
    ensures forall i | 0 <= i < k :: Listing(Passes(parents, st, orders[..i]), orders[i])
    ensures forall l <- st.head :: l in Passes(parents, st, orders).placed ==> RankBelow(parents, st, k, st.head[l])
  {
    orders := [];
    if k > 0 {
      var before := WorstPasses(parents, root, st, k - 1);
      var now := Passes(parents, st, before);
      PassesDescend(parents, st, before);
      var order := WorstPass(parents, now);
      orders := before + [order];
      assert orders[..k - 1] == before && orders[..|orders| - 1] == before;
      forall i | 0 <= i < k ensures Listing(Passes(parents, st, orders[..i]), orders[i]) {
        if i < k - 1 {
          assert orders[..i] == before[..i];
        }
      }
      forall l | l in st.head && l in Passes(parents, st, orders).placed
        ensures RankBelow(parents, st, k, st.head[l])
      {
        if l in now.placed {
          RankBelowMonotone(parents, st, k - 1, k, st.head[l]);
        } else {
          assert Linked(parents, root, st, l);
          assert ReadyTop(parents, now, st.head[l]);
        }
      }
    }
  }

  /** The exact condition: a stray branch is in the topology after `n` passes, in whatever order each pass
      visits the strays, if and only if its rank is below `n`. */
  lemma SafeExactlyWhenShallow(parents: Parents, root: Label, st: Split, n: nat, s: Label)
    requires Shape(parents, root, st) && s in Tops(st)
    ensures RankBelow(parents, st, n, s) <==>
              forall orders: seq<seq<Label>> {:trigger Thorough(parents, st, orders)} ::
                |orders| == n && Thorough(parents, st, orders) ==> BranchOf(st, s) <= Passes(parents, st, orders).placed
  {
    forall orders: seq<seq<Label>> | |orders| == n && Thorough(parents, st, orders) && RankBelow(parents, st, n, s)
      ensures BranchOf(st, s) <= Passes(parents, st, orders).placed
    {
      PassesPlaceByRank(parents, root, st, orders, s);
    }
    var worst := WorstPasses(parents, root, st, n);
    assert s in BranchOf(st, s);
  }

  function Chain(): Parents {
    map["1" := "2", "2" := "3", "3" := "4", "4" := "0"]
  }

  lemma ChainSplit(order: seq<Label>)
    requires order == ["1", "2", "3", "4"]
    ensures FirstLoop(Chain(), "0", false, order)
         == Split({"4"}, map["1" := "1", "2" := "2", "3" := "3"], map["1" := 0, "2" := 0, "3" := 0])
  {
    var parents := Chain();
    assert order[..3] == ["1", "2", "3"] && ["1", "2", "3"][..2] == ["1", "2"] && ["1", "2"][..1] == ["1"];
    assert ["1"][..0] == [];
    var st1 := FirstLoop(parents, "0", false, ["1"]);
    assert FirstLoop(parents, "0", false, ["1"][..0]) == Split({}, map[], map[]);
    assert st1 == Split({}, map["1" := "1"], map["1" := 0]);
    var st2 := FirstLoop(parents, "0", false, ["1", "2"]);
    assert st2 == Split({}, map["1" := "1", "2" := "2"], map["1" := 0, "2" := 0]);
    var st3 := FirstLoop(parents, "0", false, ["1", "2", "3"]);
    assert st3 == Split({}, map["1" := "1", "2" := "2", "3" := "3"], map["1" := 0, "2" := 0, "3" := 0]);
  }

  lemma ChainFirstPass(st: Split)
    requires st == Split({"4"}, map["1" := "1", "2" := "2", "3" := "3"], map["1" := 0, "2" := 0, "3" := 0])
    ensures Tops(st) == {"1", "2", "3"}
    ensures Pass(Chain(), st, ["1", "2", "3"])
         == Split({"3", "4"}, map["1" := "1", "2" := "2"], map["1" := 0, "2" := 0])
  {
    assert ["1", "2", "3"][..2] == ["1", "2"] && ["1", "2"][..1] == ["1"];
    assert Pass(Chain(), st, ["1"]) == st;
    assert Pass(Chain(), st, ["1", "2"]) == st;
    assert BranchOf(st, "3") == {"3"};
  }

  lemma ChainSecondPass(st: Split)
    requires st == Split({"3", "4"}, map["1" := "1", "2" := "2"], map["1" := 0, "2" := 0])
    ensures Tops(st) == {"1", "2"}
    ensures Pass(Chain(), st, ["1", "2"]).placed == {"2", "3", "4"}
  {
    assert ["1", "2"][..1] == ["1"];
    assert Pass(Chain(), st, ["1"]) == st;
    assert BranchOf(st, "2") == {"2"};
  }

  /** The default of two passes is not enough: in a chain of four rows visited from the far end, row
      "1" stays out of the topology although its chain reaches the root. */
  lemma TwoPassesCanLoseARow(parents: Parents, order: seq<Label>, orders: seq<seq<Label>>)
    requires parents == map["1" := "2", "2" := "3", "3" := "4", "4" := "0"]
    requires order == ["1", "2", "3", "4"]
    requires orders == [["1", "2", "3"], ["1", "2"]]
    ensures Reaches(parents, "0", "1")
    ensures Thorough(parents, FirstLoop(parents, "0", false, order), orders)
    ensures Passes(parents, FirstLoop(parents, "0", false, order), orders).placed == {"2", "3", "4"}
  {
    assert ReachesIn(parents, "0", "4", 0) && ReachesIn(parents, "0", "3", 1);
    assert ReachesIn(parents, "0", "2", 2) && ReachesIn(parents, "0", "1", 3);
    ChainSplit(order);
    var st := FirstLoop(parents, "0", false, order);
    ChainFirstPass(st);
    ChainSecondPass(Pass(parents, st, ["1", "2", "3"]));
    assert orders[..0] == [] && orders[..1] == [["1", "2", "3"]] && [["1", "2", "3"]][..0] == [];
    assert Passes(parents, st, orders[..1]) == Pass(parents, st, ["1", "2", "3"]);
  }
}
