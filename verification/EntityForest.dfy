/**
 The nested dicts that hold an entity tree (lib/ptolemy/poller/driver.py:323-352).

 A `Branch` is one dict: it maps the labels of the children to their own dicts.  `Topology` is a whole
 nested dict.  Its ghost `view` says the same thing flatly: which dict belongs to a label, and where
 the label hangs.
 */
module EntityForest {
  import opened ParentTable

  /** Where a label hangs: in the outermost dict, or in the dict of another label. */
  datatype Link = Top | Under(parent: Label)

  class Branch {
    var kids: map<Label, Branch>

    constructor (kids: map<Label, Branch>)
      ensures this.kids == kids
    {
      this.kids := kids;
    }
  }

  /** A forest seen flatly.  `up`: where each label hangs; `head`: the top label above it; `depth` grows
      on the way down; `at`: the dict of each label; `owner`: the place of each dict. */
  datatype View = View(up: map<Label, Link>, head: map<Label, Label>, depth: map<Label, nat>,
                       at: map<Label, Branch>, owner: map<Branch, Link>)

  ghost predicate Aligned(v: View) {
    v.up.Keys == v.head.Keys == v.depth.Keys == v.at.Keys
  }

  ghost predicate Hung(v: View, l: Label)
    requires Aligned(v) && l in v.up
  {
    && v.at[l] in v.owner && v.owner[v.at[l]] == Under(l)
    && match v.up[l]
       case Top => v.head[l] == l
       case Under(p) => p in v.up && v.head[l] == v.head[p] && v.depth[p] < v.depth[l]
  }

  ghost predicate WellHung(v: View) {
    && Aligned(v)
    && forall l {:trigger Hung(v, l)} :: l in v.up ==> Hung(v, l)
  }

  /** The place exists in the forest. */
  ghost predicate Exists(v: View, here: Link) {
    here.Under? ==> here.parent in v.up
  }

  /** What the dict at `here` must be, told from the flat view. */
  ghost function KidsAt(v: View, here: Link): map<Label, Branch>
    requires Aligned(v)
  {
    map c | c in v.up && v.up[c] == here :: v.at[c]
  }

  /** The flat view of a nested dict whose outermost dict is `top`: every dict has its own place. */
  ghost predicate Laid(v: View, top: Branch) {
    && WellHung(v)
    && top in v.owner && v.owner[top] == Top
    && forall b <- v.owner ::
         && Exists(v, v.owner[b])
         && b == (if v.owner[b].Top? then top else v.at[v.owner[b].parent])
  }

  /** `l` occurs strictly inside the dict at `here`. */
  ghost predicate Inside(v: View, l: Label, here: Link)
    requires WellHung(v)
    decreases if l in v.depth then v.depth[l] else 0
  {
    && l in v.up
    && assert Hung(v, l);
       (here.Top? || v.up[l] == here || (v.up[l].Under? && Inside(v, v.up[l].parent, here)))
  }

  /** Inside a dict means: one of its keys, or inside the dict of one of its keys. */
  lemma {:induction false} InsideStartsAtAKey(v: View, l: Label, here: Link) returns (k: Label)
    requires WellHung(v) && Inside(v, l, here)
    ensures k in v.up && v.up[k] == here && (k == l || Inside(v, l, Under(k)))
    decreases v.depth[l]
  {
    assert Hung(v, l);
    if v.up[l] == here {
      k := l;
    } else {
      k := InsideStartsAtAKey(v, v.up[l].parent, here);
    }
  }

  lemma {:induction false} InsideAKeyIsInside(v: View, l: Label, k: Label)
    requires WellHung(v) && k in v.up && Inside(v, l, Under(k))
    ensures Inside(v, l, v.up[k])
    decreases v.depth[l]
  {
    assert Hung(v, l);
    if v.up[l] != Under(k) {
      InsideAKeyIsInside(v, v.up[l].parent, k);
    }
  }

  /** Labels further down than `here`: what is left of a walk that goes down. */
  ghost function Deeper(v: View, here: Link): set<Label> {
    set l | l in v.depth && (here.Top? || (here.parent in v.depth && v.depth[here.parent] < v.depth[l]))
  }

  /** The view with one more label, whose dict is `leaf`. */
  ghost function Extend(v: View, node: Label, link: Link, leaf: Branch): View
    requires Aligned(v) && Exists(v, link)
  {
    View(v.up[node := link],
         v.head[node := if link.Under? then v.head[link.parent] else node],
         v.depth[node := if link.Under? then v.depth[link.parent] + 1 else 0],
         v.at[node := leaf],
         v.owner[leaf := Under(node)])
  }

  lemma ExtendHangs(v: View, node: Label, link: Link, leaf: Branch)
    requires WellHung(v) && node !in v.up && Exists(v, link) && leaf !in v.owner
    ensures WellHung(Extend(v, node, link, leaf))
    ensures KidsAt(Extend(v, node, link, leaf), Under(node)) == map[]
  {
    var v' := Extend(v, node, link, leaf);
    forall l | l in v'.up ensures Hung(v', l) && v'.up[l] != Under(node) {
      assert l != node ==> Hung(v, l);
    }
  }

  lemma ExtendLaid(v: View, top: Branch, node: Label, link: Link, leaf: Branch)
    requires Laid(v, top) && node !in v.up && Exists(v, link) && leaf !in v.owner
    ensures Laid(Extend(v, node, link, leaf), top)
    ensures KidsAt(Extend(v, node, link, leaf), Under(node)) == map[]
  {
    ExtendHangs(v, node, link, leaf);
  }

  /** The dicts after one label has been added are those of the extended view. */
  lemma ExtendKids(v: View, top: Branch, node: Label, link: Link, leaf: Branch, b: Branch)
    requires Laid(v, top) && node !in v.up && Exists(v, link) && leaf !in v.owner
    requires b == leaf || b in v.owner
    ensures var v' := Extend(v, node, link, leaf);
            KidsAt(v', v'.owner[b]) ==
            if b == leaf then map[]
            else if v.owner[b] == link then KidsAt(v, link)[node := leaf]
            else KidsAt(v, v.owner[b])
  {
    ExtendHangs(v, node, link, leaf);
  }

  /** No two dicts have the same place. */
  lemma OnePlaceEach(v: View, top: Branch, a: Branch, b: Branch)
    requires Laid(v, top) && a in v.owner && b in v.owner
    ensures v.owner[a] == v.owner[b] <==> a == b
  {
  }

  class Topology {
    const top: Branch
    ghost var view: View
    ghost var repr: set<object>

    /** Every dict of the forest holds exactly the labels that hang there, each with its own dict. */
    ghost predicate Valid()
      reads this, repr
    {
      && this in repr && view.owner.Keys <= repr
      && Laid(view, top)
      && forall b <- view.owner :: b.kids == KidsAt(view, view.owner[b])
    }

    ghost function DictAt(here: Link): Branch
      requires here.Under? ==> here.parent in view.at
      reads this
    {
      if here.Top? then top else view.at[here.parent]
    }

    constructor ()
      ensures Valid() && fresh(repr) && view.up == map[]
    {
      top := new Branch(map[]);
      view := View(map[], map[], map[], map[], map[top := Top]);
      repr := {this, top};
    }

    /** walk_to: finds the dict of `node` inside `tree`, visiting keys in any order.  It succeeds
        exactly when `node` occurs there. */
    method WalkTo(node: Label, tree: Branch, ghost here: Link) returns (found: Branch?)
      requires Valid() && Exists(view, here) && tree == DictAt(here)
      ensures found != null <==> Inside(view, node, here)
      ensures found != null ==> node in view.at && found == view.at[node]
      decreases Deeper(view, here)
    {
      assert here.Under? ==> Hung(view, here.parent);
      ghost var seen: set<Label> := {};
      var todo := tree.kids.Keys;
      while todo != {}
        invariant todo + seen == tree.kids.Keys
        invariant forall k :: k in seen ==> k in view.up && k != node && !Inside(view, node, Under(k))
        decreases todo
      {
        var k :| k in todo;
        assert Hung(view, k);
        if k == node {
          return tree.kids[k];
        }
        assert k in Deeper(view, here) - Deeper(view, Under(k));
        var w := WalkTo(node, tree.kids[k], Under(k));
        if w != null {
          InsideAKeyIsInside(view, node, k);
          return w;
        }
        todo, seen := todo - {k}, seen + {k};
      }
      if Inside(view, node, here) {
        var k := InsideStartsAtAKey(view, node, here);
      }
      return null;
    }

    /** Adds an empty dict for `node` to the dict `t`. */
    method Insert(node: Label, t: Branch, ghost link: Link) returns (leaf: Branch)
      requires Valid() && node !in view.up
      requires Exists(view, link) && t == DictAt(link)
      modifies this, t
      ensures Valid() && fresh(leaf) && repr == old(repr) + {leaf}
      ensures view == Extend(old(view), node, link, leaf)
    {
      ghost var v := view;
      assert t in v.owner && v.owner[t] == link by {
        assert link.Under? ==> Hung(v, link.parent);
      }
      leaf := new Branch(map[]);
      ExtendLaid(v, top, node, link, leaf);
      t.kids := t.kids[node := leaf];
      view, repr := Extend(v, node, link, leaf), repr + {leaf};
      forall b | b in view.owner ensures b.kids == KidsAt(view, view.owner[b]) {
        ExtendKids(v, top, node, link, leaf, b);
        if b != leaf {
          OnePlaceEach(v, top, b, t);
          assert old(b.kids) == KidsAt(v, v.owner[b]);
        }
      }
    }

    /** attach: adds a label that does not occur yet under `parent`, or at the top if there is no such
        parent and orphans are welcome. */
    method Attach(node: Label, parent: Label, addIfOrphan: bool) returns (added: bool)
      requires Valid() && node !in view.up
      modifies repr
      ensures Valid() && fresh(repr - old(repr))
      ensures added <==> parent in old(view.up) || addIfOrphan
      ensures if added then view.up.Keys == old(view.up).Keys + {node} && node in view.up
              else view == old(view) && repr == old(repr)
      ensures view.up == if parent in old(view.up) then old(view.up)[node := Under(parent)]
                         else if addIfOrphan then old(view.up)[node := Top]
                         else old(view.up)
      ensures view.head == if parent in old(view.up) then old(view.head)[node := old(view.head)[parent]]
                           else if addIfOrphan then old(view.head)[node := node]
                           else old(view.head)
    {
      var t := WalkTo(parent, top, Top);
      if t != null {
        assert Hung(view, parent);
        var _ := Insert(node, t, Under(parent));
      } else if addIfOrphan {
        var _ := Insert(node, top, Top);
      } else {
        return false;
      }
      return true;
    }
  }
}
