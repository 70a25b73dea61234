/**
 The SNMP bulk walk (lib/ptolemy/poller/agent.py:895-973) against an agent that answers GETBULK as section
 4.2.3 of RFC 3416 asks: with the variables that follow the requested name in lexicographic order.
 */
module BulkWalk {
  import opened Basics

  type Oid = seq<nat>

  /** Lexicographic order of object identifiers; a proper prefix comes first. */
  predicate Less(a: Oid, b: Oid) {
    b != [] && (a == [] || a[0] < b[0] || (a[0] == b[0] && Less(a[1..], b[1..])))
  }

  datatype Row = Row(oid: Oid, value: string)

  /** A MIB is what the agent holds, in order. */
  ghost predicate Sorted(mib: seq<Row>) {
    forall i, j | 0 <= i < j < |mib| :: Less(mib[i].oid, mib[j].oid)
  }

  /** The row belongs to the column with this base name. */
  predicate InColumn(base: Oid, oid: Oid) {
    |base| < |oid| && oid[..|base|] == base
  }

  /** The index of a row inside its column. */
  function Iid(base: Oid, oid: Oid): Oid
    requires InColumn(base, oid)
  {
    oid[|base|..]
  }

  lemma {:induction false} LessIsIrreflexive(a: Oid)
    ensures !Less(a, a)
  {
    if a != [] {
      LessIsIrreflexive(a[1..]);
    }
  }

  lemma {:induction false} LessIsTransitive(a: Oid, b: Oid, c: Oid)
    requires Less(a, b) && Less(b, c)
    ensures Less(a, c)
  {
    if a != [] && a[0] == b[0] && b[0] == c[0] {
      LessIsTransitive(a[1..], b[1..], c[1..]);
    }
  }

  lemma {:induction false} BaseBeforeColumn(base: Oid, oid: Oid)
    requires InColumn(base, oid)
    ensures Less(base, oid)
  {
    if base != [] {
      assert oid[0] == base[0];
      assert oid[1..][..|base[1..]|] == base[1..];
      BaseBeforeColumn(base[1..], oid[1..]);
    }
  }

  /** A column is an interval: what lies between two of its names, or between its base and one of its
      names, is in it. */
  lemma {:induction false} ColumnIsConvex(base: Oid, b: Oid, c: Oid)
    requires InColumn(base, c) && Less(base, b) && Less(b, c)
    ensures InColumn(base, b)
  {
    if base != [] {
      assert c[0] == base[0] && c[1..][..|base[1..]|] == base[1..];
      assert b[0] == base[0];
      ColumnIsConvex(base[1..], b[1..], c[1..]);
      assert b == [b[0]] + b[1..];
      assert b[..|base|] == [b[0]] + b[1..][..|base[1..]|];
      assert base == [base[0]] + base[1..];
    }
  }

  /** Position of the first row after `oid`. */
  ghost predicate FirstAfter(mib: seq<Row>, oid: Oid, p: nat) {
    && p <= |mib|
    && (forall i | 0 <= i < p :: !Less(oid, mib[i].oid))
    && (forall i | p <= i < |mib| :: Less(oid, mib[i].oid))
  }

  /** A variable of an answer; None stands for endOfMibView. */
  datatype Var = Var(oid: Oid, value: Option<string>)

  function Vars(rows: seq<Row>): (vars: seq<Var>)
    ensures |vars| == |rows| && forall i :: 0 <= i < |vars| ==> vars[i] == Var(rows[i].oid, Some(rows[i].value))
  {
    seq(|rows|, i requires 0 <= i < |rows| => Var(rows[i].oid, Some(rows[i].value)))
  }

  function EndMarks(oid: Oid, m: nat): (vars: seq<Var>)
    ensures |vars| == m && forall i :: 0 <= i < m ==> vars[i] == Var(oid, None)
  {
    seq(m, i => Var(oid, None))
  }

  /** An answer to a request for what follows `oid`: `k` rows from the row `p` on, and then `m` marks that the MIB
      has ended, which bear the name before them. */
  ghost predicate Answers(mib: seq<Row>, oid: Oid, vars: seq<Var>, p: nat, k: nat, m: nat) {
    && FirstAfter(mib, oid, p) && p + k <= |mib| && k + m > 0 && (m > 0 ==> p + k == |mib|)
    && vars == Vars(mib[p..p + k]) + EndMarks(if k > 0 then mib[p + k - 1].oid else oid, m)
  }

  /** An agent that conforms. */
  class Agent {
    const mib: seq<Row>

    constructor (mib: seq<Row>)
      ensures this.mib == mib
    {
      this.mib := mib;
    }

    /** A GETBULK answer: some variables, at least one, starting right after the requested name.  How many is
        up to the agent. */
    method GetBulk(oid: Oid) returns (vars: seq<Var>, ghost p: nat, ghost k: nat, ghost m: nat)
      requires Sorted(mib)
      ensures Answers(mib, oid, vars, p, k, m)
    {
      var i := 0;
      while i < |mib| && !Less(oid, mib[i].oid)
        invariant 0 <= i <= |mib|
        invariant forall j | 0 <= j < i :: !Less(oid, mib[j].oid)
      {
        i := i + 1;
      }
      forall j | i < j < |mib| ensures Less(oid, mib[j].oid) {
        LessIsTransitive(oid, mib[i].oid, mib[j].oid);
      }
      var n: nat, marks: nat := 0, 0;
      if i < |mib| {
        n :| 0 < n <= |mib| - i;
      }
      if i + n == |mib| {
        marks :| n + marks > 0;
      }
      vars := Vars(mib[i..i + n]) + EndMarks(if n > 0 then mib[i + n - 1].oid else oid, marks);
      p, k, m := i, n, marks;
    }
  }

  /** An empty value is reported as None; the mark of the end is reported as a value like any other. */
  datatype Value = NoValue | Text(text: string) | EndOfMib

  datatype Found = Found(iid: Oid, value: Value)

  function Reported(v: Option<string>): Value {
    if v.None? then EndOfMib else if v.value == "" then NoValue else Text(v.value)
  }

  /** The rows of a column among the first `k` rows, in order. */
  function Column(base: Oid, mib: seq<Row>, k: nat): seq<Found>
    requires k <= |mib|
  {
    if k == 0 then []
    else
      Column(base, mib, k - 1) +
      var r := mib[k - 1];
      if InColumn(base, r.oid) then [Found(Iid(base, r.oid), Reported(Some(r.value)))] else []
  }

  /** Nothing in the MIB follows the column. */
  predicate AtEnd(mib: seq<Row>, base: Oid) {
    |mib| == 0 || !Less(base, mib[|mib| - 1].oid) || InColumn(base, mib[|mib| - 1].oid)
  }

  lemma {:induction false} LessInsideColumn(base: Oid, a: Oid, b: Oid)
    requires InColumn(base, a) && InColumn(base, b) && Less(a, b)
    ensures Less(Iid(base, a), Iid(base, b))
  {
    if base != [] {
      assert a[0] == base[0] && b[0] == base[0];
      assert a[1..][..|base[1..]|] == base[1..] && b[1..][..|base[1..]|] == base[1..];
      LessInsideColumn(base[1..], a[1..], b[1..]);
      assert a[1..][|base[1..]|..] == a[|base|..] && b[1..][|base[1..]|..] == b[|base|..];
    }
  }

  /** What `Column` stands for: exactly the rows of the column, each once, in lexicographic order. */
  lemma {:induction false} ColumnIsExact(base: Oid, mib: seq<Row>, k: nat)
    requires Sorted(mib) && k <= |mib|
    ensures forall f :: f in Column(base, mib, k) <==>
              exists i | 0 <= i < k ::
                InColumn(base, mib[i].oid) && f == Found(Iid(base, mib[i].oid), Reported(Some(mib[i].value)))
    ensures forall i, j | 0 <= i < j < |Column(base, mib, k)| ::
              Less(Column(base, mib, k)[i].iid, Column(base, mib, k)[j].iid)
  {
    if k > 0 {
      var last := mib[k - 1];
      ColumnIsExact(base, mib, k - 1);
      if InColumn(base, last.oid) {
        forall f | f in Column(base, mib, k - 1) ensures Less(f.iid, Iid(base, last.oid)) {
          var i :| 0 <= i < k - 1 && InColumn(base, mib[i].oid)
                   && f == Found(Iid(base, mib[i].oid), Reported(Some(mib[i].value)));
          LessInsideColumn(base, mib[i].oid, last.oid);
        }
      }
    }
  }

  /** What is found of a column, spelled out: the rest of the name and the value, where an empty text is no value. */
  lemma ColumnSpelledOut(base: Oid, mib: seq<Row>, f: Found)
    requires Sorted(mib)
    ensures f in Column(base, mib, |mib|) <==>
              exists i | 0 <= i < |mib| ::
                && f.iid != [] && mib[i].oid == base + f.iid
                && f.value == if mib[i].value == "" then NoValue else Text(mib[i].value)
  {
    ColumnIsExact(base, mib, |mib|);
    forall i | 0 <= i < |mib|
      ensures f.iid != [] && mib[i].oid == base + f.iid
              <==> InColumn(base, mib[i].oid) && f.iid == Iid(base, mib[i].oid)
    {
      if InColumn(base, mib[i].oid) {
        assert mib[i].oid == base + Iid(base, mib[i].oid);
      }
      if mib[i].oid == base + f.iid {
        assert mib[i].oid[..|base|] == base && mib[i].oid[|base|..] == f.iid;
      }
    }
  }

  /** The first name is the smaller one from here on, and up to here the two are the same. */
  predicate SmallerAt(a: Oid, b: Oid, n: nat) {
    n <= |a| && n < |b| && a[..n] == b[..n] && (n < |a| ==> a[n] < b[n])
  }

  lemma {:induction false} LessExactlyWhen(a: Oid, b: Oid)
    ensures Less(a, b) <==> exists n: nat :: SmallerAt(a, b, n)
  {
    if Less(a, b) {
      if a == [] || a[0] < b[0] {
        assert SmallerAt(a, b, 0);
      } else {
        LessExactlyWhen(a[1..], b[1..]);
        var m: nat :| SmallerAt(a[1..], b[1..], m);
        assert a[..m + 1] == [a[0]] + a[1..][..m] && b[..m + 1] == [b[0]] + b[1..][..m];
        assert SmallerAt(a, b, m + 1);
      }
    }
    forall n: nat | SmallerAt(a, b, n) ensures Less(a, b) {
      if n > 0 {
        assert a[0] == a[..n][0] && b[0] == b[..n][0];
        assert a[1..][..n - 1] == a[..n][1..] && b[1..][..n - 1] == b[..n][1..];
        assert SmallerAt(a[1..], b[1..], n - 1);
        LessExactlyWhen(a[1..], b[1..]);
      }
    }
  }

  // ---------- The walk ----------

  lemma FirstAfterIsUnique(mib: seq<Row>, oid: Oid, p: nat, q: nat)
    requires FirstAfter(mib, oid, p) && FirstAfter(mib, oid, q)
    ensures p == q
  {
    var i := if p < q then p else q;
    if i < |mib| {
      AfterExactly(mib, oid, p, i);
      AfterExactly(mib, oid, q, i);
    }
  }

  lemma AfterExactly(mib: seq<Row>, oid: Oid, p: nat, i: nat)
    requires FirstAfter(mib, oid, p) && i < |mib|
    ensures Less(oid, mib[i].oid) <==> p <= i
  {
  }

  /** Once a row past the base is outside the column, so are all rows after it. */
  lemma OutsideAfter(mib: seq<Row>, base: Oid, k: nat, i: nat)
    requires Sorted(mib) && k < i < |mib| && Less(base, mib[k].oid) && !InColumn(base, mib[k].oid)
    ensures Less(base, mib[i].oid) && !InColumn(base, mib[i].oid)
  {
    LessIsTransitive(base, mib[k].oid, mib[i].oid);
    if InColumn(base, mib[i].oid) {
      ColumnIsConvex(base, mib[k].oid, mib[i].oid);
    }
  }

  /** Once a row past the base is outside the column, nothing of the column is left. */
  lemma {:induction false} NothingLeft(mib: seq<Row>, base: Oid, k: nat, n: nat)
    requires Sorted(mib) && k < n <= |mib| && Less(base, mib[k].oid) && !InColumn(base, mib[k].oid)
    ensures Column(base, mib, n) == Column(base, mib, k + 1)
  {
    if k + 1 < n {
      NothingLeft(mib, base, k, n - 1);
      OutsideAfter(mib, base, k, n - 1);
    }
  }

  /** Before the first row after the base there is nothing of the column. */
  lemma {:induction false} NothingBefore(mib: seq<Row>, base: Oid, p: nat, k: nat)
    requires FirstAfter(mib, base, p) && k <= p
    ensures Column(base, mib, k) == []
  {
    if k > 0 {
      NothingBefore(mib, base, p, k - 1);
      if InColumn(base, mib[k - 1].oid) {
        BaseBeforeColumn(base, mib[k - 1].oid);
      }
    }
  }

  /** The row at `k` is the last one seen, so the next answer starts after it. */
  lemma NextAfterRow(mib: seq<Row>, k: nat)
    requires Sorted(mib) && k < |mib|
    ensures FirstAfter(mib, mib[k].oid, k + 1)
  {
    forall i | 0 <= i <= k ensures !Less(mib[k].oid, mib[i].oid) {
      LessIsIrreflexive(mib[k].oid);
      if i < k && Less(mib[k].oid, mib[i].oid) {
        LessIsTransitive(mib[k].oid, mib[i].oid, mib[k].oid);
      }
    }
  }

  // ---------- What is taken of an answer ----------

  /** The name is that of the column or one in it. */
  predicate Under(base: Oid, oid: Oid) {
    |base| <= |oid| && oid[..|base|] == base
  }

  lemma UnderIsInColumn(base: Oid, oid: Oid)
    requires Less(base, oid)
    ensures Under(base, oid) <==> InColumn(base, oid)
  {
    LessIsIrreflexive(base);
    assert |oid| == |base| ==> oid[..|base|] == oid;
  }

  /** The variables of the loop: the name of the next request, what was yielded, the last index, whether that came
      again, and whether the last variable was of the column. */
  datatype Walker = Walker(oid: Oid, out: seq<Found>, last: Option<Oid>, errored: bool, inColumn: bool)

  function Take(base: Oid, w: Walker, v: Var): Walker {
    if Under(base, v.oid) then
      var iid := v.oid[|base|..];
      Walker(v.oid, w.out + [Found(iid, Reported(v.value))], Some(iid), w.errored || w.last == Some(iid), true)
    else w.(inColumn := false)
  }

  function TakeAll(base: Oid, w: Walker, vars: seq<Var>): Walker {
    if vars == [] then w else Take(base, TakeAll(base, w, vars[..|vars| - 1]), vars[|vars| - 1])
  }

  /** The loop over the variables of one answer. */
  method TakeAnswer(base: Oid, vars: seq<Var>, start: Walker) returns (w: Walker)
    ensures w == TakeAll(base, start, vars)
  {
    w := start;
    assert vars[..0] == [];
    for j := 0 to |vars|
      invariant w == TakeAll(base, start, vars[..j])
    {
      assert vars[..j + 1][..j] == vars[..j];
      var v := vars[j];
      w := w.(inColumn := Under(base, v.oid));
      if w.inColumn {
        var iid := v.oid[|base|..];
        w := w.(oid := v.oid, out := w.out + [Found(iid, Reported(v.value))]);
        if w.last == Some(iid) {
          w := w.(errored := true);
        }
        w := w.(last := Some(iid));
      }
    }
    assert vars[..|vars|] == vars;
  }

  lemma {:induction false} TakenInTurn(base: Oid, w: Walker, a: seq<Var>, b: seq<Var>)
    ensures TakeAll(base, w, a + b) == TakeAll(base, TakeAll(base, w, a), b)
    decreases |b|
  {
    if b == [] {
      assert a + b == a;
    } else {
      TakenInTurn(base, w, a, b[..|b| - 1]);
      assert (a + b)[..|a + b| - 1] == a + b[..|b| - 1];
    }
  }

  /** Where the walk stands: `oid` names the last row of the column before `k`, or the base, and all rows from `k` on
      come after it. */
  ghost predicate Standing(mib: seq<Row>, base: Oid, w: Walker, k: nat) {
    && k <= |mib| && !w.errored && w.out == Column(base, mib, k)
    && (if w.last.Some? then InColumn(base, w.oid) && w.last.value == Iid(base, w.oid) else w.oid == base)
    && forall i | k <= i < |mib| :: Less(w.oid, mib[i].oid)
  }

  /** The row before `q` was the last one taken or passed over. */
  ghost predicate AfterRow(mib: seq<Row>, base: Oid, w: Walker, q: nat) {
    && 0 < q <= |mib| && Standing(mib, base, w, q) && Less(base, mib[q - 1].oid)
    && (w.inColumn <==> InColumn(base, mib[q - 1].oid))
    && (w.inColumn ==> w.oid == mib[q - 1].oid && w.last.Some?)
  }

  /** One row of an answer: it is past the base, and its index is not the last one seen. */
  lemma StandingStep(mib: seq<Row>, base: Oid, w: Walker, k: nat)
    requires Sorted(mib) && Standing(mib, base, w, k) && k < |mib|
    ensures AfterRow(mib, base, Take(base, w, Var(mib[k].oid, Some(mib[k].value))), k + 1)
  {
    var name := mib[k].oid;
    assert Less(w.oid, name);
    if w.oid != base {
      BaseBeforeColumn(base, w.oid);
      LessIsTransitive(base, w.oid, name);
    }
    UnderIsInColumn(base, name);
    if InColumn(base, name) && w.last == Some(Iid(base, name)) {
      SameIidSameOid(base, w.oid, name);
      LessIsIrreflexive(name);
    }
  }

  lemma SameIidSameOid(base: Oid, a: Oid, b: Oid)
    requires InColumn(base, a) && InColumn(base, b) && Iid(base, a) == Iid(base, b)
    ensures a == b
  {
    assert a == a[..|base|] + a[|base|..] && b == b[..|base|] + b[|base|..];
  }

  /** The rows of an answer extend what was taken by just their part of the column; the stop for an index that comes
      again does not fire. */
  lemma {:induction false} RowsTaken(mib: seq<Row>, base: Oid, w: Walker, p: nat, q: nat)
    requires Sorted(mib) && Standing(mib, base, w, p) && p <= q <= |mib|
    ensures var next := TakeAll(base, w, Vars(mib[p..q]));
            Standing(mib, base, next, q) && (p < q ==> AfterRow(mib, base, next, q))
    decreases q
  {
    if p < q {
      RowsTaken(mib, base, w, p, q - 1);
      OneMoreTaken(mib, base, w, p, q - 1);
      StandingStep(mib, base, TakeAll(base, w, Vars(mib[p..q - 1])), q - 1);
    }
  }

  lemma OneMoreTaken(mib: seq<Row>, base: Oid, w: Walker, p: nat, q: nat)
    requires p <= q < |mib|
    ensures TakeAll(base, w, Vars(mib[p..q + 1]))
         == Take(base, TakeAll(base, w, Vars(mib[p..q])), Var(mib[q].oid, Some(mib[q].value)))
  {
    var vars := Vars(mib[p..q + 1]);
    assert vars[..|vars| - 1] == Vars(mib[p..q]);
  }

  /** The mark of the end under an index, so many times. */
  function Marks(iid: Oid, m: nat): (r: seq<Found>)
    ensures |r| == m && forall i :: 0 <= i < m ==> r[i] == Found(iid, EndOfMib)
  {
    seq(m, i => Found(iid, EndOfMib))
  }

  /** The marks of an answer are taken for values of the last name, and the stop fires as soon as that name has come
      before. */
  lemma {:induction false} MarksTaken(base: Oid, w: Walker, oid: Oid, m: nat)
    requires Under(base, oid)
    ensures var next, iid := TakeAll(base, w, EndMarks(oid, m)), oid[|base|..];
            && next.out == w.out + Marks(iid, m)
            && (m > 0 ==> next.oid == oid && next.last == Some(iid) && next.inColumn)
            && (next.errored <==> w.errored || (m > 0 && w.last == Some(iid)) || m > 1)
    decreases m
  {
    if m > 0 {
      MarksTaken(base, w, oid, m - 1);
      assert EndMarks(oid, m)[..m - 1] == EndMarks(oid, m - 1);
      assert Marks(oid[|base|..], m) == Marks(oid[|base|..], m - 1) + [Found(oid[|base|..], EndOfMib)];
    }
  }

  lemma {:induction false} MarksElsewhere(base: Oid, w: Walker, oid: Oid, m: nat)
    requires !Under(base, oid) && !w.inColumn
    ensures TakeAll(base, w, EndMarks(oid, m)) == w
    decreases m
  {
    if m > 0 {
      MarksElsewhere(base, w, oid, m - 1);
      assert EndMarks(oid, m)[..m - 1] == EndMarks(oid, m - 1);
    }
  }

  // ---------- From answer to answer ----------

  /** The index under which the marks of the end are reported. */
  function EndIid(mib: seq<Row>, base: Oid): Oid {
    if |mib| > 0 && InColumn(base, mib[|mib| - 1].oid) then Iid(base, mib[|mib| - 1].oid) else []
  }

  /** What the walk yields: the column, followed at the end of the MIB by marks of the end. */
  ghost predicate Walked(mib: seq<Row>, base: Oid, out: seq<Found>) {
    if AtEnd(mib, base) then exists m: nat {:trigger Marks(EndIid(mib, base), m)} ::
        m > 0 && out == Column(base, mib, |mib|) + Marks(EndIid(mib, base), m)
    else out == Column(base, mib, |mib|)
  }

  /** Between two requests: the name of the last row taken, or the base before the first one. */
  ghost predicate Paused(mib: seq<Row>, base: Oid, w: Walker, q: nat) {
    && Standing(mib, base, w, q) && FirstAfter(mib, w.oid, q)
    && (w.last.Some? ==> q > 0 && mib[q - 1].oid == w.oid)
  }

  /** Between two requests at the end of the MIB: there is no row, and the base was marked once. */
  ghost predicate MarkedOnce(mib: seq<Row>, base: Oid, w: Walker) {
    && FirstAfter(mib, base, |mib|) && Column(base, mib, |mib|) == []
    && w == Walker(base, Marks([], 1), Some([]), false, true)
  }

  lemma EndIsEnd(mib: seq<Row>, base: Oid, q: nat)
    requires Sorted(mib) && q <= |mib| && FirstAfter(mib, base, q)
    ensures q == |mib| ==> AtEnd(mib, base) && EndIid(mib, base) == [] && Column(base, mib, |mib|) == []
  {
    NothingBefore(mib, base, q, q);
    if q == |mib| && q > 0 && InColumn(base, mib[q - 1].oid) {
      BaseBeforeColumn(base, mib[q - 1].oid);
    }
  }

  /** What is taken after an answer: the column so far, and a mark for every mark of the answer at the end. */
  ghost predicate TakenIs(mib: seq<Row>, base: Oid, out: seq<Found>, p: nat, k: nat, m: nat) {
    && p + k <= |mib| && k + m > 0 && (m > 0 ==> p + k == |mib|)
    && out == Column(base, mib, p + k) + if AtEnd(mib, base) then Marks(EndIid(mib, base), m) else []
  }

  /** An answer with rows: the walk pauses further on, or it is over. */
  lemma AnswerWithRows(mib: seq<Row>, base: Oid, w: Walker, vars: seq<Var>, p: nat, k: nat, m: nat)
    requires Sorted(mib) && Paused(mib, base, w, p) && Answers(mib, w.oid, vars, p, k, m) && k > 0
    ensures var next := TakeAll(base, w, vars);
            if next.inColumn && !next.errored then Paused(mib, base, next, p + k) && next.last.Some?
            else Walked(mib, base, next.out)
    ensures TakenIs(mib, base, TakeAll(base, w, vars).out, p, k, m)
  {
    var w2 := RowsThenMarks(mib, base, w, vars, p, k, m);
    MarksAfterRow(mib, base, w2, p + k, m);
    TakenAfterRow(mib, base, w2, p, k, m);
  }

  lemma RowsThenMarks(mib: seq<Row>, base: Oid, w: Walker, vars: seq<Var>, p: nat, k: nat, m: nat) returns (w2: Walker)
    requires Sorted(mib) && Standing(mib, base, w, p) && Answers(mib, w.oid, vars, p, k, m) && k > 0
    ensures AfterRow(mib, base, w2, p + k)
    ensures TakeAll(base, w, vars) == TakeAll(base, w2, EndMarks(mib[p + k - 1].oid, m))
  {
    w2 := TakeAll(base, w, Vars(mib[p..p + k]));
    RowsTaken(mib, base, w, p, p + k);
    TakenInTurn(base, w, Vars(mib[p..p + k]), EndMarks(mib[p + k - 1].oid, m));
  }

  lemma TakenAfterRow(mib: seq<Row>, base: Oid, w: Walker, p: nat, k: nat, m: nat)
    requires Sorted(mib) && k > 0 && AfterRow(mib, base, w, p + k) && (m > 0 ==> p + k == |mib|)
    ensures TakenIs(mib, base, TakeAll(base, w, EndMarks(mib[p + k - 1].oid, m)).out, p, k, m)
  {
    MarksAfterRow(mib, base, w, p + k, m);
    assert Column(base, mib, p + k) + [] == Column(base, mib, p + k);
  }

  lemma MarksAfterRow(mib: seq<Row>, base: Oid, w: Walker, q: nat, m: nat)
    requires Sorted(mib) && AfterRow(mib, base, w, q) && (m > 0 ==> q == |mib|)
    ensures var next := TakeAll(base, w, EndMarks(mib[q - 1].oid, m));
            && (if next.inColumn && !next.errored then Paused(mib, base, next, q) && next.last.Some?
                else Walked(mib, base, next.out))
            && next.out == Column(base, mib, q) + if AtEnd(mib, base) then Marks(EndIid(mib, base), m) else []
  {
    if w.inColumn {
      MarksInside(mib, base, w, q, m);
    } else {
      MarksOutside(mib, base, w, q, m);
    }
  }

  lemma MarksInside(mib: seq<Row>, base: Oid, w: Walker, q: nat, m: nat)
    requires Sorted(mib) && AfterRow(mib, base, w, q) && w.inColumn && (m > 0 ==> q == |mib|)
    ensures var next := TakeAll(base, w, EndMarks(w.oid, m));
            && (if next.inColumn && !next.errored then Paused(mib, base, next, q) && next.last.Some?
                else Walked(mib, base, next.out))
            && next.out == Column(base, mib, q) + if AtEnd(mib, base) then Marks(EndIid(mib, base), m) else []
  {
    MarksTaken(base, w, w.oid, m);
    NextAfterRow(mib, q - 1);
    if m == 0 {
      assert EndMarks(w.oid, 0) == [];
    } else {
      assert EndIid(mib, base) == w.oid[|base|..];
    }
  }

  lemma MarksOutside(mib: seq<Row>, base: Oid, w: Walker, q: nat, m: nat)
    requires Sorted(mib) && AfterRow(mib, base, w, q) && !w.inColumn
    ensures var next := TakeAll(base, w, EndMarks(mib[q - 1].oid, m));
            && !next.inColumn && Walked(mib, base, next.out) && !AtEnd(mib, base) && next.out == Column(base, mib, q)
  {
    UnderIsInColumn(base, mib[q - 1].oid);
    MarksElsewhere(base, w, mib[q - 1].oid, m);
    NothingLeft(mib, base, q - 1, |mib|);
    LastIsOutside(mib, base, q - 1);
  }

  /** After a row past the column the MIB goes on, or ends, outside of it. */
  lemma LastIsOutside(mib: seq<Row>, base: Oid, k: nat)
    requires Sorted(mib) && k < |mib| && Less(base, mib[k].oid) && !InColumn(base, mib[k].oid)
    ensures !AtEnd(mib, base)
  {
    if k < |mib| - 1 {
      OutsideAfter(mib, base, k, |mib| - 1);
    }
  }

  /** An answer of marks only: after a row the walk is over, and after the base as soon as that is marked again. */
  lemma AnswerWithoutRows(mib: seq<Row>, base: Oid, w: Walker, vars: seq<Var>, p: nat, m: nat)
    requires Sorted(mib) && Paused(mib, base, w, p) && Answers(mib, w.oid, vars, p, 0, m)
    ensures var next := TakeAll(base, w, vars);
            if next.errored then Walked(mib, base, next.out)
            else w.last.None? && next.inColumn && MarkedOnce(mib, base, next)
    ensures TakenIs(mib, base, TakeAll(base, w, vars).out, p, 0, m)
  {
    assert vars == EndMarks(w.oid, m);
    MarksTaken(base, w, w.oid, m);
    if w.last.None? {
      BaseMarked(mib, base, p, m);
    } else {
      assert mib[p - 1].oid == w.oid && Under(base, w.oid);
    }
  }

  /** Only the base was marked. */
  lemma BaseMarked(mib: seq<Row>, base: Oid, p: nat, m: nat)
    requires Sorted(mib) && FirstAfter(mib, base, p) && p == |mib|
    ensures base[|base|..] == [] && Column(base, mib, p) == [] && EndIid(mib, base) == [] && AtEnd(mib, base)
    ensures Marks([], m) == Column(base, mib, |mib|) + Marks(EndIid(mib, base), m)
    ensures m > 0 ==> Walked(mib, base, Marks([], m))
  {
    EndIsEnd(mib, base, p);
    assert [] + Marks([], m) == Marks([], m);
  }

  /** An answer after the base was marked once. */
  lemma AnswerAfterMark(mib: seq<Row>, base: Oid, w: Walker, vars: seq<Var>, p: nat, k: nat, m: nat)
    requires Sorted(mib) && MarkedOnce(mib, base, w) && Answers(mib, base, vars, p, k, m)
    ensures var next := TakeAll(base, w, vars); next.errored && Walked(mib, base, next.out)
  {
    FirstAfterIsUnique(mib, base, p, |mib|);
    assert vars == EndMarks(base, m);
    MarksTaken(base, w, base, m);
    BaseMarked(mib, base, p, m + 1);
    assert Marks([], 1) + Marks([], m) == Marks([], m + 1);
  }

  /** The walk goes on from row `q`, or for the last time, or is over. */
  ghost predicate Going(mib: seq<Row>, base: Oid, w: Walker, q: nat, last: bool) {
    if !w.inColumn || w.errored then Walked(mib, base, w.out)
    else if last then MarkedOnce(mib, base, w)
    else Paused(mib, base, w, q)
  }

  /** How many requests are left at most. */
  ghost function Left(mib: seq<Row>, w: Walker, q: nat, last: bool): nat {
    if !w.inColumn || w.errored then 0 else if last || q > |mib| then 1 else 2 + (|mib| - q)
  }

  /** One request: the walk goes on with fewer requests left, or has yielded what it should. */
  method Ask(agent: Agent, base: Oid, w: Walker, ghost q: nat, ghost last: bool)
    returns (next: Walker, ghost q2: nat, ghost last2: bool, ghost marks: nat)
    requires Sorted(agent.mib) && Going(agent.mib, base, w, q, last) && w.inColumn && !w.errored
    ensures Going(agent.mib, base, next, q2, last2) && Left(agent.mib, next, q2, last2) < Left(agent.mib, w, q, last)
    ensures !last ==> q <= q2 && TakenIs(agent.mib, base, next.out, q, q2 - q, marks)
  {
    var vars;
    ghost var p, k;
    vars, p, k, marks := agent.GetBulk(w.oid);
    next := TakeAnswer(base, vars, w);
    q2, last2 := p + k, k == 0;
    GoesOn(agent.mib, base, w, q, last, vars, p, k, marks);
  }

  lemma GoesOn(mib: seq<Row>, base: Oid, w: Walker, q: nat, last: bool, vars: seq<Var>, p: nat, k: nat, m: nat)
    requires Sorted(mib) && Going(mib, base, w, q, last) && w.inColumn && !w.errored
    requires Answers(mib, w.oid, vars, p, k, m)
    ensures var next := TakeAll(base, w, vars);
            && Going(mib, base, next, p + k, k == 0) && Left(mib, next, p + k, k == 0) < Left(mib, w, q, last)
            && (!last ==> q == p && TakenIs(mib, base, next.out, q, k, m))
  {
    if last {
      AnswerAfterMark(mib, base, w, vars, p, k, m);
    } else {
      FirstAfterIsUnique(mib, w.oid, p, q);
      if k > 0 {
        AnswerWithRows(mib, base, w, vars, p, k, m);
      } else {
        AnswerWithoutRows(mib, base, w, vars, p, m);
      }
    }
  }

  /** fetch_by_bulkwalk for one column.  `name` is what was asked for and `bare` what the library calls the column:
      with the bare label the walk yields exactly the column, and marks of the end after it if the MIB ends there;
      with any other spelling it stops after the first answer. */
  method Walk(agent: Agent, name: string, bare: string, base: Oid)
    returns (out: seq<Found>, ghost start: nat, ghost first: nat, ghost marks: nat)
    requires Sorted(agent.mib)
    ensures name == bare ==> Walked(agent.mib, base, out)
    ensures FirstAfter(agent.mib, base, start)
    ensures name != bare ==> start <= first && TakenIs(agent.mib, base, out, start, first - start, marks)
  {
    start := FirstExists(agent.mib, base);
    NothingBefore(agent.mib, base, start, start);
    var w;
    ghost var last;
    w, first, last, marks := Ask(agent, base, Walker(base, [], None, false, true), start, false);
    ghost var q := first;
    while w.inColumn && name == bare && !w.errored
      invariant Going(agent.mib, base, w, q, last)
      invariant name != bare ==> TakenIs(agent.mib, base, w.out, start, first - start, marks)
      decreases Left(agent.mib, w, q, last)
    {
      ghost var m;
      w, q, last, m := Ask(agent, base, w, q, last);
    }
    out := w.out;
  }

  lemma FirstExists(mib: seq<Row>, oid: Oid) returns (p: nat)
    requires Sorted(mib)
    ensures FirstAfter(mib, oid, p)
  {
    p := |mib|;
    while p > 0 && Less(oid, mib[p - 1].oid)
      invariant p <= |mib| && forall i | p <= i < |mib| :: Less(oid, mib[i].oid)
    {
      p := p - 1;
    }
    forall i | 0 <= i < p ensures !Less(oid, mib[i].oid) {
      if i < p - 1 && Less(oid, mib[i].oid) {
        LessIsTransitive(oid, mib[i].oid, mib[p - 1].oid);
      }
    }
  }

  /** The walk yields exactly the column if and only if something follows it in the MIB. */
  lemma WalkIsExactlyWhen(mib: seq<Row>, base: Oid, out: seq<Found>)
    requires Walked(mib, base, out)
    ensures out == Column(base, mib, |mib|) <==> !AtEnd(mib, base)
  {
    if AtEnd(mib, base) {
      var m: nat :| m > 0 && out == Column(base, mib, |mib|) + Marks(EndIid(mib, base), m);
      assert |out| > |Column(base, mib, |mib|)|;
    }
  }

  /** A MIB of one row: after its value the walk yields marks of the end as further values of the same index. */
  lemma OnlyRowIsMarked(out: seq<Found>)
    requires Walked([Row([1, 7], "up")], [1], out)
    ensures |out| > 1 && out[0] == Found([7], Text("up")) && out[1] == Found([7], EndOfMib)
  {
    var mib := [Row([1, 7], "up")];
    assert InColumn([1], [1, 7]) && Iid([1], [1, 7]) == [7];
    assert Column([1], mib, 1) == Column([1], mib, 0) + [Found([7], Text("up"))];
    var m: nat :| m > 0 && out == Column([1], mib, 1) + Marks(EndIid(mib, [1]), m);
    assert out[1] == Marks([7], m)[0];
  }
}
