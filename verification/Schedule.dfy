/**
 The poll schedule (lib/ptolemy/scheduler/scheduler.py): a heap of due times, from which the next test is
 popped and put back with a later time, and which a reload extends with newly configured tests.
 */
module Schedule {
  import opened Basics

  // ---------- Configuration ----------

  /** "period +- spread", in seconds; a period of zero switches the test off. */
  datatype Delta = Delta(period: real, spread: real)

  datatype Pair = Pair(node: string, spec: string)

  /** A host names a stanza of settings to start from, and may overrule parts of it. */
  datatype Host = Host(ref: Option<string>, own: map<string, Delta>)

  datatype Config = Config(hosts: map<string, Host>, settings: map<string, map<string, Delta>>)

  /** The schedule of a host: the stanza it refers to, overloaded with its own values. */
  function SpecsOf(c: Config, node: string): map<string, Delta>
    requires node in c.hosts
  {
    var h := c.hosts[node];
    (if h.ref.Some? && h.ref.value in c.settings then c.settings[h.ref.value] else map[]) + h.own
  }

  predicate Listed(c: Config, p: Pair) {
    p.node in c.hosts && p.spec in SpecsOf(c, p.node)
  }

  function DeltaOf(c: Config, p: Pair): Delta
    requires Listed(c, p)
  {
    SpecsOf(c, p.node)[p.spec]
  }

  predicate Active(c: Config, p: Pair) {
    Listed(c, p) && DeltaOf(c, p).period != 0.0
  }

  /** The regex only reads digits, so neither number is negative. */
  ghost predicate ValidConfig(c: Config) {
    forall p: Pair {:trigger DeltaOf(c, p)} ::
      Listed(c, p) ==> DeltaOf(c, p).period >= 0.0 && DeltaOf(c, p).spread >= 0.0
  }

  /** Every test that is switched on has a period above its spread. */
  ghost predicate PositiveDelays(c: Config) {
    forall p: Pair {:trigger DeltaOf(c, p)} :: Active(c, p) ==> DeltaOf(c, p).period > DeltaOf(c, p).spread
  }

  // ---------- Heap ----------

  datatype Entry = Entry(due: real, pair: Pair)

  /** No entry is due before the one at `i`. */
  predicate IsMin(heap: seq<Entry>, i: int) {
    0 <= i < |heap| && forall e <- heap :: heap[i].due <= e.due
  }

  lemma {:induction false} MinExists(heap: seq<Entry>) returns (i: nat)
    requires heap != []
    ensures IsMin(heap, i)
  {
    i := 0;
    if |heap| > 1 {
      var n := |heap| - 1;
      var j := MinExists(heap[..n]);
      i := if heap[j].due <= heap[n].due then j else n;
      assert heap == heap[..n] + [heap[n]];
    }
  }

  function Without(heap: seq<Entry>, i: nat): seq<Entry>
    requires i < |heap|
  {
    heap[..i] + heap[i + 1..]
  }

  /** How many entries of the heap satisfy `f`. */
  function Count(heap: seq<Entry>, f: Entry -> bool): nat {
    if heap == [] then 0 else (if f(heap[0]) then 1 else 0) + Count(heap[1..], f)
  }

  function For(p: Pair): Entry -> bool {
    (e: Entry) => e.pair == p
  }

  function DueBy(t: real): Entry -> bool {
    (e: Entry) => e.due <= t
  }

  lemma {:induction false} CountAppend(a: seq<Entry>, b: seq<Entry>, f: Entry -> bool)
    ensures Count(a + b, f) == Count(a, f) + Count(b, f)
  {
    if a == [] {
      assert a + b == b;
    } else {
      assert (a + b)[1..] == a[1..] + b;
      CountAppend(a[1..], b, f);
    }
  }

  lemma CountOne(e: Entry, f: Entry -> bool)
    ensures Count([e], f) == if f(e) then 1 else 0
  {
    assert [e][1..] == [];
  }

  lemma CountMiddle(a: seq<Entry>, e: Entry, b: seq<Entry>, f: Entry -> bool)
    ensures Count(a + ([e] + b), f) == Count(a + b, f) + if f(e) then 1 else 0
  {
    CountAppend(a, [e] + b, f);
    CountAppend([e], b, f);
    CountAppend(a, b, f);
    CountOne(e, f);
  }

  lemma CountWithout(heap: seq<Entry>, i: nat, f: Entry -> bool)
    requires i < |heap|
    ensures Count(Without(heap, i), f) == Count(heap, f) - (if f(heap[i]) then 1 else 0)
  {
    SplitAt(heap, i);
    CountMiddle(heap[..i], heap[i], heap[i + 1..], f);
  }

  lemma SplitAt(heap: seq<Entry>, i: nat)
    requires i < |heap|
    ensures heap == heap[..i] + ([heap[i]] + heap[i + 1..])
  {
  }

  lemma {:induction false} CountBounds(heap: seq<Entry>, f: Entry -> bool)
    ensures Count(heap, f) <= |heap|
    ensures Count(heap, f) > 0 <==> exists e <- heap :: f(e)
  {
    if heap != [] {
      CountBounds(heap[1..], f);
      assert heap == [heap[0]] + heap[1..];
    }
  }

  // ---------- Steps ----------

  datatype State = State(heap: seq<Entry>, config: Config)

  /** `Peek`: the entry at `index` is popped and put back.  `Dispatch`: the entry at `index` is popped at `at`,
      and by `until` it has been put back if its test is still switched on.  `Reload`: between `at` and `until`
      the configuration is replaced and `added` goes into the heap. */
  datatype Event =
    | Peek(at: real, until: real, index: nat)
    | Dispatch(at: real, until: real, index: nat, requeued: seq<Entry>)
    | Reload(at: real, until: real, config: Config, added: seq<Entry>)

  /** A due time that `add` can draw for `d` between `at` and `until`. */
  predicate Drawable(d: Delta, at: real, until: real, due: real) {
    at + d.period - d.spread <= due <= until + d.period + d.spread
  }

  /** At start-up the delay is spread evenly between nothing and three times the period drawn. */
  predicate DrawableAtStart(d: Delta, at: real, until: real, due: real) {
    var lo, hi := 3.0 * (d.period - d.spread), 3.0 * (d.period + d.spread);
    at + (if lo < 0.0 then lo else 0.0) <= due <= until + hi
  }

  /** Exactly one entry for every test that is on and not in `known`, with a due time `add` can draw. */
  ghost predicate AddedAnew(c: Config, known: iset<Pair>, initial: bool, at: real, until: real, added: seq<Entry>) {
    && (forall p :: Count(added, For(p)) == if Active(c, p) && p !in known then 1 else 0)
    && forall e <- added :: Active(c, e.pair) &&
         if initial then DrawableAtStart(DeltaOf(c, e.pair), at, until, e.due)
         else Drawable(DeltaOf(c, e.pair), at, until, e.due)
  }

  ghost function ListedPairs(c: Config): iset<Pair> {
    iset p | Listed(c, p)
  }

  ghost predicate Enabled(s: State, ev: Event) {
    && ev.at <= ev.until
    && match ev
       case Peek(_, _, i) => IsMin(s.heap, i)
       case Dispatch(at, until, i, requeued) =>
         && IsMin(s.heap, i) && s.heap[i].due <= at
         && var p := s.heap[i].pair;
            if Active(s.config, p) then
              |requeued| == 1 && requeued[0].pair == p && Drawable(DeltaOf(s.config, p), at, until, requeued[0].due)
            else requeued == []
       case Reload(at, until, c, added) =>
         AddedAnew(c, ListedPairs(s.config), false, at, until, added)
  }

  function Apply(s: State, ev: Event): State
    requires !ev.Reload? ==> ev.index < |s.heap|
  {
    match ev
    case Peek(_, _, i) => State(Without(s.heap, i) + [s.heap[i]], s.config)
    case Dispatch(_, _, i, requeued) => State(Without(s.heap, i) + requeued, s.config)
    case Reload(_, _, c, added) => State(s.heap + added, c)
  }

  // ---------- Which setting counts ----------

  /** The spec is in the stanza that the host refers to. */
  predicate InStanza(c: Config, p: Pair) {
    && p.node in c.hosts && c.hosts[p.node].ref.Some? && c.hosts[p.node].ref.value in c.settings
    && p.spec in c.settings[c.hosts[p.node].ref.value]
  }

  /** What a host lists itself wins over its stanza, the stanza gives the rest, and nothing else is listed. */
  lemma SettingThatCounts(c: Config, p: Pair)
    ensures Listed(c, p) <==> p.node in c.hosts && (p.spec in c.hosts[p.node].own || InStanza(c, p))
    ensures Listed(c, p) && p.spec in c.hosts[p.node].own ==> DeltaOf(c, p) == c.hosts[p.node].own[p.spec]
    ensures Listed(c, p) && p.spec !in c.hosts[p.node].own ==>
              DeltaOf(c, p) == c.settings[c.hosts[p.node].ref.value][p.spec]
  {
  }

  /** The entry that replaces the dispatched one of the test, if any, for the setting `d`: none if that switches the
      test off, and else one that is due a period later, give or take the spread. */
  predicate RequeuedBy(d: Delta, p: Pair, at: real, until: real, requeued: seq<Entry>) {
    if d.period == 0.0 then requeued == []
    else
      && |requeued| == 1 && requeued[0].pair == p
      && at + d.period - d.spread <= requeued[0].due <= until + d.period + d.spread
  }

  /** A test is put back by the host's own setting, else by that of its stanza, else not at all. */
  predicate Requeued(c: Config, p: Pair, at: real, until: real, requeued: seq<Entry>) {
    if p.node in c.hosts && p.spec in c.hosts[p.node].own then
      RequeuedBy(c.hosts[p.node].own[p.spec], p, at, until, requeued)
    else if InStanza(c, p) then
      RequeuedBy(c.settings[c.hosts[p.node].ref.value][p.spec], p, at, until, requeued)
    else requeued == []
  }

  lemma DispatchRequeues(s: State, ev: Event)
    requires Enabled(s, ev) && ev.Dispatch?
    ensures Requeued(s.config, s.heap[ev.index].pair, ev.at, ev.until, ev.requeued)
  {
    SettingThatCounts(s.config, s.heap[ev.index].pair);
  }

  /** At start-up a test is put in up to three periods ahead, by the host's own setting if it has one. */
  lemma StartsWithinThreePeriods(c: Config, at: real, until: real, added: seq<Entry>, e: Entry)
    requires AddedAnew(c, iset{}, true, at, until, added) && e in added && PositiveDelays(c)
    ensures e.pair.node in c.hosts && (e.pair.spec in c.hosts[e.pair.node].own || InStanza(c, e.pair))
    ensures var d := if e.pair.spec in c.hosts[e.pair.node].own then c.hosts[e.pair.node].own[e.pair.spec]
                     else c.settings[c.hosts[e.pair.node].ref.value][e.pair.spec];
            d.period != 0.0 && at <= e.due <= until + 3.0 * (d.period + d.spread)
  {
    SettingThatCounts(c, e.pair);
    assert DeltaOf(c, e.pair).period > DeltaOf(c, e.pair).spread;
  }

  /** With a clock that stands still, a due time can be drawn exactly when it is a period ahead, give or take the
      spread, and at start-up anywhere in the next three. */
  lemma DrawnExactlyWhen(d: Delta, now: real, due: real)
    requires d.period >= d.spread >= 0.0
    ensures Drawable(d, now, now, due) <==> now + d.period - d.spread <= due <= now + d.period + d.spread
    ensures DrawableAtStart(d, now, now, due) <==> now <= due <= now + 3.0 * (d.period + d.spread)
  {
  }

  /** The own value of a host in practice: it is polled every minute, though its stanza says every quarter of an
      hour. */
  lemma OwnValueWins(s: State, ev: Event)
    requires s.config == Config(map["rtr" := Host(Some("default"), map["arp" := Delta(60.0, 0.0)])],
                                map["default" := map["arp" := Delta(900.0, 0.0), "mac" := Delta(900.0, 0.0)]])
    requires s.heap == [Entry(5.0, Pair("rtr", "arp"))] && ev.Dispatch? && ev.at == 10.0 && ev.until == 10.0
    requires Enabled(s, ev)
    ensures ev.requeued == [Entry(70.0, Pair("rtr", "arp"))]
    ensures Listed(s.config, Pair("rtr", "mac")) && DeltaOf(s.config, Pair("rtr", "mac")) == Delta(900.0, 0.0)
  {
    DispatchRequeues(s, ev);
    SettingThatCounts(s.config, Pair("rtr", "mac"));
  }
}
