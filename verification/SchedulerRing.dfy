/**
 Which scheduler publishes what (lib/ptolemy/scheduler/managers.py:208-238, 303-307).  Every scheduler
 runs the whole schedule, keeps a heartbeat in a shared map, and publishes only the items that the
 consistent-hash ring of the hosts it believes alive assigns to itself.
 */
module SchedulerRing {
  import opened Basics

  type Host = string
  type Item = string

  const DEAD_TIME: real := 20.0
  const PERIOD: real := 10.0

  type States = map<Host, real>

  /** ConsistentHashRing.get_node, of which only this is used: it depends on the members and the item
      alone, and names a member if there is one. */
  type Ring = (set<Host>, Item) -> Host

  ghost predicate NamesAMember(pick: Ring) {
    forall hosts: set<Host>, item: Item :: hosts != {} ==> pick(hosts, item) in hosts
  }

  /** The ring of a host after it has looked at `states` at time `t`: hosts with a recent heartbeat are
      in, silent ones are out, hosts without an entry stay as they were. */
  function RingAfter(ring: set<Host>, states: States, t: real): set<Host> {
    (set h | h in states && t - states[h] <= DEAD_TIME) + (ring - states.Keys)
  }

  class Memcache {
    var states: Option<States>
  }

  class Keeper {
    const host: Host
    var ring: set<Host>
    var last: Option<real>

    constructor (host: Host)
      ensures this.host == host && ring == {} && last == None
    {
      this.host, ring, last := host, {}, None;
    }

    ghost function Seen(mc: Memcache): States
      reads mc
    {
      if mc.states.Some? then mc.states.value else map[]
    }

    /** What this host and the shared map are in a world of all hosts. */
    ghost predicate Reflects(w: World, mc: Memcache)
      reads this, mc
    {
      && w.states == Seen(mc) && RingOf(w, host) == ring
      && (if last.None? then host !in w.last else host in w.last && w.last[host] == last.value)
    }

    /** update_ring: does nothing within PERIOD of the last update.  The clock reads `n` on entry and
        `t` for the heartbeat. */
    method UpdateRing(mc: Memcache, n: real, t: real)
      requires n <= t
      modifies this, mc
      ensures if old(last).Some? && old(last).value > n - PERIOD then
                ring == old(ring) && last == old(last) && mc.states == old(mc.states)
              else
                && mc.states == Some(old(Seen(mc))[host := t])
                && last == Some(n)
                && ring == RingAfter(old(ring), old(Seen(mc))[host := t], t)
      ensures forall w: World {:trigger Update(w, Call(host, n, t))} ::
                old(Reflects(w, mc)) ==> Reflects(Update(w, Call(host, n, t)), mc)
    {
      if last.None? {
        last := Some(n - PERIOD);
      }
      if last.value <= n - PERIOD {
        var states := if mc.states.Some? then mc.states.value else map[];
        states := states[host := t];
        var todo := states.Keys;
        ghost var before := ring;
        while todo != {}
          invariant todo <= states.Keys
          invariant forall h :: h in ring <==>
                      if h in states && h !in todo then t - states[h] <= DEAD_TIME else h in before
          decreases todo
        {
          var i :| i in todo;
          if t - states[i] <= DEAD_TIME {
            if i !in ring {
              ring := ring + {i};
            }
          } else {
            ring := ring - {i};
          }
          todo := todo - {i};
        }
        assert ring == RingAfter(before, states, t);
        mc.states := Some(states);
        last := Some(n);
      }
    }
  }

  // ---------- All hosts together ----------

  /** The shared map, and every host's own ring and time of last update. */
  datatype World = World(states: States, rings: map<Host, set<Host>>, last: map<Host, real>)

  /** `host` calls update_ring; its clock reads `n`, and `t` a little later. */
  datatype Call = Call(host: Host, n: real, t: real)

  predicate Due(w: World, c: Call) {
    !(c.host in w.last && w.last[c.host] > c.n - PERIOD)
  }

  function RingOf(w: World, h: Host): set<Host> {
    if h in w.rings then w.rings[h] else {}
  }

  function Update(w: World, c: Call): World {
    if !Due(w, c) then w
    else
      var states := w.states[c.host := c.t];
      World(states, w.rings[c.host := RingAfter(RingOf(w, c.host), states, c.t)], w.last[c.host := c.n])
  }

  /** One call, told in seconds: within ten of the last update nothing happens, and otherwise the host leaves its
      heartbeat and has in its ring those whose heartbeat is at most twenty old. */
  lemma OneCall(w: World, c: Call, h: Host)
    ensures c.host in w.last && c.n < w.last[c.host] + 10.0 ==> Update(w, c) == w
    ensures c.host !in w.last || w.last[c.host] + 10.0 <= c.n ==>
              && Update(w, c).states == w.states[c.host := c.t] && Update(w, c).last == w.last[c.host := c.n]
              && (h != c.host ==> RingOf(Update(w, c), h) == RingOf(w, h))
              && (h in w.states || h == c.host ==>
                    (h in RingOf(Update(w, c), c.host)
                     <==> c.t <= 20.0 + if h == c.host then c.t else w.states[h]))
              && (h !in w.states && h != c.host ==>
                    (h in RingOf(Update(w, c), c.host) <==> h in RingOf(w, c.host)))
  {
  }

  ghost predicate Run(worlds: seq<World>, calls: seq<Call>) {
    && |worlds| == |calls| + 1
    && (forall i | 0 <= i < |calls| :: calls[i].n <= calls[i].t && worlds[i + 1] == Update(worlds[i], calls[i]))
    && (forall i, j | 0 <= i < j < |calls| :: calls[i].t <= calls[j].n)
  }

  /** What update_ring keeps: rings hold only hosts with an entry in the shared map, a heartbeat is no
      older than the last update, and whoever has updated is in its own ring. */
  ghost predicate Sane(w: World) {
    && w.last.Keys == w.rings.Keys
    && (forall h <- w.rings :: w.rings[h] <= w.states.Keys && h in w.rings[h])
    && (forall h <- w.last :: h in w.states && w.last[h] <= w.states[h])
  }

  lemma UpdateKeepsSane(w: World, c: Call)
    requires Sane(w) && c.n <= c.t
    ensures Sane(Update(w, c))
    ensures Due(w, c) ==>
              var states := Update(w, c).states;
              Update(w, c).rings[c.host] == set h | h in states && c.t - states[h] <= DEAD_TIME
  {
    if Due(w, c) {
      var states := w.states[c.host := c.t];
      assert RingOf(w, c.host) <= states.Keys;
    }
  }

  /** No heartbeat is ahead of the clock, at any time in any run. */
  lemma {:induction false} HeartbeatsAreNotAhead(worlds: seq<World>, calls: seq<Call>, k: nat)
    requires Run(worlds, calls) && 0 < k < |worlds|
    requires forall h <- worlds[0].states :: worlds[0].states[h] <= calls[0].n
    ensures forall h <- worlds[k].states :: worlds[k].states[h] <= calls[k - 1].t
  {
    if k > 1 {
      HeartbeatsAreNotAhead(worlds, calls, k - 1);
    }
    assert worlds[k] == Update(worlds[k - 1], calls[k - 1]);
  }

  /** A host that has updated is in its own ring, at any time in any run. */
  lemma {:induction false} OwnRingHasSelf(worlds: seq<World>, calls: seq<Call>, k: nat)
    requires Run(worlds, calls) && Sane(worlds[0]) && k < |worlds|
    ensures Sane(worlds[k])
    ensures forall h <- worlds[k].rings :: h in worlds[k].rings[h]
  {
    if k > 0 {
      OwnRingHasSelf(worlds, calls, k - 1);
      UpdateKeepsSane(worlds[k - 1], calls[k - 1]);
    }
  }

  /** A host that makes no call keeps its old heartbeat. */
  lemma {:induction false} SilenceKeepsHeartbeat(worlds: seq<World>, calls: seq<Call>, g: Host, i: nat, j: nat)
    requires Run(worlds, calls) && i <= j < |worlds| && g in worlds[i].states
    requires forall k | i <= k < j :: calls[k].host != g
    ensures g in worlds[j].states && worlds[j].states[g] == worlds[i].states[g]
    decreases j - i
  {
    if i < j {
      SilenceKeepsHeartbeat(worlds, calls, g, i, j - 1);
    }
  }

  /** A silent host is absent from every ring updated more than DEAD_TIME after its last heartbeat. */
  lemma SilentHostDropsOut(worlds: seq<World>, calls: seq<Call>, g: Host, i: nat, j: nat)
    requires Run(worlds, calls) && Sane(worlds[0]) && i <= j < |calls| && g in worlds[i].states
    requires forall k | i <= k <= j :: calls[k].host != g
    requires Due(worlds[j], calls[j]) && calls[j].t > worlds[i].states[g] + DEAD_TIME
    ensures g !in worlds[j + 1].rings[calls[j].host]
  {
    OwnRingHasSelf(worlds, calls, j);
    SilenceKeepsHeartbeat(worlds, calls, g, i, j);
    UpdateKeepsSane(worlds[j], calls[j]);
  }

  // ---------- Live hosts stay fresh ----------

  /** From call `from` on, `g` calls so often that a call of its own is never further back than
      DEAD_TIME - PERIOD.  Calls inside PERIOD of an update do nothing, hence the difference. */
  ghost predicate CallsOften(calls: seq<Call>, g: Host, from: nat) {
    forall j {:trigger CalledLately(calls, g, j)} | from <= j < |calls| :: CalledLately(calls, g, j)
  }

  ghost predicate CalledLately(calls: seq<Call>, g: Host, j: nat)
    requires j < |calls|
  {
    exists i :: 0 <= i <= j && calls[i].host == g && calls[i].n >= calls[j].t - (DEAD_TIME - PERIOD)
  }

  /** The heartbeat of a host never goes back, and a call leaves it at most PERIOD old. */
  lemma {:induction false} HeartbeatSince(worlds: seq<World>, calls: seq<Call>, g: Host, i: nat, j: nat)
    requires Run(worlds, calls) && Sane(worlds[0]) && i < j < |worlds| && calls[i].host == g
    ensures g in worlds[j].states && worlds[j].states[g] > calls[i].n - PERIOD
    decreases j - i
  {
    OwnRingHasSelf(worlds, calls, i);
    assert worlds[i + 1] == Update(worlds[i], calls[i]);
    if i + 1 < j {
      HeartbeatSince(worlds, calls, g, i, j - 1);
      assert worlds[j] == Update(worlds[j - 1], calls[j - 1]);
      assert calls[i].t <= calls[j - 1].n;
    }
  }

  /** Just after call `j` the heartbeat of `g` is recent enough for the caller. */
  ghost predicate FreshAt(worlds: seq<World>, calls: seq<Call>, g: Host, j: nat)
    requires |worlds| == |calls| + 1 && j < |calls|
  {
    g in worlds[j + 1].states && calls[j].t - worlds[j + 1].states[g] <= DEAD_TIME
  }

  /** A host that calls often is never taken for dead. */
  lemma LiveHostIsFresh(worlds: seq<World>, calls: seq<Call>, g: Host, from: nat, j: nat)
    requires Run(worlds, calls) && Sane(worlds[0]) && from <= j < |calls| && CallsOften(calls, g, from)
    ensures FreshAt(worlds, calls, g, j)
  {
    assert CalledLately(calls, g, j);
    var i :| 0 <= i <= j && calls[i].host == g && calls[i].n >= calls[j].t - (DEAD_TIME - PERIOD);
    HeartbeatSince(worlds, calls, g, i, j + 1);
  }

  /** Call `i` is one by `g` that updates. */
  ghost predicate UpdatesAt(worlds: seq<World>, calls: seq<Call>, g: Host, i: int)
    requires |worlds| == |calls| + 1
  {
    0 <= i < |calls| && calls[i].host == g && Due(worlds[i], calls[i])
  }

  /** The heartbeat of `g` is from `t` or later. */
  ghost predicate BeatenSince(w: World, g: Host, t: real) {
    g in w.states && w.states[g] >= t
  }

  /** A heartbeat is exactly as recent as the last update of its host, or as it was at the start. */
  lemma {:induction false} BeatenSinceExactlyWhen(worlds: seq<World>, calls: seq<Call>, g: Host, t: real, k: nat)
    requires Run(worlds, calls) && k < |worlds|
    requires |calls| > 0 ==> forall h <- worlds[0].states :: worlds[0].states[h] <= calls[0].n
    ensures BeatenSince(worlds[k], g, t) <==>
              BeatenSince(worlds[0], g, t) || exists i :: i < k && UpdatesAt(worlds, calls, g, i) && calls[i].t >= t
  {
    if k > 0 {
      BeatenSinceExactlyWhen(worlds, calls, g, t, k - 1);
      assert worlds[k] == Update(worlds[k - 1], calls[k - 1]);
      if UpdatesAt(worlds, calls, g, k - 1) {
        OlderThanCall(worlds, calls, g, t, k - 1);
      }
    }
  }

  /** Nothing before a call is later than its clock. */
  lemma OlderThanCall(worlds: seq<World>, calls: seq<Call>, g: Host, t: real, k: nat)
    requires Run(worlds, calls) && k < |calls|
    requires forall h <- worlds[0].states :: worlds[0].states[h] <= calls[0].n
    ensures BeatenSince(worlds[0], g, t) || (exists i :: i < k && UpdatesAt(worlds, calls, g, i) && calls[i].t >= t) ==>
              calls[k].t >= t
  {
    assert calls[0].n <= calls[0].t && (k > 0 ==> calls[0].t <= calls[k].n);
  }

  /** So a heartbeat is recent exactly when its host has updated within the dead time, or just before the run. */
  lemma FreshExactlyWhen(worlds: seq<World>, calls: seq<Call>, g: Host, j: nat)
    requires Run(worlds, calls) && j < |calls|
    requires forall h <- worlds[0].states :: worlds[0].states[h] <= calls[0].n
    ensures FreshAt(worlds, calls, g, j) <==>
              || BeatenSince(worlds[0], g, calls[j].t - DEAD_TIME)
              || exists i :: i <= j && UpdatesAt(worlds, calls, g, i) && calls[i].t >= calls[j].t - DEAD_TIME
  {
    BeatenSinceExactlyWhen(worlds, calls, g, calls[j].t - DEAD_TIME, j + 1);
    assert BeatenSince(worlds[j + 1], g, calls[j].t - DEAD_TIME) <==> FreshAt(worlds, calls, g, j);
  }

  /** It is updates that count: calls at 0, 9.99 and 24.99 are never more than 15 s apart, but the second of them
      comes too soon to update, and a host that looks just before the third takes the caller for dead. */
  lemma CallsWithinDeadTimeAreNotEnough(worlds: seq<World>, calls: seq<Call>)
    requires calls == [Call("a", 0.0, 0.0), Call("a", 9.99, 9.99), Call("b", 24.98, 24.98), Call("a", 24.99, 24.99)]
    requires Run(worlds, calls) && worlds[0] == World(map[], map[], map[])
    ensures "b" in worlds[3].rings && worlds[3].rings["b"] == {"b"}
  {
    var w1 := World(map["a" := 0.0], map["a" := {"a"}], map["a" := 0.0]);
    assert worlds[1] == Update(worlds[0], calls[0]);
    assert RingAfter({}, map["a" := 0.0], 0.0) == {"a"};
    assert worlds[1] == w1;
    assert worlds[2] == Update(worlds[1], calls[1]) == w1;
    assert worlds[3] == Update(worlds[2], calls[2]);
    var states: States := map["a" := 0.0, "b" := 24.98];
    assert worlds[3].states == states;
    assert RingAfter({}, states, 24.98) == {"b"};
  }

  // ---------- Agreement ----------

  /** From call `from` on only the live hosts call, their heartbeats are recent whenever one of them calls, and the
      heartbeats of all others are too old for every update. */
  ghost predicate Settled(worlds: seq<World>, calls: seq<Call>, live: set<Host>, from: nat)
    requires |worlds| == |calls| + 1 && from < |worlds|
  {
    && (forall g, j {:trigger FreshAt(worlds, calls, g, j)} | g in live && from <= j < |calls| ::
          FreshAt(worlds, calls, g, j))
    && (forall j | from <= j < |calls| :: calls[j].host in live)
    && (forall g <- worlds[from].states :: g !in live ==>
          forall j | from <= j < |calls| :: calls[j].t > worlds[from].states[g] + DEAD_TIME)
  }

  lemma {:induction false} OthersStaySilent(worlds: seq<World>, calls: seq<Call>, live: set<Host>, from: nat, j: nat)
    requires Run(worlds, calls) && from <= j < |worlds| && Settled(worlds, calls, live, from)
    ensures forall g <- worlds[j].states ::
              g in live || (g in worlds[from].states && worlds[j].states[g] == worlds[from].states[g])
    decreases j - from
  {
    if from < j {
      OthersStaySilent(worlds, calls, live, from, j - 1);
      assert calls[j - 1].host in live;
    }
  }

  /** Every update in settled times sees exactly the live hosts. */
  lemma SettledUpdateSeesLive(worlds: seq<World>, calls: seq<Call>, live: set<Host>, from: nat, j: nat)
    requires Run(worlds, calls) && Sane(worlds[0]) && from <= j < |calls| && Settled(worlds, calls, live, from)
    requires Due(worlds[j], calls[j])
    ensures worlds[j + 1].rings[calls[j].host] == live
  {
    OwnRingHasSelf(worlds, calls, j);
    UpdateKeepsSane(worlds[j], calls[j]);
    var next := worlds[j + 1];
    OthersStaySilent(worlds, calls, live, from, j + 1);
    forall g ensures g in next.rings[calls[j].host] <==> g in live {
      if g in live {
        assert FreshAt(worlds, calls, g, j);
      }
    }
  }

  /** `h` has updated its ring since `from`. */
  ghost predicate UpdatedSince(worlds: seq<World>, calls: seq<Call>, h: Host, from: nat, k: nat)
    requires |worlds| == |calls| + 1
  {
    exists j :: from <= j < k && j < |calls| && calls[j].host == h && Due(worlds[j], calls[j])
  }

  lemma {:induction false} RingStaysLive(worlds: seq<World>, calls: seq<Call>, live: set<Host>, from: nat,
                                         h: Host, k: nat)
    requires Run(worlds, calls) && Sane(worlds[0]) && from <= k < |worlds| && Settled(worlds, calls, live, from)
    requires UpdatedSince(worlds, calls, h, from, k)
    ensures h in worlds[k].rings && worlds[k].rings[h] == live
    decreases k
  {
    assert worlds[k] == Update(worlds[k - 1], calls[k - 1]);
    if calls[k - 1].host == h && Due(worlds[k - 1], calls[k - 1]) {
      SettledUpdateSeesLive(worlds, calls, live, from, k - 1);
    } else {
      var j :| from <= j < k && j < |calls| && calls[j].host == h && Due(worlds[j], calls[j]);
      assert j < k - 1;
      RingStaysLive(worlds, calls, live, from, h, k - 1);
    }
  }

  ghost predicate Publishes(w: World, pick: Ring, h: Host, item: Item) {
    pick(RingOf(w, h), item) == h
  }

  /** Once all live hosts have updated after the last membership change, every item has exactly one
      publisher among them. */
  lemma ExactlyOnePublisher(worlds: seq<World>, calls: seq<Call>, live: set<Host>, from: nat, k: nat,
                            pick: Ring, item: Item) returns (owner: Host)
    requires Run(worlds, calls) && Sane(worlds[0]) && from <= k < |worlds| && Settled(worlds, calls, live, from)
    requires live != {} && NamesAMember(pick)
    requires forall h <- live :: UpdatedSince(worlds, calls, h, from, k)
    ensures owner in live && forall h <- live :: Publishes(worlds[k], pick, h, item) <==> h == owner
  {
    owner := pick(live, item);
    forall h | h in live ensures RingOf(worlds[k], h) == live {
      RingStaysLive(worlds, calls, live, from, h, k);
    }
  }
}
