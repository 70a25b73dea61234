/**
 Spreading the metrics of a message over the carbon workers (lib/ptolemy/storage/feeders/carbon.py:117-180):
 each metric goes to the owner of its full key on a hash ring, in a message that the worker takes apart
 again with the same feeder code.
 */
module CarbonFanOut {
  import opened Basics
  import opened Texts
  import opened Feeder
  import opened CarbonKeys

  /** A carbon server and the instance on it. */
  type Node = (string, string)

  datatype SetupError = NotAnInstance(text: string) | BadPort(text: string) | AlreadyConfigured(node: Node)

  datatype TaskError = BadGroup | NoDevice | NoInstances

  /** One metric of one item of a message. */
  datatype Entry = Entry(index: nat, metric: string)

  /** A message for a worker with the key that routes it. */
  datatype Shard = Shard(routing: string, message: Message)

  const KEY_PREPEND := "ptolemy."

  // ---------- Routing keys ----------

  /** A configured `server:port:name`. */
  predicate IsInstance(text: string) {
    |Split(text, ':')| == 3 && ReadNumber(Split(text, ':')[1]).Some?
  }

  function NodeOf(text: string): Node
    requires IsInstance(text)
  {
    (Split(text, ':')[0], Split(text, ':')[2])
  }

  function PortOf(text: string): int
    requires IsInstance(text)
  {
    ReadNumber(Split(text, ':')[1]).value
  }

  function HashKey(node: Node, port: string): string {
    Join([node.0, port, node.1], ':')
  }

  /** The hash key of an instance once the offset is added to its port. */
  function ShiftedKey(text: string, offset: int): string
    requires IsInstance(text)
  {
    HashKey(NodeOf(text), Number(PortOf(text) + offset))
  }

  /** From a hash key back to the key of the worker's queue. */
  function RoutingKey(h: string, offset: int): (r: Option<string>) {
    var a := Split(h, ':');
    if |a| >= 3 && ReadNumber(a[1]).Some? then
      Some(a[0] + ":" + Number(ReadNumber(a[1]).value - offset) + ":" + a[2])
    else None
  }

  lemma ShiftedKeySplits(text: string, offset: int)
    requires IsInstance(text)
    ensures Split(ShiftedKey(text, offset), ':') == [NodeOf(text).0, Number(PortOf(text) + offset), NodeOf(text).1]
  {
    JoinUndoesSplit(text, ':');
    NumberReadsBack(PortOf(text) + offset);
    SplitUndoesJoin([NodeOf(text).0, Number(PortOf(text) + offset), NodeOf(text).1], ':');
  }

  lemma JoinThree(a: string, b: string, c: string)
    ensures Join([a, b, c], ':') == a + ":" + b + ":" + c
  {
    assert [a, b, c][1..] == [b, c] && [b, c][1..] == [c];
    assert Join([b, c], ':') == b + [':'] + c;
    assert a + [':'] + (b + [':'] + c) == a + ":" + b + ":" + c;
  }

  lemma RoutingKeyIs(text: string, offset: int)
    requires IsInstance(text)
    ensures RoutingKey(ShiftedKey(text, offset), offset)
            == Some(Join([NodeOf(text).0, Number(PortOf(text)), NodeOf(text).1], ':'))
  {
    ShiftedKeySplits(text, offset);
    NumberReadsBack(PortOf(text) + offset);
    JoinThree(NodeOf(text).0, Number(PortOf(text)), NodeOf(text).1);
  }

  /** Adding the port offset and taking it away again leads back to the configured text, which is the key
      the worker listens on, exactly when its port is written in canonical form. */
  lemma RoutingReachesWorker(text: string, offset: int)
    requires IsInstance(text)
    ensures RoutingKey(ShiftedKey(text, offset), offset) == Some(text) <==> Canonical(Split(text, ':')[1])
  {
    RoutingKeyIs(text, offset);
    JoinUndoesSplit(text, ':');
    var parts := Split(text, ':');
    var back := [NodeOf(text).0, Number(PortOf(text)), NodeOf(text).1];
    NumberReadsBack(PortOf(text));
    SplitUndoesJoin(back, ':');
    CanonicalWritesBack(parts[1]);
    if Canonical(parts[1]) {
      assert back == parts;
    } else {
      assert back[1] != parts[1];
    }
  }

  lemma ZeroFirst()
    ensures ReadNumber("02004").Some? && !Canonical("02004")
  {
    assert AllDigits("02004");
  }

  /** A configured port with a leading zero is one that is not: what is sent for it reaches no queue. */
  lemma LeadingZeroMissesWorker(offset: int)
    ensures IsInstance("h:02004:a") && RoutingKey(ShiftedKey("h:02004:a", offset), offset) != Some("h:02004:a")
  {
    var parts := ["h", "02004", "a"];
    JoinThree("h", "02004", "a");
    assert "h" + ":" + "02004" + ":" + "a" == "h:02004:a";
    forall p | p in parts ensures ':' !in p {
    }
    SplitUndoesJoin(parts, ':');
    ZeroFirst();
    RoutingReachesWorker("h:02004:a", offset);
  }

  // ---------- The fleet of carbon instances ----------

  /** ConsistentHashRing.get_node: it depends on the members and the key alone, and names a member. */
  type Ring = (set<Node>, string) -> Node

  ghost predicate NamesAMember(ring: Ring) {
    forall nodes: set<Node>, key: string {:trigger ring(nodes, key)} :: nodes != {} ==> ring(nodes, key) in nodes
  }

  datatype Fleet = Fleet(ring: Ring, ports: map<Node, string>)

  /** The hash key of the instance that owns a carbon key. */
  function HashOf(f: Fleet, key: string): string
    requires NamesAMember(f.ring) && f.ports != map[]
  {
    var node := f.ring(f.ports.Keys, key);
    HashKey(node, f.ports[node])
  }

  // ---------- What must go where ----------

  predicate IsEntry(msg: Message, e: Entry)
    requires WellFormed(msg.meta)
  {
    e.index < |msg.data| && e.metric in DatumAt(msg, e.index).data
  }

  ghost predicate Ready(f: Fleet, msg: Message) {
    NamesAMember(f.ring) && f.ports != map[] && WellFormed(msg.meta)
  }

  /** The full key of a metric. */
  function FullKey(msg: Message, e: Entry): string
    requires WellFormed(msg.meta) && IsEntry(msg, e)
    requires HasKey(msg.meta, DatumAt(msg, e.index).context)
  {
    var meta := msg.meta.(group := GroupName(msg.meta));
    CarbonKey(meta, DatumAt(msg, e.index).context, KEY_PREPEND) + "." + e.metric
  }

  /** The full key of a metric, split at its dots: the parts for its context and then the metric, with only the
      metric added to a key that is given. */
  lemma FullKeySplits(msg: Message, e: Entry)
    requires WellFormed(msg.meta) && IsEntry(msg, e) && '.' !in e.metric
    requires HasKey(msg.meta, DatumAt(msg, e.index).context)
    ensures var meta, context := msg.meta.(group := GroupName(msg.meta)), DatumAt(msg, e.index).context;
            if msg.meta.carbonKey.Some? then FullKey(msg, e) == msg.meta.carbonKey.value + "." + e.metric
            else CleanContext(meta, context) ==> SplitsInto(meta, context, Split(FullKey(msg, e), '.'), e.metric)
  {
    var meta, context := msg.meta.(group := GroupName(msg.meta)), DatumAt(msg, e.index).context;
    assert KEY_PREPEND == "ptolemy" + ".";
    if msg.meta.carbonKey.None? && CleanContext(meta, context) {
      var parts := KeyIsJoined(meta, context, "ptolemy");
      JoinAppends(parts, [e.metric], '.');
      SplitUndoesJoin(parts + [e.metric], '.');
      assert (parts + [e.metric])[..|parts|] == parts;
    }
  }

  ghost predicate SplitsInto(meta: Meta, context: Doc, parts: seq<string>, metric: string) {
    |parts| > 0 && parts[|parts| - 1] == metric && PartsOf(meta, context, "ptolemy", parts[..|parts| - 1])
  }

  lemma PartsTellMetrics(meta: Meta, c: Doc, d: Doc, parts: seq<string>, m: string, n: string)
    requires SplitsInto(meta, c, parts, m) && SplitsInto(meta, d, parts, n) && c.Keys == d.Keys
    ensures c == d && m == n
  {
    PartsTellContexts(meta, c, d, "ptolemy", parts[..|parts| - 1]);
  }

  /** Metrics of contexts with the same keys have the same full key just when they are the same metric of the
      same context, as long as no value holds a separator. */
  lemma SameFullKeyExactlyWhen(msg: Message, e: Entry, d: Entry)
    requires WellFormed(msg.meta) && IsEntry(msg, e) && IsEntry(msg, d) && '.' !in e.metric && '.' !in d.metric
    requires msg.meta.carbonKey.None? && DatumAt(msg, e.index).context.Keys == DatumAt(msg, d.index).context.Keys
    requires CleanContext(msg.meta.(group := GroupName(msg.meta)), DatumAt(msg, e.index).context)
    requires CleanContext(msg.meta.(group := GroupName(msg.meta)), DatumAt(msg, d.index).context)
    ensures FullKey(msg, e) == FullKey(msg, d)
            <==> DatumAt(msg, e.index).context == DatumAt(msg, d.index).context && e.metric == d.metric
  {
    FullKeySplits(msg, e);
    FullKeySplits(msg, d);
    var meta := msg.meta.(group := GroupName(msg.meta));
    if FullKey(msg, e) == FullKey(msg, d) {
      var parts := Split(FullKey(msg, e), '.');
      PartsTellMetrics(meta, DatumAt(msg, e.index).context, DatumAt(msg, d.index).context, parts, e.metric, d.metric);
    }
  }

  /** What is sent for a metric: its value and the key values of its context. */
  function Partial(context: Doc, names: set<string>, metric: string, value: string): Doc {
    map[metric := value] + Restrict(context, names)
  }

  ghost predicate Sent(f: Fleet, msg: Message, h: string, doc: Doc, e: Entry)
    requires Ready(f, msg)
  {
    && IsEntry(msg, e)
    && var d := DatumAt(msg, e.index);
    && HasKey(msg.meta, d.context)
    && h == HashOf(f, FullKey(msg, e))
    && doc == Partial(d.context, KeyNames(msg), e.metric, d.data[e.metric])
  }

  /** One shard holds what belongs to its instance, each metric once. */
  ghost predicate ShardHolds(f: Fleet, msg: Message, h: string, docs: seq<Doc>, at: seq<Entry>)
    requires Ready(f, msg)
  {
    && |docs| == |at|
    && (forall j :: 0 <= j < |at| ==> Sent(f, msg, h, docs[j], at[j]))
    && (forall j, k :: 0 <= j < k < |at| ==> at[j] != at[k])
  }

  ghost predicate AllShardsHold(f: Fleet, msg: Message, shards: map<string, seq<Doc>>, places: map<string, seq<Entry>>)
    requires Ready(f, msg)
  {
    shards.Keys == places.Keys &&
    forall h {:trigger GoodAt(f, msg, shards, places, h)} :: h in shards ==> GoodAt(f, msg, shards, places, h)
  }

  ghost predicate GoodAt(f: Fleet, msg: Message, shards: map<string, seq<Doc>>, places: map<string, seq<Entry>>,
                         h: string)
    requires Ready(f, msg)
  {
    h in shards && h in places && shards[h] != [] && ShardHolds(f, msg, h, shards[h], places[h])
  }

  ghost predicate IsAt(places: map<string, seq<Entry>>, h: string, e: Entry) {
    h in places && e in places[h]
  }

  /** Exactly the metrics in `done` have a place. */
  ghost predicate Placed(places: map<string, seq<Entry>>, done: set<Entry>) {
    && (forall h, e {:trigger IsAt(places, h, e)} :: IsAt(places, h, e) ==> e in done)
    && (forall e <- done :: exists h :: IsAt(places, h, e))
  }

  /** The metrics in `done`, and no others, are in the shards, each exactly once. */
  ghost predicate Spreads(f: Fleet, msg: Message, shards: map<string, seq<Doc>>, places: map<string, seq<Entry>>,
                          done: set<Entry>)
    requires Ready(f, msg)
  {
    AllShardsHold(f, msg, shards, places) && Placed(places, done)
  }

  lemma OneMoreInShard(f: Fleet, msg: Message, h: string, docs: seq<Doc>, at: seq<Entry>, doc: Doc, e: Entry)
    requires Ready(f, msg) && ShardHolds(f, msg, h, docs, at) && Sent(f, msg, h, doc, e) && e !in at
    ensures ShardHolds(f, msg, h, docs + [doc], at + [e])
  {
    var docs2, at2 := docs + [doc], at + [e];
    forall j | 0 <= j < |at2| ensures Sent(f, msg, h, docs2[j], at2[j]) {
      SentAt(f, msg, h, docs, at, doc, e, j);
    }
  }

  lemma SentAt(f: Fleet, msg: Message, h: string, docs: seq<Doc>, at: seq<Entry>, doc: Doc, e: Entry, j: nat)
    requires Ready(f, msg) && ShardHolds(f, msg, h, docs, at) && Sent(f, msg, h, doc, e) && j <= |at|
    ensures Sent(f, msg, h, (docs + [doc])[j], (at + [e])[j])
  {
    if j < |at| {
      assert Sent(f, msg, h, docs[j], at[j]);
      assert (docs + [doc])[j] == docs[j] && (at + [e])[j] == at[j];
    } else {
      assert (docs + [doc])[j] == doc && (at + [e])[j] == e;
    }
  }

  lemma OneMorePlaced(places: map<string, seq<Entry>>, done: set<Entry>, h: string, e: Entry)
    requires Placed(places, done) && e !in done
    ensures e !in ListOf(places, h)
    ensures Placed(places[h := ListOf(places, h) + [e]], done + {e})
  {
    var at := ListOf(places, h) + [e];
    var places2 := places[h := at];
    assert at[|at| - 1] == e && IsAt(places2, h, e);
    forall g, x ensures IsAt(places2, g, x) <==> IsAt(places, g, x) || (g == h && x == e) {
    }
    forall x | x in done ensures exists g :: IsAt(places2, g, x) {
      var g :| IsAt(places, g, x);
      assert IsAt(places2, g, x);
    }
    assert e in ListOf(places, h) ==> IsAt(places, h, e);
  }

  lemma OneMoreMetric(f: Fleet, msg: Message, shards: map<string, seq<Doc>>, places: map<string, seq<Entry>>,
                      done: set<Entry>, h: string, doc: Doc, e: Entry)
    requires Ready(f, msg) && Spreads(f, msg, shards, places, done) && e !in done && Sent(f, msg, h, doc, e)
    ensures Spreads(f, msg, shards[h := ListOf(shards, h) + [doc]], places[h := ListOf(places, h) + [e]], done + {e})
  {
    OneMorePlaced(places, done, h, e);
    assert h in shards ==> GoodAt(f, msg, shards, places, h);
    OneMoreInShard(f, msg, h, ListOf(shards, h), ListOf(places, h), doc, e);
    var shards2, places2 := shards[h := ListOf(shards, h) + [doc]], places[h := ListOf(places, h) + [e]];
    forall g | g in shards2 ensures GoodAt(f, msg, shards2, places2, g) {
      if g != h {
        assert GoodAt(f, msg, shards, places, g);
      }
    }
  }

  lemma EntryIsSent(f: Fleet, msg: Message, shards: map<string, seq<Doc>>, places: map<string, seq<Entry>>,
                    h: string, e: Entry)
    requires Ready(f, msg) && AllShardsHold(f, msg, shards, places) && IsAt(places, h, e)
    ensures IsEntry(msg, e) && HasKey(msg.meta, DatumAt(msg, e.index).context) && h == HashOf(f, FullKey(msg, e))
  {
    assert GoodAt(f, msg, shards, places, h);
    var j :| 0 <= j < |places[h]| && places[h][j] == e;
    assert Sent(f, msg, h, shards[h][j], places[h][j]);
  }

  ghost function EntriesOf(msg: Message, order: seq<nat>): set<Entry>
    requires WellFormed(msg.meta) && InRange(order, |msg.data|)
  {
    set i, k | i in order && k in DatumAt(msg, i).data :: Entry(i, k)
  }

  /** Every metric of the message is in exactly one shard, that of the owner of its full key. */
  ghost predicate FannedOut(f: Fleet, msg: Message, shards: map<string, seq<Doc>>, places: map<string, seq<Entry>>)
    requires Ready(f, msg)
  {
    && AllShardsHold(f, msg, shards, places)
    && (forall e {:trigger IsEntry(msg, e)} :: IsEntry(msg, e) ==>
          && HasKey(msg.meta, DatumAt(msg, e.index).context)
          && HashOf(f, FullKey(msg, e)) in places
          && e in places[HashOf(f, FullKey(msg, e))])
  }

  lemma AllIsFannedOut(f: Fleet, msg: Message, shards: map<string, seq<Doc>>, places: map<string, seq<Entry>>,
                       order: seq<nat>)
    requires Ready(f, msg) && Reordering(order, |msg.data|)
    requires Spreads(f, msg, shards, places, EntriesOf(msg, order))
    ensures FannedOut(f, msg, shards, places)
  {
    forall e | IsEntry(msg, e)
      ensures && HasKey(msg.meta, DatumAt(msg, e.index).context)
              && HashOf(f, FullKey(msg, e)) in places
              && e in places[HashOf(f, FullKey(msg, e))]
    {
      EntryListed(msg, order, e);
      var h :| IsAt(places, h, e);
      EntryIsSent(f, msg, shards, places, h, e);
    }
  }

  // ---------- The supervisor ----------

  /** The ports are those of the configured texts, with the offset added. */
  ghost predicate PortsOf(configured: set<string>, ports: map<Node, string>, offset: int) {
    && (forall t <- configured :: IsInstance(t) && NodeOf(t) in ports && ports[NodeOf(t)] == Number(PortOf(t) + offset))
    && (forall n <- ports :: exists t :: t in configured && IsInstance(t) && NodeOf(t) == n)
  }

  lemma PortsGrow(configured: set<string>, ports: map<Node, string>, offset: int, text: string)
    requires PortsOf(configured, ports, offset) && IsInstance(text) && NodeOf(text) !in ports
    ensures PortsOf(configured + {text}, ports[NodeOf(text) := Number(PortOf(text) + offset)], offset)
  {
    var configured2, ports2 := configured + {text}, ports[NodeOf(text) := Number(PortOf(text) + offset)];
    forall n | n in ports2 ensures exists t :: t in configured2 && IsInstance(t) && NodeOf(t) == n {
      if n == NodeOf(text) {
        assert text in configured2;
      } else {
        var t :| t in configured && IsInstance(t) && NodeOf(t) == n;
        assert t in configured2;
      }
    }
  }

  predicate SameNode(a: string, b: string) {
    IsInstance(a) && IsInstance(b) && NodeOf(a) == NodeOf(b)
  }

  /** The first `n` texts are instances, no two of them the same node. */
  ghost predicate Apart(instances: seq<string>, n: nat)
    requires n <= |instances|
  {
    && (forall i :: 0 <= i < n ==> IsInstance(instances[i]))
    && (forall i, j :: 0 <= i < j < n ==> !SameNode(instances[i], instances[j]))
  }

  ghost predicate Taken(instances: seq<string>, n: nat, text: string)
    requires n <= |instances|
  {
    exists i :: 0 <= i < n && SameNode(instances[i], text)
  }

  lemma ApartStep(instances: seq<string>, n: nat)
    requires n < |instances| && Apart(instances, n)
    ensures Apart(instances, n + 1) <==> IsInstance(instances[n]) && !Taken(instances, n, instances[n])
  {
  }

  lemma ApartGrows(instances: seq<string>, n: nat, ports: map<Node, string>, offset: int)
    requires n < |instances| && Apart(instances, n) && PortsOf(NameSet(instances[..n]), ports, offset)
    ensures NameSet(instances[..n + 1]) == NameSet(instances[..n]) + {instances[n]}
    ensures Apart(instances, n + 1) <==> IsInstance(instances[n]) && NodeOf(instances[n]) !in ports
  {
    assert instances[..n + 1] == instances[..n] + [instances[n]];
    OneMoreName(instances[..n], instances[n]);
    ApartStep(instances, n);
    if IsInstance(instances[n]) {
      TakenExactlyWhenSame(instances, n, ports, offset, instances[n]);
    }
  }

  lemma TakenExactlyWhenSame(instances: seq<string>, n: nat, ports: map<Node, string>, offset: int, text: string)
    requires n <= |instances| && PortsOf(NameSet(instances[..n]), ports, offset) && IsInstance(text)
    ensures NodeOf(text) in ports <==> Taken(instances, n, text)
  {
    if NodeOf(text) in ports {
      var t :| t in NameSet(instances[..n]) && IsInstance(t) && NodeOf(t) == NodeOf(text);
      var i :| 0 <= i < n && instances[i] == t;
      assert SameNode(instances[i], text);
    }
    forall i | 0 <= i < n && SameNode(instances[i], text) ensures NodeOf(text) in ports {
      assert instances[..n][i] in NameSet(instances[..n]);
    }
  }

  ghost function Of(i: nat, metrics: set<string>): set<Entry> {
    set k | k in metrics :: Entry(i, k)
  }

  /** The loop that copies the key values of the context into what is sent. */
  method AddKeyValues(partial: Doc, context: Doc, names: seq<string>) returns (r: Doc)
    ensures r == partial + Restrict(context, NameSet(names))
  {
    r := partial;
    for i := 0 to |names|
      invariant r == partial + Restrict(context, NameSet(names[..i]))
    {
      assert names[..i + 1] == names[..i] + [names[i]];
      OneMoreName(names[..i], names[i]);
      if names[i] in context {
        r := r[names[i] := context[names[i]]];
      } else {
        assert Restrict(context, NameSet(names[..i + 1])) == Restrict(context, NameSet(names[..i]));
      }
    }
    assert names[..|names|] == names;
  }

  // ---------- The loops of process_task ----------

  /** The metrics in `done` are in their shards. */
  ghost predicate Gathered(f: Fleet, msg: Message, shards: map<string, seq<Doc>>, places: map<string, seq<Entry>>,
                           done: set<Entry>)
    requires WellFormed(msg.meta) && NamesAMember(f.ring)
  {
    if f.ports == map[] then shards == map[] && done == {} else Spreads(f, msg, shards, places, done)
  }

  /** No key can be made for the metric, or there is no instance to take it. */
  ghost predicate Refused(f: Fleet, msg: Message, e: Entry)
    requires WellFormed(msg.meta)
  {
    IsEntry(msg, e) && (f.ports == map[] || !HasKey(msg.meta, DatumAt(msg, e.index).context))
  }

  /** The meta that comes out of the extraction. */
  predicate ExtractedMeta(msg: Message, meta: Meta)
    requires WellFormed(msg.meta)
  {
    meta == msg.meta.(group := GroupName(msg.meta), keyName := meta.keyName) && NameSet(meta.keyName) == KeyNames(msg)
  }

  /** One metric of one item. */
  method AddMetric(f: Fleet, ghost msg: Message, meta: Meta, datum: Datum, k: string, shards: map<string, seq<Doc>>,
                   ghost places: map<string, seq<Entry>>, ghost done: set<Entry>, ghost e: Entry)
    returns (r: Result<map<string, seq<Doc>>, TaskError>, ghost places2: map<string, seq<Entry>>)
    requires NamesAMember(f.ring) && WellFormed(msg.meta) && ExtractedMeta(msg, meta)
    requires IsEntry(msg, e) && datum == DatumAt(msg, e.index) && k == e.metric && e !in done
    requires Gathered(f, msg, shards, places, done)
    ensures r.Ok? ==> Gathered(f, msg, r.value, places2, done + {e})
    ensures r.Err? ==> Refused(f, msg, e)
  {
    places2 := places;
    if meta.carbonKey.None? && "device" !in datum.context {
      return Err(NoDevice), places2;
    }
    if f.ports.Keys == {} {
      return Err(NoInstances), places2;
    }
    var h := HashOf(f, CarbonKey(meta, datum.context, KEY_PREPEND) + "." + k);
    var partial := AddKeyValues(map[k := datum.data[k]], datum.context, meta.keyName);
    var had := if h in shards then shards[h] else [];
    assert Sent(f, msg, h, partial, e);
    OneMoreMetric(f, msg, shards, places, done, h, partial, e);
    places2 := places[h := ListOf(places, h) + [e]];
    return Ok(shards[h := had + [partial]]), places2;
  }

  /** The metrics of one item. */
  method AddItem(f: Fleet, ghost msg: Message, meta: Meta, datum: Datum, shards: map<string, seq<Doc>>,
                 ghost places: map<string, seq<Entry>>, ghost done: set<Entry>, ghost i: nat)
    returns (r: Result<map<string, seq<Doc>>, TaskError>, ghost places2: map<string, seq<Entry>>)
    requires NamesAMember(f.ring) && WellFormed(msg.meta) && ExtractedMeta(msg, meta)
    requires i < |msg.data| && datum == DatumAt(msg, i) && forall e <- done :: e.index != i
    requires Gathered(f, msg, shards, places, done)
    ensures r.Ok? ==> Gathered(f, msg, r.value, places2, done + Of(i, datum.data.Keys))
    ensures r.Err? ==> exists e :: Refused(f, msg, e)
  {
    var messages := shards;
    places2 := places;
    var todo := datum.data.Keys;
    assert done + Of(i, datum.data.Keys - todo) == done;
    while todo != {}
      invariant todo <= datum.data.Keys
      invariant Gathered(f, msg, messages, places2, done + Of(i, datum.data.Keys - todo))
      decreases todo
    {
      var k :| k in todo;
      var added;
      ghost var now := done + Of(i, datum.data.Keys - todo);
      ghost var e := Entry(i, k);
      added, places2 := AddMetric(f, msg, meta, datum, k, messages, places2, now, e);
      if added.Err? {
        return added, places2;
      }
      assert now + {e} == done + Of(i, datum.data.Keys - (todo - {k}));
      messages := added.value;
      todo := todo - {k};
    }
    assert datum.data.Keys - todo == datum.data.Keys;
    return Ok(messages), places2;
  }

  /** The metrics of all items, grouped by the instance they belong to. */
  method Gather(f: Fleet, ghost msg: Message, meta: Meta, datums: seq<Datum>, ghost order: seq<nat>)
    returns (r: Result<map<string, seq<Doc>>, TaskError>, ghost places: map<string, seq<Entry>>)
    requires NamesAMember(f.ring) && WellFormed(msg.meta) && ExtractedMeta(msg, meta)
    requires Laid(BaseContext(msg), KeyNames(msg), msg.data, datums, order) && Reordering(order, |msg.data|)
    ensures r.Ok? ==> Gathered(f, msg, r.value, places, EntriesOf(msg, order))
    ensures r.Err? ==> exists e :: Refused(f, msg, e)
  {
    var messages: map<string, seq<Doc>> := map[];
    places := map[];
    for j := 0 to |datums|
      invariant Gathered(f, msg, messages, places, EntriesOf(msg, order[..j]))
    {
      OneMorePlace(msg, order, j);
      var added;
      added, places := AddItem(f, msg, meta, datums[j], messages, places, EntriesOf(msg, order[..j]), order[j]);
      if added.Err? {
        return added, places;
      }
      messages := added.value;
    }
    assert order[..|datums|] == order;
    return Ok(messages), places;
  }

  lemma OneMorePlace(msg: Message, order: seq<nat>, j: nat)
    requires WellFormed(msg.meta) && j < |order| && Reordering(order, |msg.data|)
    ensures InRange(order[..j + 1], |msg.data|) && InRange(order[..j], |msg.data|)
    ensures forall e <- EntriesOf(msg, order[..j]) :: e.index != order[j]
    ensures EntriesOf(msg, order[..j + 1])
         == EntriesOf(msg, order[..j]) + Of(order[j], DatumAt(msg, order[j]).data.Keys)
  {
    assert order[..j + 1] == order[..j] + [order[j]];
  }

  lemma EntryListed(msg: Message, order: seq<nat>, e: Entry)
    requires WellFormed(msg.meta) && Reordering(order, |msg.data|)
    ensures IsEntry(msg, e) <==> e in EntriesOf(msg, order)
  {
    assert e == Entry(e.index, e.metric);
  }

  lemma NobodyRefused(f: Fleet, msg: Message, shards: map<string, seq<Doc>>, places: map<string, seq<Entry>>,
                      order: seq<nat>)
    requires NamesAMember(f.ring) && WellFormed(msg.meta) && Reordering(order, |msg.data|)
    requires Gathered(f, msg, shards, places, EntriesOf(msg, order))
    ensures forall e :: !Refused(f, msg, e)
    ensures f.ports != map[] ==> FannedOut(f, msg, shards, places)
  {
    if f.ports != map[] {
      AllIsFannedOut(f, msg, shards, places, order);
    } else {
      forall e: Entry ensures !IsEntry(msg, e) {
        EntryListed(msg, order, e);
      }
    }
  }

  /** The hash key and the routing key of a configured instance. */
  ghost predicate Routed(text: string, offset: int, h: string, routing: string) {
    IsInstance(text) && h == ShiftedKey(text, offset) && RoutingKey(h, offset) == Some(routing)
  }

  ghost predicate Addressed(configured: set<string>, offset: int, h: string, routing: string) {
    exists t :: t in configured && Routed(t, offset, h, routing)
  }

  /** The hash key is that of a configured instance. */
  ghost predicate KnownHash(configured: set<string>, offset: int, h: string) {
    exists t :: t in configured && IsInstance(t) && h == ShiftedKey(t, offset)
  }

  lemma AllRouted(f: Fleet, msg: Message, shards: map<string, seq<Doc>>, places: map<string, seq<Entry>>,
                  done: set<Entry>, configured: set<string>, offset: int)
    requires NamesAMember(f.ring) && WellFormed(msg.meta) && PortsOf(configured, f.ports, offset)
    requires Gathered(f, msg, shards, places, done)
    ensures forall h <- shards :: KnownHash(configured, offset, h)
  {
    forall h | h in shards ensures KnownHash(configured, offset, h) {
      assert GoodAt(f, msg, shards, places, h);
      assert IsAt(places, h, places[h][0]);
      EntryIsSent(f, msg, shards, places, h, places[h][0]);
      var node := f.ring(f.ports.Keys, FullKey(msg, places[h][0]));
      var t :| t in configured && IsInstance(t) && NodeOf(t) == node;
      assert h == ShiftedKey(t, offset);
    }
  }

  /** What all messages to workers have in common. */
  ghost predicate IsShardOf(msg: Message, m: Message)
    requires WellFormed(msg.meta)
  {
    ExtractedMeta(msg, m.meta) && m.context == msg.context && m.fields == map[] && m.timestamp == msg.timestamp
  }

  function Contents(sent: map<string, Shard>): map<string, seq<Doc>> {
    map h | h in sent :: sent[h].message.data
  }

  lemma KnownIsAddressed(configured: set<string>, offset: int, h: string)
    requires KnownHash(configured, offset, h)
    ensures RoutingKey(h, offset).Some? && Addressed(configured, offset, h, RoutingKey(h, offset).value)
  {
    var t :| t in configured && IsInstance(t) && h == ShiftedKey(t, offset);
    RoutingKeyIs(t, offset);
    assert Routed(t, offset, h, RoutingKey(h, offset).value);
  }

  /** The message for the worker whose hash key is `h`. */
  ghost predicate GoodShard(msg: Message, configured: set<string>, offset: int, h: string, docs: seq<Doc>, s: Shard)
    requires WellFormed(msg.meta)
  {
    s.message.data == docs && IsShardOf(msg, s.message) && Addressed(configured, offset, h, s.routing)
  }

  ghost predicate AllGood(msg: Message, configured: set<string>, offset: int, shards: map<string, seq<Doc>>,
                          sent: map<string, Shard>)
    requires WellFormed(msg.meta)
  {
    sent.Keys == shards.Keys && forall h <- sent :: GoodShard(msg, configured, offset, h, shards[h], sent[h])
  }

  /** The second half of process_task: every shard gets the key of its worker's queue. */
  method Address(shards: map<string, seq<Doc>>, msg: Message, meta: Meta, ghost configured: set<string>, offset: int)
    returns (sent: map<string, Shard>)
    requires WellFormed(msg.meta) && ExtractedMeta(msg, meta)
    requires forall h <- shards :: KnownHash(configured, offset, h)
    ensures AllGood(msg, configured, offset, shards, sent)
  {
    sent := map[];
    var todo := shards.Keys;
    while todo != {}
      invariant todo <= shards.Keys && GoodBut(msg, configured, offset, shards, sent, todo)
      decreases todo
    {
      var h :| h in todo;
      var s := AddressOne(h, shards[h], msg, meta, configured, offset);
      OneMoreGood(msg, configured, offset, shards, sent, todo, h, s);
      sent := sent[h := s];
      todo := todo - {h};
    }
  }

  /** All shards are addressed but those still to do. */
  ghost predicate GoodBut(msg: Message, configured: set<string>, offset: int, shards: map<string, seq<Doc>>,
                          sent: map<string, Shard>, todo: set<string>)
    requires WellFormed(msg.meta)
  {
    sent.Keys == shards.Keys - todo && forall h <- sent :: GoodShard(msg, configured, offset, h, shards[h], sent[h])
  }

  lemma OneMoreGood(msg: Message, configured: set<string>, offset: int, shards: map<string, seq<Doc>>,
                    sent: map<string, Shard>, todo: set<string>, h: string, s: Shard)
    requires WellFormed(msg.meta) && h in todo && todo <= shards.Keys
    requires GoodBut(msg, configured, offset, shards, sent, todo) && GoodShard(msg, configured, offset, h, shards[h], s)
    ensures GoodBut(msg, configured, offset, shards, sent[h := s], todo - {h})
  {
  }

  /** One shard, with its key. */
  method AddressOne(h: string, docs: seq<Doc>, msg: Message, meta: Meta, ghost configured: set<string>, offset: int)
    returns (s: Shard)
    requires WellFormed(msg.meta) && ExtractedMeta(msg, meta) && KnownHash(configured, offset, h)
    ensures GoodShard(msg, configured, offset, h, docs, s)
  {
    KnownIsAddressed(configured, offset, h);
    s := Shard(RoutingKey(h, offset).value, Message(meta, msg.context, map[], docs, msg.timestamp));
  }

  lemma GoodContents(msg: Message, configured: set<string>, offset: int, shards: map<string, seq<Doc>>,
                     sent: map<string, Shard>)
    requires WellFormed(msg.meta) && AllGood(msg, configured, offset, shards, sent)
    ensures Contents(sent) == shards
  {
    forall h | h in sent ensures sent[h].message.data == shards[h] {
      assert GoodShard(msg, configured, offset, h, shards[h], sent[h]);
    }
  }

  class MultiCarbonSupervisor {
    const ring: Ring
    const portOffset: int
    var instancePorts: map<Node, string>
    /** The configured texts. */
    ghost var configured: set<string>

    ghost predicate Valid()
      reads this
    {
      NamesAMember(ring) && PortsOf(configured, instancePorts, portOffset)
    }

    ghost function AsFleet(): Fleet
      reads this
    {
      Fleet(ring, instancePorts)
    }

    constructor (ring: Ring, portOffset: int)
      requires NamesAMember(ring)
      ensures Valid() && configured == {} && instancePorts == map[]
      ensures this.ring == ring && this.portOffset == portOffset
    {
      this.ring, this.portOffset, instancePorts, configured := ring, portOffset, map[], {};
    }

    /** add_instance, with the three parts of a configured text */
    method AddInstance(server: string, port: string, instance: string, ghost text: string)
      returns (r: Result<(), SetupError>)
      requires Valid() && Split(text, ':') == [server, port, instance]
      modifies this
      ensures Valid()
      ensures r.Err? <==> (server, instance) in old(instancePorts) || !IsInstance(text)
      ensures r.Err? ==> instancePorts == old(instancePorts) && configured == old(configured)
      ensures r.Ok? ==> configured == old(configured) + {text}
      ensures r.Ok? ==> instancePorts == old(instancePorts)[(server, instance) := Number(PortOf(text) + portOffset)]
    {
      if (server, instance) in instancePorts {
        return Err(AlreadyConfigured((server, instance)));
      }
      var number := ReadNumber(port);
      if number.None? {
        return Err(BadPort(port));
      }
      PortsGrow(configured, instancePorts, portOffset, text);
      instancePorts := instancePorts[(server, instance) := Number(number.value + portOffset)];
      configured := configured + {text};
      return Ok(());
    }

    /** The loop over the configured instances in `setup`. */
    method Setup(instances: seq<string>) returns (r: Result<(), SetupError>)
      requires Valid() && configured == {} && instancePorts == map[]
      modifies this
      ensures Valid()
      ensures r.Ok? <==> Apart(instances, |instances|)
      ensures r.Ok? ==> configured == NameSet(instances)
    {
      for i := 0 to |instances|
        invariant Valid() && configured == NameSet(instances[..i]) && Apart(instances, i)
      {
        var parts := Split(instances[i], ':');
        ApartGrows(instances, i, instancePorts, portOffset);
        if |parts| != 3 {
          return Err(NotAnInstance(instances[i]));
        }
        assert parts == [parts[0], parts[1], parts[2]];
        var added := AddInstance(parts[0], parts[1], parts[2], instances[i]);
        if added.Err? {
          return added;
        }
      }
      assert instances[..|instances|] == instances;
      return Ok(());
    }

    /** process_task: one message for every instance that gets any of the metrics. */
    method ProcessTask(msg: Message)
      returns (r: Result<map<string, Shard>, TaskError>, ghost places: map<string, seq<Entry>>)
      requires Valid()
      ensures r.Err? <==> !WellFormed(msg.meta) || exists e :: Refused(AsFleet(), msg, e)
      ensures r.Ok? && instancePorts != map[] ==> FannedOut(AsFleet(), msg, Contents(r.value), places)
      ensures r.Ok? ==> AllGood(msg, configured, portOffset, Contents(r.value), r.value)
    {
      places := map[];
      var extracted;
      ghost var order;
      extracted, order := Feeder.ProcessTask(msg);
      if extracted.Err? {
        return Err(BadGroup), places;
      }
      var meta, datums := extracted.value.0, extracted.value.1;
      var fleet := Fleet(ring, instancePorts);
      var gathered;
      gathered, places := Gather(fleet, msg, meta, datums, order);
      assert fleet == AsFleet();
      if gathered.Err? {
        ghost var e :| Refused(fleet, msg, e);
        assert Refused(AsFleet(), msg, e);
        return Err(gathered.error), places;
      }
      NobodyRefused(fleet, msg, gathered.value, places, order);
      AllRouted(fleet, msg, gathered.value, places, EntriesOf(msg, order), configured, portOffset);
      var sent := Address(gathered.value, msg, meta, configured, portOffset);
      GoodContents(msg, configured, portOffset, gathered.value, sent);
      return Ok(sent), places;
    }
  }

  // ---------- The worker's side ----------

  /** A worker takes its message apart with the same feeder code, and has again the context and the one
      metric of every entry, under the key by which the entry was sent to it. */
  lemma WorkerRebuilds(f: Fleet, msg: Message, m: Message, h: string, at: seq<Entry>, j: nat)
    requires Ready(f, msg) && IsShardOf(msg, m) && ShardHolds(f, msg, h, m.data, at) && j < |m.data|
    ensures WellFormed(m.meta)
    ensures var d := DatumAt(msg, at[j].index);
            DatumAt(m, j) == Datum(d.context, map[at[j].metric := d.data[at[j].metric]])
    ensures IsEntry(m, Entry(j, at[j].metric))
    ensures HasKey(m.meta, DatumAt(m, j).context)
    ensures FullKey(m, Entry(j, at[j].metric)) == FullKey(msg, at[j])
    ensures HashOf(f, FullKey(m, Entry(j, at[j].metric))) == h
  {
    ShardContext(msg, m);
    assert Sent(f, msg, h, m.data[j], at[j]);
    PartialReadsBack(msg, at[j]);
    var d, k := DatumAt(msg, at[j].index), at[j].metric;
    assert m.data[j] == Partial(d.context, KeyNames(msg), k, d.data[k]);
  }

  lemma ShardContext(msg: Message, m: Message)
    requires WellFormed(msg.meta) && IsShardOf(msg, m)
    ensures WellFormed(m.meta) && KeyNames(m) == KeyNames(msg) && BaseContext(m) == msg.context
    ensures GroupName(m.meta) == GroupName(msg.meta)
  {
    NoSubGroupLeft(msg.meta);
    BaseUnderKeyNames(msg);
  }

  lemma NoSubGroupLeft(meta: Meta)
    requires WellFormed(meta)
    ensures !Iterative(GroupName(meta))
  {
    JoinUndoesSplit(meta.group, '@');
  }

  lemma PartialReadsBack(msg: Message, e: Entry)
    requires WellFormed(msg.meta) && IsEntry(msg, e)
    ensures var d := DatumAt(msg, e.index);
            Sorted(msg.context, KeyNames(msg), Partial(d.context, KeyNames(msg), e.metric, d.data[e.metric]))
            == Datum(d.context, map[e.metric := d.data[e.metric]])
  {
    BaseUnderKeyNames(msg);
    var d, names, k := DatumAt(msg, e.index), KeyNames(msg), e.metric;
    assert k !in names && d.context.Keys <= names && msg.context.Keys <= d.context.Keys;
    PartialSplits(d.context, names, k, d.data[k]);
    assert msg.context + d.context == d.context;
  }

  lemma PartialSplits(context: Doc, names: set<string>, k: string, v: string)
    requires context.Keys <= names && k !in names
    ensures Restrict(Partial(context, names, k, v), names) == context
    ensures Partial(context, names, k, v) - names == map[k := v]
  {
  }

  /** No entry is sent to two shards. */
  lemma OneShardOnly(f: Fleet, msg: Message, shards: map<string, seq<Doc>>, places: map<string, seq<Entry>>,
                     g: string, i: nat, h: string, j: nat)
    requires Ready(f, msg) && FannedOut(f, msg, shards, places)
    requires g in places && h in places && i < |places[g]| && j < |places[h]| && places[g][i] == places[h][j]
    ensures g == h && i == j
  {
    assert GoodAt(f, msg, shards, places, g) && GoodAt(f, msg, shards, places, h);
    assert IsAt(places, g, places[g][i]) && IsAt(places, h, places[h][j]);
    EntryIsSent(f, msg, shards, places, g, places[g][i]);
    EntryIsSent(f, msg, shards, places, h, places[h][j]);
  }

  // ---------- Where a metric ends up ----------

  /** The document holds the value of the metric and the values of the key names in its context, nothing else. */
  ghost predicate Tells(msg: Message, e: Entry, doc: Doc)
    requires WellFormed(msg.meta) && IsEntry(msg, e)
  {
    var d := DatumAt(msg, e.index);
    && e.metric in doc && doc[e.metric] == d.data[e.metric]
    && forall k :: k != e.metric ==>
         (k in doc <==> k in d.context && k in KeyNames(msg)) && (k in doc ==> doc[k] == d.context[k])
  }

  lemma PartialTells(msg: Message, e: Entry)
    requires WellFormed(msg.meta) && IsEntry(msg, e)
    ensures var d := DatumAt(msg, e.index);
            Tells(msg, e, Partial(d.context, KeyNames(msg), e.metric, d.data[e.metric]))
  {
  }

  /** After ProcessTask every metric is in the message whose routing key is the configured text of the instance that
      the ring names for its full key, when the ports of the configured texts are in canonical form. */
  lemma MetricReachesOwner(f: Fleet, msg: Message, sent: map<string, Shard>, places: map<string, seq<Entry>>,
                           configured: set<string>, offset: int, e: Entry)
    returns (text: string, h: string, j: nat)
    requires Ready(f, msg) && PortsOf(configured, f.ports, offset)
    requires forall t <- configured :: IsInstance(t) && Canonical(Split(t, ':')[1])
    requires FannedOut(f, msg, Contents(sent), places) && AllGood(msg, configured, offset, Contents(sent), sent)
    requires IsEntry(msg, e)
    ensures HasKey(msg.meta, DatumAt(msg, e.index).context)
    ensures text in configured && h in sent && sent[h].routing == text
    ensures (Split(text, ':')[0], Split(text, ':')[2]) == f.ring(f.ports.Keys, FullKey(msg, e))
    ensures j < |sent[h].message.data| && Tells(msg, e, sent[h].message.data[j])
  {
    h := HashOf(f, FullKey(msg, e));
    text := OwnerText(f, FullKey(msg, e), configured, offset);
    assert GoodAt(f, msg, Contents(sent), places, h);
    j := SentTells(f, msg, h, Contents(sent)[h], places[h], e);
    assert GoodShard(msg, configured, offset, h, Contents(sent)[h], sent[h]);
  }

  lemma OwnerText(f: Fleet, key: string, configured: set<string>, offset: int) returns (text: string)
    requires NamesAMember(f.ring) && f.ports != map[] && PortsOf(configured, f.ports, offset)
    requires forall t <- configured :: IsInstance(t) && Canonical(Split(t, ':')[1])
    ensures text in configured && RoutingKey(HashOf(f, key), offset) == Some(text)
    ensures |Split(text, ':')| == 3 && (Split(text, ':')[0], Split(text, ':')[2]) == f.ring(f.ports.Keys, key)
  {
    var node := f.ring(f.ports.Keys, key);
    text :| text in configured && IsInstance(text) && NodeOf(text) == node;
    RoutingReachesWorker(text, offset);
  }

  lemma SentTells(f: Fleet, msg: Message, h: string, docs: seq<Doc>, at: seq<Entry>, e: Entry) returns (j: nat)
    requires Ready(f, msg) && ShardHolds(f, msg, h, docs, at) && e in at
    ensures IsEntry(msg, e) && j < |docs| && Tells(msg, e, docs[j])
  {
    j :| 0 <= j < |at| && at[j] == e;
    assert Sent(f, msg, h, docs[j], at[j]);
    PartialTells(msg, e);
  }
}
