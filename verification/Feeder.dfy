/**
 What every storage daemon does with a message before it stores anything: find the context the data belongs
 to, and split the data into single items with a context each
 (lib/ptolemy/storage/feeders/__init__.py:110-325).  Values are the texts that get stored.
 */
module Feeder {
  import opened Basics
  import opened Texts

  type Doc = map<string, string>

  /** The storage options of a message; `keyName` is empty when the message names no key. */
  datatype Meta = Meta(spec: string, group: string, keyName: seq<string>, carbonKey: Option<string>,
                       justInsert: bool, updateRecent: bool, ignoreData: bool)

  /** `fields` are the top-level fields beside those named here. */
  datatype Message = Message(meta: Meta, context: Doc, fields: Doc, data: seq<Doc>, timestamp: int)

  /** The group of an iterative message is not `<group>@<key>=<value>`. */
  datatype Error = BadIterativeGroup(group: string)

  /** One item ready to be stored. */
  datatype Datum = Datum(context: Doc, data: Doc)

  // ---------- Contexts ----------

  function NameSet(names: seq<string>): set<string> {
    set n | n in names
  }

  function Restrict(d: Doc, names: set<string>): Doc {
    map k | k in d && k in names :: d[k]
  }

  /** The context and the rest of one item when the values under `names` belong to the context. */
  function Sorted(base: Doc, names: set<string>, item: Doc): Datum {
    Datum(base + Restrict(item, names), item - names)
  }

  lemma OneMoreKey(base: Doc, names: set<string>, item: Doc, k: string)
    ensures var was, now := Sorted(base, names, item), Sorted(base, names + {k}, item);
            now == if k in was.data then Datum(was.context[k := was.data[k]], was.data - {k}) else was
  {
    var was, now := Sorted(base, names, item), Sorted(base, names + {k}, item);
    if k in was.data {
      assert now.context == was.context[k := was.data[k]];
      assert now.data == was.data - {k};
    } else {
      assert Restrict(item, names + {k}) == Restrict(item, names);
      assert now.data == was.data;
    }
  }

  lemma OneMoreName(names: seq<string>, k: string)
    ensures NameSet(names + [k]) == NameSet(names) + {k}
  {
  }

  /** Moves the values under `names` from the item to the context, as extract_context does with the keys
      of the context and _process_task with the key names. */
  method MoveKeys(context: Doc, names: seq<string>, item: Doc) returns (ctx: Doc, rest: Doc)
    ensures Datum(ctx, rest) == Sorted(context, NameSet(names), item)
  {
    ctx, rest := context, item;
    assert Sorted(context, NameSet(names[..0]), item) == Datum(context, item) by {
      assert context + Restrict(item, {}) == context && item - {} == item;
    }
    for i := 0 to |names|
      invariant Datum(ctx, rest) == Sorted(context, NameSet(names[..i]), item)
    {
      var k := names[i];
      assert names[..i + 1] == names[..i] + [k];
      OneMoreName(names[..i], k);
      OneMoreKey(context, NameSet(names[..i]), item, k);
      if k in rest {
        ctx := ctx[k := rest[k]];
        rest := rest - {k};
      }
    }
    assert names[..|names|] == names;
  }

  /** The two steps together move all key names at once. */
  lemma TwoStepsAreOne(base: Doc, names: set<string>, item: Doc)
    requires base.Keys <= names
    ensures var first := Sorted(base, base.Keys, item);
            Sorted(first.context, names, first.data) == Sorted(base, names, item)
  {
    var first := Sorted(base, base.Keys, item);
    var both, once := Sorted(first.context, names, first.data), Sorted(base, names, item);
    forall k
      ensures (k in both.context <==> k in once.context) && (k in both.context ==> both.context[k] == once.context[k])
    {
    }
    assert both.data == once.data;
  }

  /** A dictionary's keys as a list, in some order. */
  method KeyList(d: Doc) returns (names: seq<string>)
    ensures NameSet(names) == d.Keys
  {
    names := [];
    var keys := d.Keys;
    while keys != {}
      invariant keys <= d.Keys && NameSet(names) == d.Keys - keys
      decreases keys
    {
      var k :| k in keys;
      assert NameSet(names + [k]) == NameSet(names) + {k};
      names := names + [k];
      keys := keys - {k};
    }
  }

  // ---------- _extract ----------

  predicate Iterative(group: string) {
    '@' in group
  }

  /** The parts of `<group>@<key>=<value>`. */
  function SubGroup(group: string): Option<(string, string, string)> {
    var parts := Split(group, '@');
    var pair := Split(Join(parts[1..], '@'), '=');
    if |pair| == 2 then Some((parts[0], pair[0], IntegerText(pair[1]))) else None
  }

  /** What is stored for a value that is read as a number if possible. */
  function IntegerText(v: string): string {
    if ReadNumber(v).Some? then Number(ReadNumber(v).value) else v
  }

  predicate WellFormed(meta: Meta) {
    Iterative(meta.group) ==> SubGroup(meta.group).Some?
  }

  /** The context all data of the message share, unless the item says otherwise. */
  function BaseContext(msg: Message): Doc
    requires WellFormed(msg.meta)
  {
    var found := msg.context + Restrict(msg.fields, NameSet(msg.meta.keyName) - msg.context.Keys);
    if Iterative(msg.meta.group) then
      var sub := SubGroup(msg.meta.group).value;
      found[sub.1 := sub.2]
    else found
  }

  /** The names whose values in an item belong to the context. */
  function KeyNames(msg: Message): set<string>
    requires WellFormed(msg.meta)
  {
    var names := msg.context.Keys + NameSet(msg.meta.keyName);
    if Iterative(msg.meta.group) then names + {SubGroup(msg.meta.group).value.1} else names
  }

  function GroupName(meta: Meta): string
    requires WellFormed(meta)
  {
    if Iterative(meta.group) then SubGroup(meta.group).value.0 else meta.group
  }

  /** What is stored for one item of a message. */
  function DatumAt(msg: Message, i: nat): Datum
    requires WellFormed(msg.meta) && i < |msg.data|
  {
    Sorted(BaseContext(msg), KeyNames(msg), msg.data[i])
  }

  lemma BaseUnderKeyNames(msg: Message)
    requires WellFormed(msg.meta)
    ensures msg.context.Keys <= BaseContext(msg).Keys <= KeyNames(msg)
  {
  }

  /** A message of an ordinary group: the names of its context and its key names belong to the context of an item,
      whose own values win over those of the message, and of these the context's over the top level's. */
  lemma PlainDatum(msg: Message, i: nat, k: string)
    requires '@' !in msg.meta.group && i < |msg.data|
    ensures WellFormed(msg.meta) && GroupName(msg.meta) == msg.meta.group
    ensures k in DatumAt(msg, i).data <==> k in msg.data[i] && k !in msg.context && k !in msg.meta.keyName
    ensures k in DatumAt(msg, i).data ==> DatumAt(msg, i).data[k] == msg.data[i][k]
    ensures k in DatumAt(msg, i).context
            <==> k in msg.context || (k in msg.meta.keyName && (k in msg.data[i] || k in msg.fields))
    ensures k in DatumAt(msg, i).context ==>
              DatumAt(msg, i).context[k] == (if k in msg.data[i] then msg.data[i][k]
                                             else if k in msg.context then msg.context[k] else msg.fields[k])
  {
  }

  lemma SubGroupReads(g: string, key: string, v: string)
    requires '@' !in g && '=' !in key && '=' !in v
    ensures SubGroup(g + "@" + key + "=" + v) == Some((g, key, IntegerText(v)))
  {
    var pair := key + ['='] + v;
    assert g + "@" + key + "=" + v == g + ['@'] + pair;
    SplitAtFirst(g, pair, '@');
    JoinUndoesSplit(pair, '@');
    SplitAtFirst(key, v, '=');
    SplitWhole(v, '=');
    assert Split(g + ['@'] + pair, '@')[1..] == Split(pair, '@');
  }

  /** The value of an iterative group: the text of its number, which is the value itself when that is in canonical
      form or no number. */
  lemma IterativeValue(v: string)
    ensures ReadNumber(v).Some? ==> ReadNumber(IntegerText(v)) == ReadNumber(v)
    ensures Canonical(IntegerText(v)) || IntegerText(v) == v
    ensures IntegerText(v) == v <==> ReadNumber(v).None? || Canonical(v)
  {
    if ReadNumber(v).Some? {
      NumberReadsBack(ReadNumber(v).value);
      NumberIsCanonical(ReadNumber(v).value);
      CanonicalWritesBack(v);
    }
  }

  /** A message of the group `g@key=v` is one of group `g`, and the key is one more name of its contexts, with the
      value of the group unless the item has its own. */
  lemma IterativeDatum(msg: Message, g: string, key: string, v: string, i: nat, k: string)
    requires msg.meta.group == g + "@" + key + "=" + v && '@' !in g && '=' !in key && '=' !in v && i < |msg.data|
    ensures WellFormed(msg.meta) && GroupName(msg.meta) == g
    ensures KeyNames(msg) == msg.context.Keys + NameSet(msg.meta.keyName) + {key}
    ensures k in DatumAt(msg, i).data
            <==> k in msg.data[i] && k !in msg.context && k !in msg.meta.keyName && k != key
    ensures k in DatumAt(msg, i).data ==> DatumAt(msg, i).data[k] == msg.data[i][k]
    ensures k in DatumAt(msg, i).context
            <==> k == key || k in msg.context || (k in msg.meta.keyName && (k in msg.data[i] || k in msg.fields))
    ensures k in DatumAt(msg, i).context ==>
              DatumAt(msg, i).context[k] == (if k in msg.data[i] then msg.data[i][k]
                                             else if k == key then IntegerText(v)
                                             else if k in msg.context then msg.context[k] else msg.fields[k])
  {
    SubGroupReads(g, key, v);
    assert msg.meta.group[|g|] == '@';
  }

  /** The groups that are refused: they have an '@', and not just one '=' after the first of them. */
  lemma RefusedExactlyWhen(meta: Meta, g: string, rest: string)
    requires meta.group == g + "@" + rest && '@' !in g
    ensures WellFormed(meta) <==> exists key, v :: IsPair(rest, key, v)
  {
    assert g + "@" + rest == g + ['@'] + rest && meta.group[|g|] == '@';
    SplitAtFirst(g, rest, '@');
    JoinUndoesSplit(rest, '@');
    assert Split(meta.group, '@')[1..] == Split(rest, '@');
    var pair := Split(rest, '=');
    JoinUndoesSplit(rest, '=');
    if |pair| == 2 {
      assert pair[1..] == [pair[1]];
      assert IsPair(rest, pair[0], pair[1]);
    }
    forall key, v | IsPair(rest, key, v) ensures |pair| == 2 {
      SplitAtFirst(key, v, '=');
      SplitWhole(v, '=');
    }
  }

  predicate IsPair(text: string, key: string, v: string) {
    text == key + ['='] + v && '=' !in key && '=' !in v
  }

  /** Adds the key names of the message; their values come from the top level of it. */
  method AddNamed(context: Doc, fields: Doc, named: seq<string>, keys: seq<string>)
    returns (kwargs: Doc, indexes: seq<string>)
    requires NameSet(keys) == context.Keys
    ensures NameSet(indexes) == context.Keys + NameSet(named)
    ensures kwargs == context + Restrict(fields, NameSet(named) - context.Keys)
  {
    kwargs, indexes := context, keys;
    var left := fields;
    NothingNamed(context, fields);
    for i := 0 to |named|
      invariant NameSet(indexes) == context.Keys + NameSet(named[..i])
      invariant NamedSoFar(context, fields, NameSet(named[..i]), kwargs, left)
    {
      var k := named[i];
      assert named[..i + 1] == named[..i] + [k];
      OneMoreName(named[..i], k);
      OneMoreName(indexes, k);
      OneMoreField(context, fields, NameSet(named[..i]), kwargs, left, k);
      if k !in indexes {
        indexes := indexes + [k];
        if k in left {
          kwargs := kwargs[k := left[k]];
          left := left - {k};
        }
      }
    }
    assert named[..|named|] == named;
  }

  /** The fields under some of the names have moved to the context. */
  ghost predicate NamedSoFar(context: Doc, fields: Doc, names: set<string>, kwargs: Doc, left: Doc) {
    kwargs == context + Restrict(fields, names - context.Keys) && left == fields - (names - context.Keys)
  }

  lemma NothingNamed(context: Doc, fields: Doc)
    ensures NamedSoFar(context, fields, {}, context, fields)
  {
    assert Restrict(fields, {} - context.Keys) == map[];
    assert fields - ({} - context.Keys) == fields;
  }

  lemma OneMoreField(context: Doc, fields: Doc, names: set<string>, kwargs: Doc, left: Doc, k: string)
    requires NamedSoFar(context, fields, names, kwargs, left)
    ensures k in context.Keys + names ==> NamedSoFar(context, fields, names + {k}, kwargs, left)
    ensures k !in context.Keys + names && k in left ==>
              NamedSoFar(context, fields, names + {k}, kwargs[k := left[k]], left - {k})
    ensures k !in context.Keys + names && k !in left ==> NamedSoFar(context, fields, names + {k}, kwargs, left)
  {
    var was, now := names - context.Keys, (names + {k}) - context.Keys;
    if k in context.Keys + names {
      assert now == was;
    } else if k in left {
      assert context + Restrict(fields, now) == kwargs[k := left[k]];
      assert fields - now == left - {k};
    } else {
      assert Restrict(fields, now) == Restrict(fields, was);
      assert fields - now == left;
    }
  }

  /** _extract: the meta of the stored data and their common context. */
  method ExtractMeta(msg: Message) returns (r: Result<(Meta, Doc), Error>)
    ensures r.Err? <==> !WellFormed(msg.meta)
    ensures r.Ok? ==> r.value.1 == BaseContext(msg) && NameSet(r.value.0.keyName) == KeyNames(msg)
    ensures r.Ok? ==> r.value.0 == msg.meta.(group := GroupName(msg.meta), keyName := r.value.0.keyName)
  {
    var keys := KeyList(msg.context);
    var kwargs, indexes := AddNamed(msg.context, msg.fields, msg.meta.keyName, keys);
    var group := msg.meta.group;
    if '@' in group {
      var sub := SubGroup(group);
      if sub.None? {
        return Err(BadIterativeGroup(group));
      }
      kwargs := kwargs[sub.value.1 := sub.value.2];
      OneMoreName(indexes, sub.value.1);
      indexes := indexes + [sub.value.1];
      group := sub.value.0;
    }
    return Ok((msg.meta.(group := group, keyName := indexes), kwargs));
  }

  // ---------- extract ----------

  /** Which items of the data ended up in which group, and that each is in exactly one place. */
  ghost predicate Grouped(base: Doc, data: seq<Doc>, n: nat, groups: map<Doc, seq<Doc>>, places: map<Doc, seq<nat>>)
    requires n <= |data|
  {
    && groups.Keys == places.Keys
    && (forall c <- groups :: groups[c] != [] && SameItems(base, data, n, c, groups[c], places[c]))
    && (forall i {:trigger data[i]} :: 0 <= i < n ==>
          var c := Sorted(base, base.Keys, data[i]).context; c in places && i in places[c])
  }

  ghost predicate SameItems(base: Doc, data: seq<Doc>, n: nat, c: Doc, items: seq<Doc>, at: seq<nat>)
    requires n <= |data|
  {
    && |items| == |at|
    && (forall j :: 0 <= j < |at| ==> at[j] < n && Sorted(base, base.Keys, data[at[j]]) == Datum(c, items[j]))
    && (forall j, k :: 0 <= j < k < |at| ==> at[j] < at[k])
  }

  function ListOf<K, T>(m: map<K, seq<T>>, k: K): seq<T> {
    if k in m then m[k] else []
  }

  lemma OneMoreInGroup(base: Doc, data: seq<Doc>, n: nat, c: Doc, items: seq<Doc>, at: seq<nat>, item: Doc)
    requires n < |data| && SameItems(base, data, n, c, items, at)
    requires Sorted(base, base.Keys, data[n]) == Datum(c, item)
    ensures SameItems(base, data, n + 1, c, items + [item], at + [n])
  {
    var items2, at2 := items + [item], at + [n];
    forall j | 0 <= j < |at2|
      ensures at2[j] < n + 1 && Sorted(base, base.Keys, data[at2[j]]) == Datum(c, items2[j])
    {
      if j < |at| {
        assert at2[j] == at[j] && items2[j] == items[j];
      }
    }
  }

  lemma StillSameItems(base: Doc, data: seq<Doc>, n: nat, c: Doc, items: seq<Doc>, at: seq<nat>)
    requires n < |data| && SameItems(base, data, n, c, items, at)
    ensures SameItems(base, data, n + 1, c, items, at)
  {
  }

  lemma OneMoreItem(base: Doc, data: seq<Doc>, n: nat, groups: map<Doc, seq<Doc>>, places: map<Doc, seq<nat>>,
                    c: Doc, item: Doc)
    requires n < |data| && Grouped(base, data, n, groups, places)
    requires Sorted(base, base.Keys, data[n]) == Datum(c, item)
    ensures Grouped(base, data, n + 1, groups[c := ListOf(groups, c) + [item]], places[c := ListOf(places, c) + [n]])
  {
    var grown, at := ListOf(groups, c) + [item], ListOf(places, c) + [n];
    OneMoreInGroup(base, data, n, c, ListOf(groups, c), ListOf(places, c), item);
    forall d | d in groups && d != c ensures SameItems(base, data, n + 1, d, groups[d], places[d]) {
      StillSameItems(base, data, n, d, groups[d], places[d]);
    }
    assert at[|at| - 1] == n;
  }

  /** What is left of the first `n` items that are of the context, in order. */
  function ItemsOf(base: Doc, data: seq<Doc>, n: nat, c: Doc): seq<Doc>
    requires n <= |data|
  {
    if n == 0 then []
    else
      var d := Sorted(base, base.Keys, data[n - 1]);
      if d.context == c then ItemsOf(base, data, n - 1, c) + [d.data] else ItemsOf(base, data, n - 1, c)
  }

  predicate ListedAs(base: Doc, data: seq<Doc>, n: nat, groups: map<Doc, seq<Doc>>, c: Doc)
    requires n <= |data|
  {
    ListOf(groups, c) == ItemsOf(base, data, n, c)
  }

  /** Every context has its items among the first `n`, in order. */
  ghost predicate ListsAll(base: Doc, data: seq<Doc>, n: nat, groups: map<Doc, seq<Doc>>)
    requires n <= |data|
  {
    forall c {:trigger ListedAs(base, data, n, groups, c)} :: ListedAs(base, data, n, groups, c)
  }

  lemma OneMoreListed(base: Doc, data: seq<Doc>, n: nat, groups: map<Doc, seq<Doc>>, c: Doc, item: Doc)
    requires n < |data| && ListsAll(base, data, n, groups) && Sorted(base, base.Keys, data[n]) == Datum(c, item)
    ensures ListsAll(base, data, n + 1, groups[c := ListOf(groups, c) + [item]])
  {
    var m, groups2 := n + 1, groups[c := ListOf(groups, c) + [item]];
    forall x ensures ListedAs(base, data, m, groups2, x) {
      assert ListedAs(base, data, n, groups, x);
    }
  }

  /** The grouping loop of `extract`: every context has its items, in order. */
  method GroupByContext(base: Doc, data: seq<Doc>)
    returns (groups: map<Doc, seq<Doc>>, ghost places: map<Doc, seq<nat>>)
    ensures ListsAll(base, data, |data|, groups)
    ensures Grouped(base, data, |data|, groups, places)
  {
    groups, places := map[], map[];
    var keys := KeyList(base);
    for n := 0 to |data|
      invariant Grouped(base, data, n, groups, places)
      invariant ListsAll(base, data, n, groups)
    {
      var c, item := MoveKeys(base, keys, data[n]);
      var had := if c in groups then groups[c] else [];
      OneMoreItem(base, data, n, groups, places, c, item);
      OneMoreListed(base, data, n, groups, c, item);
      groups := groups[c := had + [item]];
      places := places[c := ListOf(places, c) + [n]];
    }
  }

  // ---------- process_task ----------

  ghost predicate Reordering(order: seq<nat>, n: nat) {
    && (forall j :: 0 <= j < |order| ==> order[j] < n)
    && (forall j, k :: 0 <= j < k < |order| ==> order[j] != order[k])
    && (forall i :: 0 <= i < n ==> i in order)
  }

  predicate InRange(at: seq<nat>, n: nat) {
    forall j :: 0 <= j < |at| ==> at[j] < n
  }

  /** Some items of the data, each once, as they are to be stored. */
  ghost predicate Laid(base: Doc, names: set<string>, data: seq<Doc>, out: seq<Datum>, order: seq<nat>) {
    && |out| == |order|
    && (forall j :: 0 <= j < |out| ==> order[j] < |data| && out[j] == Sorted(base, names, data[order[j]]))
    && (forall j, k :: 0 <= j < k < |order| ==> order[j] != order[k])
  }

  /** One group of a message, as process_task walks through it. */
  method LayGroup(ghost base: Doc, names: seq<string>, ghost data: seq<Doc>, c: Doc, items: seq<Doc>,
                  ghost at: seq<nat>, before: seq<Datum>, ghost order: seq<nat>)
    returns (out: seq<Datum>)
    requires base.Keys <= NameSet(names)
    requires SameItems(base, data, |data|, c, items, at)
    requires Laid(base, NameSet(names), data, before, order)
    requires forall i <- at :: i !in order
    ensures Laid(base, NameSet(names), data, out, order + at)
  {
    out := before;
    for j := 0 to |items|
      invariant Laid(base, NameSet(names), data, out, order + at[..j])
    {
      var ctx, rest := MoveKeys(c, names, items[j]);
      TwoStepsAreOne(base, NameSet(names), data[at[j]]);
      assert at[j] in at && at[..j + 1] == at[..j] + [at[j]];
      assert order + at[..j + 1] == (order + at[..j]) + [at[j]];
      assert at[j] !in order && at[j] !in at[..j];
      out := out + [Datum(ctx, rest)];
    }
    assert at[..|items|] == at;
  }

  /** All data as they are to be stored. */
  function Datums(base: Doc, names: set<string>, data: seq<Doc>): (r: seq<Datum>)
    ensures |r| == |data| && forall i :: 0 <= i < |r| ==> r[i] == Sorted(base, names, data[i])
  {
    seq(|data|, i requires 0 <= i < |data| => Sorted(base, names, data[i]))
  }

  lemma OneMoreDatum(base: Doc, names: set<string>, data: seq<Doc>, item: Doc)
    ensures Datums(base, names, data + [item]) == Datums(base, names, data) + [Sorted(base, names, item)]
  {
  }

  lemma MultisetWithout<T>(s: seq<T>, j: nat)
    requires j < |s|
    ensures multiset(s) == multiset(s[..j] + s[j + 1..]) + multiset{s[j]}
  {
    assert s == s[..j] + [s[j]] + s[j + 1..];
  }

  lemma ReorderingWithout(order: seq<nat>, n: nat, j: nat)
    requires Reordering(order, n + 1) && j < |order| && order[j] == n
    ensures Reordering(order[..j] + order[j + 1..], n)
  {
    var rest := order[..j] + order[j + 1..];
    forall i | 0 <= i < |rest| ensures rest[i] == order[if i < j then i else i + 1] && rest[i] < n {
    }
    forall i | 0 <= i < n ensures i in rest {
      assert i in order;
      var k :| 0 <= k < |order| && order[k] == i;
      assert rest[if k < j then k else k - 1] == i;
    }
  }

  /** A list in another order has the same elements. */
  lemma {:induction false} ReorderingKeepsAll<T>(a: seq<T>, b: seq<T>, order: seq<nat>)
    requires Reordering(order, |a|) && |b| == |order| && forall j :: 0 <= j < |b| ==> b[j] == a[order[j]]
    ensures multiset(b) == multiset(a)
  {
    if |a| == 0 {
      assert b == a;
    } else {
      var n := |a| - 1;
      assert n in order;
      var j :| 0 <= j < |order| && order[j] == n;
      var b2, order2 := b[..j] + b[j + 1..], order[..j] + order[j + 1..];
      ReorderingWithout(order, n, j);
      forall i | 0 <= i < |b2| ensures b2[i] == a[..n][order2[i]] {
        assert order2[i] == order[if i < j then i else i + 1] && order2[i] < n;
      }
      ReorderingKeepsAll(a[..n], b2, order2);
      MultisetWithout(b, j);
      MultisetWithout(a, n);
      assert a[..n] + a[n + 1..] == a[..n];
    }
  }

  /** All data of a message one by one: every item once, with its own context. */
  method Spread(base: Doc, names: seq<string>, data: seq<Doc>) returns (out: seq<Datum>, ghost order: seq<nat>)
    requires base.Keys <= NameSet(names)
    ensures multiset(out) == multiset(Datums(base, NameSet(names), data))
    ensures Laid(base, NameSet(names), data, out, order) && Reordering(order, |data|)
  {
    var groups;
    ghost var places;
    groups, places := GroupByContext(base, data);
    out, order := [], [];
    var todo := groups.Keys;
    while todo != {}
      invariant todo <= groups.Keys
      invariant Laid(base, NameSet(names), data, out, order)
      invariant forall i :: 0 <= i < |data| ==>
                  (i in order <==> Sorted(base, base.Keys, data[i]).context !in todo)
      decreases todo
    {
      var c :| c in todo;
      forall i | i in places[c] ensures i !in order && i < |data| {
      }
      out := LayGroup(base, names, data, c, groups[c], places[c], out, order);
      ghost var was := order;
      order := order + places[c];
      forall i | 0 <= i < |data|
        ensures i in order <==> Sorted(base, base.Keys, data[i]).context !in todo - {c}
      {
        assert i in order <==> i in was || i in places[c];
      }
      todo := todo - {c};
    }
    ReorderingKeepsAll(Datums(base, NameSet(names), data), out, order);
  }

  /** What a message comes to: the context and data of every item, each exactly once. */
  method ProcessTask(msg: Message) returns (r: Result<(Meta, seq<Datum>), Error>, ghost order: seq<nat>)
    ensures r.Err? <==> !WellFormed(msg.meta)
    ensures r.Ok? ==> NameSet(r.value.0.keyName) == KeyNames(msg)
    ensures r.Ok? ==> r.value.0 == msg.meta.(group := GroupName(msg.meta), keyName := r.value.0.keyName)
    ensures r.Ok? ==> multiset(r.value.1) == multiset(Datums(BaseContext(msg), KeyNames(msg), msg.data))
    ensures r.Ok? ==> Laid(BaseContext(msg), KeyNames(msg), msg.data, r.value.1, order) && Reordering(order, |msg.data|)
  {
    order := [];
    var extracted := ExtractMeta(msg);
    if extracted.Err? {
      return Err(extracted.error), order;
    }
    BaseUnderKeyNames(msg);
    var out;
    out, order := Spread(extracted.value.1, extracted.value.0.keyName, msg.data);
    return Ok((extracted.value.0, out)), order;
  }
}
