/**
 The storage daemon for the database (lib/ptolemy/storage/feeders/postgres.py:304-694): the rows a message
 may touch are fetched once for every group of items, every item is compared with the fetched rows, unchanged
 rows are stamped after the group and superfluous rows deleted after the message.
 */
module PostgresStorer {
  import opened Basics
  import opened Feeder
  import opened PostgresRows
  import opened PostgresCache
  import opened PostgresSaving

  /** A query without any condition is not valid SQL. */
  datatype StoreError = BadMessage | EmptyQuery

  // ---------- Messages ----------

  predicate Plain(meta: Meta) {
    !meta.justInsert && !meta.updateRecent && !meta.ignoreData
  }

  /** The options of the messages about continuing and ended alerts. */
  predicate ForAlert(meta: Meta) {
    !meta.justInsert && meta.updateRecent && meta.ignoreData
  }

  /** The condition of the query: the device alone if there is one, else the whole context. */
  function Lookup(meta: Meta, context: Doc): Doc {
    if !meta.updateRecent && "device" in context then map["device" := context["device"]] else context
  }

  /** The context of an item before its own key names are added; items that have it in common form a group. */
  function GroupContext(msg: Message, i: nat): Doc
    requires WellFormed(msg.meta) && i < |msg.data|
  {
    Sorted(BaseContext(msg), BaseContext(msg).Keys, msg.data[i]).context
  }

  /** The group an item with the context `c` is in. */
  ghost function GroupOf(msg: Message, c: Doc): Doc
    requires WellFormed(msg.meta)
  {
    Restrict(c, BaseContext(msg).Keys)
  }

  /** All items of a message as they are to be stored. */
  ghost function AllDatums(msg: Message): seq<Datum>
    requires WellFormed(msg.meta)
  {
    Datums(BaseContext(msg), KeyNames(msg), msg.data)
  }

  ghost predicate NoneTwice<K>(keys: seq<K>) {
    forall i, j :: 0 <= i < j < |keys| ==> keys[i] != keys[j]
  }

  /** An order in which the groups of a message may be processed. */
  ghost predicate GroupOrder(msg: Message, gs: seq<Doc>)
    requires WellFormed(msg.meta)
  {
    NoneTwice(gs) && forall g :: g in gs <==> IsGroup(msg, g)
  }

  ghost predicate IsGroup(msg: Message, g: Doc)
    requires WellFormed(msg.meta)
  {
    exists i: nat :: i < |msg.data| && GroupContext(msg, i) == g
  }

  /** An earlier group asked for the same rows. */
  ghost predicate LateGroup(meta: Meta, gs: seq<Doc>, j: nat) {
    j < |gs| && Asked(meta, gs[..j], gs[j])
  }

  ghost predicate Asked(meta: Meta, gs: seq<Doc>, g: Doc) {
    exists i :: 0 <= i < |gs| && Lookup(meta, gs[i]) == Lookup(meta, g)
  }

  /** The contexts of the items that come too late. */
  ghost function Late(msg: Message, gs: seq<Doc>): iset<Doc>
    requires WellFormed(msg.meta)
  {
    iset c: Doc | IsLate(msg, gs, c)
  }

  ghost predicate IsLate(msg: Message, gs: seq<Doc>, c: Doc)
    requires WellFormed(msg.meta)
  {
    exists j: nat :: LateGroup(msg.meta, gs, j) && gs[j] == GroupOf(msg, c)
  }

  // ---------- Messages with one item ----------

  /** What an item does that updates the most recent row: of the rows that match `g` the one created last
      keeps its creation time and gets the data, if its context is the whole context `c`; otherwise, and when
      there is none, a row is inserted. */
  ghost predicate Touched(t: Table, next: nat, t2: Table, next2: nat, time: int, g: Doc, c: Doc, d: Doc) {
    if exists id :: id in t && Matches(t[id].context, g) then
      exists id :: Latest(t, g, id) &&
        if t[id].context == c then t2 == t[id := Row(t[id].created, time, c, d)] && next2 == next
        else t2 == t[next := Row(time, time, c, d)] && next2 == next + 1
    else
      t2 == t[next := Row(time, time, c, d)] && next2 == next + 1
  }

  ghost predicate Latest(t: Table, c: Doc, id: nat) {
    id in t && Matches(t[id].context, c) &&
    forall o <- t :: Matches(t[o].context, c) ==> t[o].created <= t[id].created
  }

  ghost predicate Inserted(s: State, s2: State, time: int, d: Datum) {
    s2 == s.(table := s.table[s.next := Row(time, time, d.context, d.data)], next := s.next + 1)
  }

  // ---------- The daemon ----------

  class Storer {
    /** The table in the database, with the next serial number. */
    var table: Table
    var nextId: nat
    var cache: Cache
    var updateIds: seq<nat>
    /** A list that is only added to when the id is not there yet. */
    var deleteIds: set<nat>

    ghost predicate Valid()
      reads this
    {
      forall id <- table :: id < nextId
    }

    /** Nothing is left to do in bulk. */
    ghost predicate Idle()
      reads this
    {
      updateIds == [] && deleteIds == {}
    }

    ghost function AsState(): State
      reads this
    {
      State(table, nextId, updateIds, deleteIds)
    }

    constructor ()
      ensures Valid() && table == map[]
    {
      table, nextId, cache, updateIds, deleteIds := map[], 0, map[], [], {};
    }

    method PreMsgProcess()
      modifies this
      ensures table == old(table) && nextId == old(nextId)
      ensures cache == map[] && updateIds == [] && deleteIds == {}
    {
      updateIds, deleteIds, cache := [], {}, map[];
    }

    /** pre_bulk_process */
    method PreBulkProcess(meta: Meta, context: Doc) returns (r: Result<(), StoreError>, ghost rows: seq<Fetched>)
      modifies this`cache
      ensures meta.justInsert ==> r.Ok? && cache == old(cache)
      ensures !meta.justInsert && context == map[] ==> r.Err?
      ensures r.Err? ==> !meta.justInsert && context == map[] && cache == old(cache)
      ensures r.Ok? && !meta.justInsert ==> cache == Cached(old(cache), rows, |rows|) &&
                                            Answer(table, Lookup(meta, context), meta.updateRecent, rows)
    {
      rows := [];
      if meta.justInsert {
        return Ok(()), rows;
      }
      var wanted := Lookup(meta, context);
      assert !meta.updateRecent && "device" in context ==> "device" in wanted;
      if wanted == map[] {
        return Err(EmptyQuery), rows;
      }
      var found := Select(table, wanted, meta.updateRecent);
      for i := 0 to |found|
        invariant cache == Cached(old(cache), found, i)
      {
        cache := Remember(cache, found[i]);
      }
      return Ok(()), found;
    }

    method UpdateItem(id: nat, time: int, context: Doc, data: Doc, updateCreatedAt: bool)
      modifies this`table
      ensures table == Updated(old(table), id,
                Row(if updateCreatedAt || id !in old(table) then time else old(table)[id].created, time, context, data))
    {
      if id in table {
        table := table[id := Row(if updateCreatedAt then time else table[id].created, time, context, data)];
      }
    }

    /** save */
    method Save(time: int, meta: Meta, context: Doc, data: Doc)
      requires Valid()
      modifies this`table, this`nextId, this`updateIds, this`deleteIds
      ensures Valid()
      ensures Saved(ListOf(cache, context), old(AsState()), AsState(), time, meta.ignoreData, context, data)
    {
      var docs := if context in cache then cache[context] else [];
      if |docs| == 1 {
        var d := Different(docs[0].row.data, data, false);
        var updateCreatedAt := true;
        if meta.ignoreData {
          updateCreatedAt := false;
          d := Minor;
        }
        match d {
          case Major => UpdateItem(docs[0].id, time, context, data, true);
          case Same => updateIds := updateIds + [docs[0].id];
          case Minor => UpdateItem(docs[0].id, time, context, data, updateCreatedAt);
        }
      } else if |docs| > 1 {
        var t: Option<int> := None;
        var oldest := 0;
        ghost var s: nat := 0;
        for i := 0 to |docs|
          invariant table == old(table) && nextId == old(nextId) && updateIds == old(updateIds)
          invariant deleteIds == old(deleteIds) + Ids(docs, i)
          invariant t == None <==> i == 0
          invariant i > 0 ==> 0 <= s < i && t == Some(docs[s].row.created) && oldest == docs[s].id
          invariant forall j :: 0 <= j < i ==> docs[s].row.created <= docs[j].row.created
        {
          if t == None {
            t, oldest := Some(docs[i].row.created), docs[i].id;
            s := i;
          }
          if docs[i].row.created < t.value {
            t, oldest := Some(docs[i].row.created), docs[i].id;
            s := i;
          }
          deleteIds := deleteIds + {docs[i].id};
        }
        deleteIds := deleteIds - {oldest};
        assert FirstCreated(docs, s);
        assert AsState() == old(AsState()).(deletes := old(deleteIds) + Ids(docs, |docs|) - {docs[s].id});
      } else {
        table := table[nextId := Row(time, time, context, data)];
        nextId := nextId + 1;
      }
    }

    /** post_bulk_process, for tables without post-processing of whole batches */
    method PostBulkProcess(time: int)
      modifies this`table, this`updateIds
      ensures table == Finished(old(AsState()).(deletes := {}), time) && updateIds == []
    {
      if |updateIds| > 0 {
        table := map id | id in table :: if id in updateIds then table[id].(updated := time) else table[id];
      } else {
        assert table == Finished(AsState().(deletes := {}), time);
      }
      updateIds := [];
    }

    /** post_msg_process */
    method PostMsgProcess()
      modifies this`table, this`deleteIds
      ensures table == old(table) - old(deleteIds) && deleteIds == {}
    {
      if deleteIds != {} {
        table := table - deleteIds;
        deleteIds := {};
      } else {
        assert table - deleteIds == table;
      }
    }

    /** The loop of process_task over the items of one group. */
    method SaveAll(time: int, meta: Meta, c: Doc, items: seq<Doc>)
      requires Valid()
      modifies this`table, this`nextId, this`updateIds, this`deleteIds
      ensures Valid()
      ensures SavedAll(cache, old(AsState()), AsState(), time, meta.ignoreData, Datums(c, NameSet(meta.keyName), items))
    {
      ghost var s0, names := AsState(), NameSet(meta.keyName);
      for j := 0 to |items|
        invariant Valid() && cache == old(cache)
        invariant SavedAll(cache, s0, AsState(), time, meta.ignoreData, Datums(c, names, items[..j]))
      {
        var ctx, rest := MoveKeys(c, meta.keyName, items[j]);
        ghost var s := AsState();
        Save(time, meta, ctx, rest);
        OneMoreItemSaved(cache, s0, s, AsState(), time, meta.ignoreData, c, names, items, j, Datum(ctx, rest));
      }
      assert items[..|items|] == items;
    }

    /** The part of process_task for one group of items. */
    method ProcessGroup(time: int, meta: Meta, c: Doc, items: seq<Doc>)
      returns (ghost rows: seq<Fetched>, ghost mid: State)
      requires Valid()
      modifies this
      ensures Valid()
      ensures !meta.justInsert && c == map[] ==> AsState() == old(AsState()) && cache == old(cache)
      ensures meta.justInsert || c != map[] ==>
                GroupSaved(time, meta, c, Datums(c, NameSet(meta.keyName), items), old(cache), old(AsState()), rows,
                           mid, cache, AsState())
    {
      mid := AsState();
      var looked;
      looked, rows := PreBulkProcess(meta, c);
      if looked.Err? {
        return;
      }
      SaveAll(time, meta, c, items);
      mid := AsState();
      PostBulkProcess(time);
      assert AsState() == Stamped(mid, time);
    }

    /** One turn of the loop over the groups. */
    method ProcessNext(msg: Message, meta: Meta, c: Doc, items: seq<Doc>, ghost gs: seq<Doc>, ghost todo: set<Doc>,
                       ghost s0: State)
      requires Valid() && WellFormed(msg.meta) && s0.updates == [] && s0.deletes == {}
      requires meta == msg.meta.(group := meta.group, keyName := meta.keyName) && NameSet(meta.keyName) == KeyNames(msg)
      requires c in todo && items == ItemsOf(BaseContext(msg), msg.data, |msg.data|, c)
      requires SoFar(msg, gs, todo, s0, cache, AsState())
      modifies this
      ensures Valid() && SoFar(msg, gs + [c], todo - {c}, s0, cache, AsState())
    {
      ghost var k1, s1 := cache, AsState();
      ghost var rows, mid := ProcessGroup(msg.timestamp, meta, c, items);
      OneMoreGroup(msg, meta, gs, todo, c, s0, k1, s1, rows, mid, cache, AsState());
    }

    /** The loop of process_task over the groups of a message. */
    method ProcessGroups(msg: Message, meta: Meta, groups: map<Doc, seq<Doc>>, ghost places: map<Doc, seq<nat>>)
      returns (ghost gs: seq<Doc>)
      requires Valid() && Idle() && cache == map[] && WellFormed(msg.meta)
      requires meta == msg.meta.(group := meta.group, keyName := meta.keyName) && NameSet(meta.keyName) == KeyNames(msg)
      requires Grouped(BaseContext(msg), msg.data, |msg.data|, groups, places)
      requires ListsAll(BaseContext(msg), msg.data, |msg.data|, groups)
      modifies this
      ensures Valid()
      ensures Processed(msg, gs, old(AsState()), AsState())
    {
      ghost var s0 := AsState();
      gs := [];
      GroupsOfMessage(msg, groups, places);
      NoGroupYet(msg, groups.Keys, s0);
      var todo := groups.Keys;
      while todo != {}
        invariant Valid() && SoFar(msg, gs, todo, s0, cache, AsState()) && todo <= groups.Keys
        decreases todo
      {
        var c :| c in todo;
        assert ListedAs(BaseContext(msg), msg.data, |msg.data|, groups, c);
        ProcessNext(msg, meta, c, groups[c], gs, todo, s0);
        gs := gs + [c];
        todo := todo - {c};
      }
      GroupsDone(msg, gs, s0, cache, AsState());
    }

    /** process_task */
    method ProcessTask(msg: Message) returns (r: Result<(), StoreError>, ghost gs: seq<Doc>)
      requires Valid() && Idle() && cache == map[]
      modifies this
      ensures Valid()
      ensures r.Err? <==> !WellFormed(msg.meta)
      ensures r.Err? ==> AsState() == old(AsState())
      ensures r.Ok? ==> Processed(msg, gs, old(AsState()), AsState())
    {
      gs := [];
      var extracted := ExtractMeta(msg);
      if extracted.Err? {
        return Err(BadMessage), gs;
      }
      var groups;
      ghost var places;
      groups, places := GroupByContext(extracted.value.1, msg.data);
      gs := ProcessGroups(msg, extracted.value.0, groups, places);
      return Ok(()), gs;
    }

    /** One message from beginning to end. */
    method Store(msg: Message) returns (r: Result<(), StoreError>)
      requires Valid()
      modifies this
      ensures r.Err? <==> !WellFormed(msg.meta)
      ensures r.Err? ==> table == old(table) && nextId == old(nextId)
      ensures r.Ok? ==> Valid() && Stored(msg, old(table), old(nextId), table, nextId)
    {
      PreMsgProcess();
      ghost var s0 := AsState();
      ghost var gs;
      r, gs := ProcessTask(msg);
      if r.Ok? {
        ghost var s := AsState();
        AllStored(msg, gs, s0, s);
        PostMsgProcess();
        assert table == s.table - s.deletes && nextId == s.next;
      }
    }
  }

  // ---------- One group ----------

  lemma OneMoreItemSaved(cache: Cache, s0: State, s: State, s2: State, time: int, ignore: bool, c: Doc,
                         names: set<string>, items: seq<Doc>, j: nat, d: Datum)
    requires j < |items| && d == Sorted(c, names, items[j])
    requires SavedAll(cache, s0, s, time, ignore, Datums(c, names, items[..j]))
    requires SavedOne(cache, s, s2, time, ignore, d)
    ensures SavedAll(cache, s0, s2, time, ignore, Datums(c, names, items[..j + 1]))
  {
    assert items[..j + 1] == items[..j] + [items[j]];
    OneMoreDatum(c, names, items[..j], items[j]);
    OneMoreSaved(cache, s0, s, s2, time, ignore, Datums(c, names, items[..j]), d);
  }

  /** What processing a group does to the cache and the state. */
  ghost predicate GroupSaved(time: int, meta: Meta, c: Doc, ds: seq<Datum>, k0: Cache, s0: State, rows: seq<Fetched>,
                             mid: State, k: Cache, s: State)
  {
    && k == (if meta.justInsert then k0 else Cached(k0, rows, |rows|))
    && (!meta.justInsert ==> Answer(s0.table, Lookup(meta, c), meta.updateRecent, rows))
    && SavedAll(k, s0, mid, time, meta.ignoreData, ds)
    && s == Stamped(mid, time)
  }

  lemma GroupsOfMessage(msg: Message, groups: map<Doc, seq<Doc>>, places: map<Doc, seq<nat>>)
    requires WellFormed(msg.meta) && Grouped(BaseContext(msg), msg.data, |msg.data|, groups, places)
    ensures forall g :: g in groups <==> IsGroup(msg, g)
  {
    forall g | g in groups ensures IsGroup(msg, g) {
      assert SameItems(BaseContext(msg), msg.data, |msg.data|, g, groups[g], places[g]);
      assert GroupContext(msg, places[g][0]) == g;
    }
    forall g | IsGroup(msg, g) ensures g in groups {
      var i: nat :| i < |msg.data| && GroupContext(msg, i) == g;
      assert msg.data[i] == msg.data[i];
    }
  }

  lemma GroupHasBaseKeys(msg: Message, g: Doc)
    requires WellFormed(msg.meta) && IsGroup(msg, g)
    ensures g.Keys == BaseContext(msg).Keys
    ensures g == map[] <==> BaseContext(msg) == map[]
  {
    if BaseContext(msg) != map[] {
      assert BaseContext(msg).Keys != {};
    }
  }

  /** The context of an item belongs to the group of the item. */
  lemma InItsGroup(base: Doc, names: set<string>, g: Doc, item: Doc)
    requires g.Keys == base.Keys && item.Keys !! g.Keys
    ensures base.Keys <= Sorted(g, names, item).context.Keys
    ensures Restrict(Sorted(g, names, item).context, base.Keys) == g
  {
  }

  /** A query of one group asks for the rows of just the groups that would ask for the same. */
  lemma MatchesIsAsking(msg: Message, g: Doc, c: Doc)
    requires WellFormed(msg.meta) && g.Keys == BaseContext(msg).Keys <= c.Keys
    requires !msg.meta.updateRecent
    ensures Matches(c, Lookup(msg.meta, g)) <==> Lookup(msg.meta, g) == Lookup(msg.meta, GroupOf(msg, c))
  {
    var own := GroupOf(msg, c);
    assert own.Keys == g.Keys;
    if "device" in g {
      assert own["device"] == c["device"];
      assert Lookup(msg.meta, g)["device"] == g["device"] && Lookup(msg.meta, own)["device"] == c["device"];
    } else if Matches(c, g) {
      assert own == g;
    } else {
      assert forall k <- own :: own[k] == c[k];
    }
  }

  // ---------- The groups of a plain message ----------

  /** The items of a group as they are to be stored. */
  ghost function GroupDatums(msg: Message, g: Doc): seq<Datum>
    requires WellFormed(msg.meta)
  {
    Datums(g, KeyNames(msg), ItemsOf(BaseContext(msg), msg.data, |msg.data|, g))
  }

  /** The items of the groups so far. */
  ghost function Done(msg: Message, gs: seq<Doc>): seq<Datum>
    requires WellFormed(msg.meta)
  {
    if |gs| == 0 then [] else Done(msg, gs[..|gs| - 1]) + GroupDatums(msg, gs[|gs| - 1])
  }

  lemma {:induction false} ItemsLackKeys(base: Doc, data: seq<Doc>, n: nat, g: Doc)
    requires n <= |data|
    ensures forall x <- ItemsOf(base, data, n, g) :: x.Keys !! base.Keys
  {
    if n > 0 {
      ItemsLackKeys(base, data, n - 1, g);
    }
  }

  lemma {:induction false} DataForSum(a: seq<Datum>, b: seq<Datum>, c: Doc)
    ensures DataFor(a + b, c) == DataFor(a, c) + DataFor(b, c)
    decreases |b|
  {
    if |b| == 0 {
      assert a + b == a;
    } else {
      var rest, d := b[..|b| - 1], b[|b| - 1];
      DataForSum(a, rest, c);
      assert a + b == (a + rest) + [Datum(d.context, d.data)];
      DataWithOneMore(a + rest, d.context, d.data, c);
    }
  }

  lemma {:induction false} DataForSome(ds: seq<Datum>, c: Doc)
    ensures DataFor(ds, c) != [] ==> exists i :: 0 <= i < |ds| && ds[i].context == c
  {
    if |ds| > 0 {
      DataForSome(ds[..|ds| - 1], c);
    }
  }

  lemma DatumAtEnd(base: Doc, names: set<string>, items: seq<Doc>, item: Doc, c: Doc)
    ensures var was, d := DataFor(Datums(base, names, items), c), Sorted(base, names, item);
            DataFor(Datums(base, names, items + [item]), c) == if d.context == c then was + [d.data] else was
  {
    var d := Sorted(base, names, item);
    OneMoreDatum(base, names, items, item);
    DataWithOneMore(Datums(base, names, items), d.context, d.data, c);
  }

  lemma GrowTogether<T>(all: seq<T>, own: seq<T>, here: bool, inGroup: bool, fits: bool, x: T)
    requires own == (if here then all else []) && (fits ==> (inGroup <==> here))
    ensures (if inGroup && fits then own + [x] else own) == if here then (if fits then all + [x] else all) else []
  {
  }

  /** An item of the context is in its group. */
  lemma ItemInGroup(base: Doc, names: set<string>, item: Doc, c: Doc)
    requires base.Keys <= names
    ensures Sorted(base, names, item).context == c ==> Restrict(c, base.Keys) == Sorted(base, base.Keys, item).context
  {
    var first := Sorted(base, base.Keys, item);
    TwoStepsAreOne(base, names, item);
    InItsGroup(base, names, first.context, first.data);
  }

  lemma OneMoreOfAll(base: Doc, names: set<string>, data: seq<Doc>, n: nat, c: Doc)
    requires n < |data|
    ensures var was, d := DataFor(Datums(base, names, data[..n]), c), Sorted(base, names, data[n]);
            DataFor(Datums(base, names, data[..n + 1]), c) == if d.context == c then was + [d.data] else was
  {
    assert data[..n + 1] == data[..n] + [data[n]];
    DatumAtEnd(base, names, data[..n], data[n], c);
  }

  lemma OneMoreOfGroup(base: Doc, names: set<string>, data: seq<Doc>, n: nat, g: Doc, c: Doc)
    requires n < |data| && base.Keys <= names
    ensures var was, d := DataFor(Datums(g, names, ItemsOf(base, data, n, g)), c), Sorted(base, names, data[n]);
            DataFor(Datums(g, names, ItemsOf(base, data, n + 1, g)), c)
            == if Sorted(base, base.Keys, data[n]).context == g && d.context == c then was + [d.data] else was
  {
    var first := Sorted(base, base.Keys, data[n]);
    if first.context == g {
      TwoStepsAreOne(base, names, data[n]);
      DatumAtEnd(g, names, ItemsOf(base, data, n, g), first.data, c);
    }
  }

  /** The first `n` items of a context are in its group, in order. */
  ghost predicate SameData(base: Doc, names: set<string>, data: seq<Doc>, n: nat, g: Doc, c: Doc)
    requires n <= |data|
  {
    DataFor(Datums(g, names, ItemsOf(base, data, n, g)), c)
    == if Restrict(c, base.Keys) == g then DataFor(Datums(base, names, data[..n]), c) else []
  }

  lemma NoneSame(base: Doc, names: set<string>, data: seq<Doc>, g: Doc, c: Doc)
    ensures SameData(base, names, data, 0, g, c)
  {
    assert Datums(g, names, []) == [] && data[..0] == [];
  }

  lemma OneMoreSame(base: Doc, names: set<string>, data: seq<Doc>, n: nat, g: Doc, c: Doc)
    requires n < |data| && base.Keys <= names && SameData(base, names, data, n, g, c)
    ensures SameData(base, names, data, n + 1, g, c)
  {
    OneMoreOfAll(base, names, data, n, c);
    ItemInGroup(base, names, data[n], c);
    OneMoreOfGroup(base, names, data, n, g, c);
    var first, d := Sorted(base, base.Keys, data[n]), Sorted(base, names, data[n]);
    GrowTogether(DataFor(Datums(base, names, data[..n]), c),
                 DataFor(Datums(g, names, ItemsOf(base, data, n, g)), c),
                 Restrict(c, base.Keys) == g, first.context == g, d.context == c, d.data);
  }

  lemma {:induction false} GroupDataUpTo(base: Doc, names: set<string>, data: seq<Doc>, n: nat, g: Doc, c: Doc)
    requires n <= |data| && base.Keys <= names
    ensures SameData(base, names, data, n, g, c)
  {
    if n == 0 {
      NoneSame(base, names, data, g, c);
    } else {
      GroupDataUpTo(base, names, data, n - 1, g, c);
      OneMoreSame(base, names, data, n - 1, g, c);
    }
  }

  lemma GroupData(msg: Message, g: Doc, c: Doc)
    requires WellFormed(msg.meta) && g.Keys == BaseContext(msg).Keys
    ensures DataFor(GroupDatums(msg, g), c) == if GroupOf(msg, c) == g then DataFor(AllDatums(msg), c) else []
  {
    BaseUnderKeyNames(msg);
    GroupDataUpTo(BaseContext(msg), KeyNames(msg), msg.data, |msg.data|, g, c);
    assert msg.data[..|msg.data|] == msg.data;
  }

  ghost predicate AreGroups(msg: Message, gs: seq<Doc>)
    requires WellFormed(msg.meta)
  {
    NoneTwice(gs) && forall g <- gs :: IsGroup(msg, g)
  }

  lemma {:induction false} DoneData(msg: Message, gs: seq<Doc>, c: Doc)
    requires WellFormed(msg.meta) && AreGroups(msg, gs)
    ensures DataFor(Done(msg, gs), c) == if GroupOf(msg, c) in gs then DataFor(AllDatums(msg), c) else []
    decreases |gs|
  {
    if |gs| > 0 {
      var before, g := gs[..|gs| - 1], gs[|gs| - 1];
      assert g in gs && g !in before;
      DoneData(msg, before, c);
      OneMoreDone(msg, gs, c);
      InOrLast(gs, GroupOf(msg, c));
    }
  }

  lemma InOrLast<T>(s: seq<T>, x: T)
    requires s != []
    ensures x in s <==> x in s[..|s| - 1] || x == s[|s| - 1]
  {
  }

  lemma OneMoreDone(msg: Message, gs: seq<Doc>, c: Doc)
    requires WellFormed(msg.meta) && gs != [] && IsGroup(msg, gs[|gs| - 1])
    ensures var own := if GroupOf(msg, c) == gs[|gs| - 1] then DataFor(AllDatums(msg), c) else [];
            DataFor(Done(msg, gs), c) == DataFor(Done(msg, gs[..|gs| - 1]), c) + own
  {
    var g := gs[|gs| - 1];
    GroupHasBaseKeys(msg, g);
    GroupData(msg, g, c);
    DataForSum(Done(msg, gs[..|gs| - 1]), GroupDatums(msg, g), c);
  }

  /** A context of the message belongs to one of its groups. */
  lemma ContextHasGroup(msg: Message, c: Doc)
    requires WellFormed(msg.meta) && DataFor(AllDatums(msg), c) != []
    ensures IsGroup(msg, GroupOf(msg, c)) && BaseContext(msg).Keys <= c.Keys
  {
    DataForSome(AllDatums(msg), c);
    var i: nat :| i < |msg.data| && AllDatums(msg)[i].context == c;
    BaseUnderKeyNames(msg);
    ItemInGroup(BaseContext(msg), KeyNames(msg), msg.data[i], c);
    assert GroupContext(msg, i) == GroupOf(msg, c);
  }

  /** Some groups have been processed, and the cache knows about the other ones what these groups asked for. */
  ghost predicate AfterGroups(msg: Message, gs: seq<Doc>, t0: Table, cache: Cache, s: State)
    requires WellFormed(msg.meta)
  {
    && s.updates == []
    && Progress(t0, s, Done(msg, gs), Late(msg, gs), msg.timestamp)
    && forall c: Doc {:trigger GroupOf(msg, c)} :: Waits(msg, gs, c) ==>
         Recalled(t0, c, ListOf(cache, c), Asked(msg.meta, gs, GroupOf(msg, c)))
  }

  /** The group of the context has not been processed. */
  ghost predicate Waits(msg: Message, gs: seq<Doc>, c: Doc)
    requires WellFormed(msg.meta)
  {
    BaseContext(msg).Keys <= c.Keys && GroupOf(msg, c) !in gs
  }

  /** The groups in `gs` have been processed and those in `todo` have not. */
  ghost predicate SoFar(msg: Message, gs: seq<Doc>, todo: set<Doc>, s0: State, cache: Cache, s: State)
    requires WellFormed(msg.meta)
  {
    && NoneTwice(gs) && (forall g :: g in gs || g in todo <==> IsGroup(msg, g)) && (forall g <- gs :: g !in todo)
    && (BaseContext(msg) == map[] && !msg.meta.justInsert ==> s == s0)
    && (Plain(msg.meta) && BaseContext(msg) != map[] ==> AfterGroups(msg, gs, s0.table, cache, s))
    && (|msg.data| == 1 ==> if todo == {} then OneItem(msg, s0, s) else s == s0 && cache == map[])
  }

  lemma NoGroupYet(msg: Message, groups: set<Doc>, s: State)
    requires WellFormed(msg.meta) && s.updates == [] && s.deletes == {} && Numbered(s.table, s.next)
    requires forall g :: g in groups <==> IsGroup(msg, g)
    ensures SoFar(msg, [], groups, s, map[], s)
  {
    NothingSaved(s, Late(msg, []), msg.timestamp);
    if |msg.data| == 1 {
      assert IsGroup(msg, GroupContext(msg, 0));
    }
  }

  /** One turn of the loop over the groups. */
  lemma OneMoreGroup(msg: Message, meta: Meta, gs: seq<Doc>, todo: set<Doc>, g: Doc, s0: State, k1: Cache, s1: State,
                     rows: seq<Fetched>, mid: State, k: Cache, s: State)
    requires WellFormed(msg.meta) && meta == msg.meta.(group := meta.group, keyName := meta.keyName) && g in todo
    requires SoFar(msg, gs, todo, s0, k1, s1) && s0.updates == [] && s0.deletes == {}
    requires if !meta.justInsert && g == map[] then s == s1 && k == k1
             else GroupSaved(msg.timestamp, meta, g, GroupDatums(msg, g), k1, s1, rows, mid, k, s)
    ensures SoFar(msg, gs + [g], todo - {g}, s0, k, s)
  {
    assert IsGroup(msg, g);
    GroupHasBaseKeys(msg, g);
    if Plain(msg.meta) && BaseContext(msg) != map[] {
      GroupDone(msg, meta, gs, g, s0.table, k1, s1, rows, mid, k, s);
    }
    if |msg.data| == 1 {
      OneGroupOnly(msg, todo, g);
      OnlyItem(msg, meta, g, rows, mid, s0, k, s);
    }
  }

  lemma OneGroupOnly(msg: Message, todo: set<Doc>, g: Doc)
    requires WellFormed(msg.meta) && |msg.data| == 1 && g in todo && forall x <- todo :: IsGroup(msg, x)
    ensures todo - {g} == {} && g == GroupContext(msg, 0)
  {
    assert IsGroup(msg, g);
  }

  lemma GroupsDone(msg: Message, gs: seq<Doc>, s0: State, cache: Cache, s: State)
    requires WellFormed(msg.meta) && SoFar(msg, gs, {}, s0, cache, s)
    ensures Processed(msg, gs, s0, s)
  {
    if Plain(msg.meta) && BaseContext(msg) != map[] {
      AllGroupsDone(msg, gs, s0.table, cache, s);
    }
  }

  lemma LateWithOneMore(msg: Message, gs: seq<Doc>, g: Doc, c: Doc)
    requires WellFormed(msg.meta) && g !in gs
    ensures GroupOf(msg, c) != g ==> (c in Late(msg, gs) <==> c in Late(msg, gs + [g]))
    ensures GroupOf(msg, c) == g ==> (c in Late(msg, gs + [g]) <==> Asked(msg.meta, gs, g))
  {
    var all := gs + [g];
    forall j: nat | j < |gs| ensures LateGroup(msg.meta, gs, j) <==> LateGroup(msg.meta, all, j) {
      assert all[..j] == gs[..j];
    }
    assert all[..|gs|] == gs;
    assert LateGroup(msg.meta, all, |gs|) <==> Asked(msg.meta, gs, g);
    if c in Late(msg, gs) {
      var j: nat :| LateGroup(msg.meta, gs, j) && gs[j] == GroupOf(msg, c);
      assert LateGroup(msg.meta, all, j) && all[j] == GroupOf(msg, c);
    }
    if GroupOf(msg, c) == g && Asked(msg.meta, gs, g) {
      assert LateGroup(msg.meta, all, |gs|) && all[|gs|] == GroupOf(msg, c);
    }
  }

  lemma AskedWithOneMore(meta: Meta, gs: seq<Doc>, g: Doc, own: Doc)
    ensures Asked(meta, gs + [g], own) <==> Asked(meta, gs, own) || Lookup(meta, g) == Lookup(meta, own)
  {
    var all := gs + [g];
    if i :| 0 <= i < |gs| && Lookup(meta, gs[i]) == Lookup(meta, own) {
      assert all[i] == gs[i];
    }
    assert all[|gs|] == g;
  }

  /** What the query of a group adds to what is cached for a context that waits. */
  lemma Queried(msg: Message, gs: seq<Doc>, g: Doc, t0: Table, k0: Cache, s0: State, rows: seq<Fetched>, c: Doc)
    requires WellFormed(msg.meta) && Plain(msg.meta) && AfterGroups(msg, gs, t0, k0, s0)
    requires AreGroups(msg, gs) && g.Keys == BaseContext(msg).Keys && Waits(msg, gs, c)
    requires Answer(s0.table, Lookup(msg.meta, g), false, rows)
    ensures var docs := ListOf(Cached(k0, rows, |rows|), c);
            Recalled(t0, c, docs, Asked(msg.meta, gs + [g], GroupOf(msg, c)))
            && (GroupOf(msg, c) == g ==> if Asked(msg.meta, gs, g) then HoldsTwice(t0, c, docs) else Holds(t0, c, docs))
  {
    DoneData(msg, gs, c);
    RowsUntouched(t0, s0, Done(msg, gs), Late(msg, gs), msg.timestamp, c);
    MatchesIsAsking(msg, g, c);
    AskedWithOneMore(msg.meta, gs, g, GroupOf(msg, c));
    QueryRecalls(t0, s0.table, k0, Lookup(msg.meta, g), rows, c, Asked(msg.meta, gs, GroupOf(msg, c)));
  }

  /** When a group is saved, what is cached for its items was fetched once, or twice if they are late. */
  lemma GroupFetched(msg: Message, gs: seq<Doc>, g: Doc, t0: Table, k0: Cache, s0: State, rows: seq<Fetched>)
    requires WellFormed(msg.meta) && Plain(msg.meta) && AfterGroups(msg, gs, t0, k0, s0)
    requires AreGroups(msg, gs) && g !in gs && g.Keys == BaseContext(msg).Keys
    requires Answer(s0.table, Lookup(msg.meta, g), false, rows)
    ensures forall i :: 0 <= i < |GroupDatums(msg, g)| ==>
              FetchedFor(t0, Cached(k0, rows, |rows|), Late(msg, gs + [g]), GroupDatums(msg, g)[i].context)
  {
    var items := ItemsOf(BaseContext(msg), msg.data, |msg.data|, g);
    ItemsLackKeys(BaseContext(msg), msg.data, |msg.data|, g);
    forall i | 0 <= i < |items|
      ensures FetchedFor(t0, Cached(k0, rows, |rows|), Late(msg, gs + [g]), GroupDatums(msg, g)[i].context)
    {
      assert items[i] in items;
      InItsGroup(BaseContext(msg), KeyNames(msg), g, items[i]);
      var c := GroupDatums(msg, g)[i].context;
      Queried(msg, gs, g, t0, k0, s0, rows, c);
      LateWithOneMore(msg, gs, g, c);
    }
  }

  lemma GroupDone(msg: Message, meta: Meta, gs: seq<Doc>, g: Doc, t0: Table, k0: Cache, s0: State, rows: seq<Fetched>,
                  mid: State, k: Cache, s: State)
    requires WellFormed(msg.meta) && Plain(msg.meta) && meta == msg.meta.(group := meta.group, keyName := meta.keyName)
    requires AreGroups(msg, gs) && g !in gs && IsGroup(msg, g) && AfterGroups(msg, gs, t0, k0, s0)
    requires GroupSaved(msg.timestamp, meta, g, GroupDatums(msg, g), k0, s0, rows, mid, k, s)
    ensures AfterGroups(msg, gs + [g], t0, k, s)
  {
    var late, late2, done, time := Late(msg, gs), Late(msg, gs + [g]), Done(msg, gs), msg.timestamp;
    GroupHasBaseKeys(msg, g);
    forall c: Doc | DataFor(done, c) != [] ensures c in late <==> c in late2 {
      DoneData(msg, gs, c);
      LateWithOneMore(msg, gs, g, c);
    }
    OtherLate(t0, s0, done, late, late2, time);
    GroupFetched(msg, gs, g, t0, k0, s0, rows);
    SavedAllUpsert(t0, k, s0, mid, done, GroupDatums(msg, g), late2, time);
    BulkStamps(t0, mid, done + GroupDatums(msg, g), late2, time);
    assert (gs + [g])[..|gs|] == gs;
    forall c: Doc | Waits(msg, gs + [g], c)
      ensures Recalled(t0, c, ListOf(k, c), Asked(msg.meta, gs + [g], GroupOf(msg, c)))
    {
      Queried(msg, gs, g, t0, k0, s0, rows, c);
    }
  }

  lemma AllGroupsDone(msg: Message, gs: seq<Doc>, t0: Table, cache: Cache, s: State)
    requires WellFormed(msg.meta) && GroupOrder(msg, gs) && AfterGroups(msg, gs, t0, cache, s)
    ensures Upserted(t0, Finished(s, msg.timestamp), AllDatums(msg), Late(msg, gs), msg.timestamp)
  {
    var f := Finished(s, msg.timestamp);
    forall c: Doc
      ensures Outcome(Rows(t0, c), Rows(f, c), c, DataFor(AllDatums(msg), c), c in Late(msg, gs), msg.timestamp)
    {
      DoneData(msg, gs, c);
      if DataFor(AllDatums(msg), c) != [] {
        ContextHasGroup(msg, c);
      }
      assert Outcome(Rows(t0, c), Rows(f, c), c, DataFor(Done(msg, gs), c), c in Late(msg, gs), msg.timestamp);
    }
  }

  // ---------- A message with one item ----------

  /** What processing comes to then. */
  ghost predicate OneItem(msg: Message, s0: State, s: State)
    requires WellFormed(msg.meta) && |msg.data| == 1
  {
    var d := DatumAt(msg, 0);
    && (msg.meta.justInsert ==> Inserted(s0, s, msg.timestamp, d))
    && (ForAlert(msg.meta) && GroupContext(msg, 0) != map[] ==>
          && s.deletes == {}
          && Touched(s0.table, s0.next, s.table, s.next, msg.timestamp, GroupContext(msg, 0), d.context, d.data))
  }

  lemma SavedSingle(cache: Cache, s: State, s2: State, time: int, ignore: bool, d: Datum)
    requires SavedAll(cache, s, s2, time, ignore, [d])
    ensures SavedOne(cache, s, s2, time, ignore, d)
  {
    var ds := [d];
    assert ds[..|ds| - 1] == [];
  }

  lemma OnlyItem(msg: Message, meta: Meta, g: Doc, rows: seq<Fetched>, mid: State, s0: State, k: Cache, s: State)
    requires WellFormed(msg.meta) && meta == msg.meta.(group := meta.group, keyName := meta.keyName)
    requires |msg.data| == 1 && g == GroupContext(msg, 0) && s0.updates == [] && s0.deletes == {}
    requires meta.justInsert || g != map[] ==>
               GroupSaved(msg.timestamp, meta, g, GroupDatums(msg, g), map[], s0, rows, mid, k, s)
    ensures OneItem(msg, s0, s)
  {
    OnlyDatum(msg, g);
    if msg.meta.justInsert {
      JustInserted(s0, mid, msg.timestamp, meta.ignoreData, DatumAt(msg, 0));
    } else if ForAlert(msg.meta) && g != map[] {
      RecentTouched(s0, mid, rows, msg.timestamp, g, DatumAt(msg, 0));
    }
  }

  lemma OnlyDatum(msg: Message, g: Doc)
    requires WellFormed(msg.meta) && |msg.data| == 1 && g == GroupContext(msg, 0)
    ensures GroupDatums(msg, g) == [DatumAt(msg, 0)]
  {
    var base := BaseContext(msg);
    TwoStepsAreOne(base, KeyNames(msg), msg.data[0]);
    assert ItemsOf(base, msg.data, 1, g) == ItemsOf(base, msg.data, 0, g) + [Sorted(base, base.Keys, msg.data[0]).data];
  }

  lemma NothingToStamp(s: State, time: int)
    requires s.updates == []
    ensures Stamped(s, time) == s
  {
    assert Finished(s.(deletes := {}), time) == s.table;
  }

  lemma RecentCached(t: Table, rows: seq<Fetched>, g: Doc, c: Doc)
    requires Answer(t, g, true, rows)
    ensures var docs := ListOf(Cached(map[], rows, |rows|), c);
            docs == if |rows| == 1 && rows[0].row.context == c then [rows[0]] else []
  {
    if |rows| == 1 {
      assert ListOf(Cached(map[], rows, 0), rows[0].row.context) + [rows[0]] == [rows[0]];
    }
  }

  lemma JustInserted(s0: State, s: State, time: int, ignore: bool, d: Datum)
    requires s0.updates == [] && SavedAll(map[], s0, s, time, ignore, [d])
    ensures Inserted(s0, Stamped(s, time), time, d)
  {
    SavedSingle(map[], s0, s, time, ignore, d);
    NothingToStamp(s, time);
  }

  lemma RecentTouched(s0: State, s: State, rows: seq<Fetched>, time: int, g: Doc, d: Datum)
    requires s0.updates == [] && s0.deletes == {} && Answer(s0.table, g, true, rows)
    requires SavedAll(Cached(map[], rows, |rows|), s0, s, time, true, [d])
    ensures Stamped(s, time).deletes == {}
    ensures Touched(s0.table, s0.next, Stamped(s, time).table, s.next, time, g, d.context, d.data)
  {
    SavedSingle(Cached(map[], rows, |rows|), s0, s, time, true, d);
    RecentCached(s0.table, rows, g, d.context);
    NothingToStamp(s, time);
    if |rows| == 1 {
      assert InTable(s0.table, g, rows[0]) && Latest(s0.table, g, rows[0].id);
    }
  }

  // ---------- What storing comes to ----------

  ghost predicate Processed(msg: Message, gs: seq<Doc>, s0: State, s: State)
    requires WellFormed(msg.meta)
  {
    && (Plain(msg.meta) && BaseContext(msg) != map[] ==>
          && GroupOrder(msg, gs) && s.updates == []
          && Upserted(s0.table, Finished(s, msg.timestamp), AllDatums(msg), Late(msg, gs), msg.timestamp))
    && (!msg.meta.justInsert && BaseContext(msg) == map[] ==> s == s0)
    && (|msg.data| == 1 ==> OneItem(msg, s0, s))
  }

  /** The table after a plain message without any common context is what it was; with one, it is updated by all
      items except those that come too late in the order the groups were processed in.  A message with a single item
      that is to be just inserted adds a row; one that updates the most recent row touches that. */
  ghost predicate Stored(msg: Message, t: Table, next: nat, t2: Table, next2: nat)
    requires WellFormed(msg.meta)
  {
    && (Plain(msg.meta) && BaseContext(msg) != map[] ==> exists gs :: StoredInOrder(msg, gs, t, t2))
    && (!msg.meta.justInsert && BaseContext(msg) == map[] ==> t2 == t && next2 == next)
    && (|msg.data| == 1 && msg.meta.justInsert ==>
          var d := DatumAt(msg, 0);
          next2 == next + 1 && t2 == t[next := Row(msg.timestamp, msg.timestamp, d.context, d.data)])
    && (|msg.data| == 1 && ForAlert(msg.meta) && GroupContext(msg, 0) != map[] ==>
          var d := DatumAt(msg, 0);
          Touched(t, next, t2, next2, msg.timestamp, GroupContext(msg, 0), d.context, d.data))
  }

  ghost predicate StoredInOrder(msg: Message, gs: seq<Doc>, t: Table, t2: Table)
    requires WellFormed(msg.meta)
  {
    GroupOrder(msg, gs) && Upserted(t, t2, AllDatums(msg), Late(msg, gs), msg.timestamp)
  }

  lemma AllStored(msg: Message, gs: seq<Doc>, s0: State, s: State)
    requires WellFormed(msg.meta) && Processed(msg, gs, s0, s) && s0.updates == [] && s0.deletes == {}
    ensures Stored(msg, s0.table, s0.next, s.table - s.deletes, s.next)
  {
    if s.deletes == {} {
      assert s.table - s.deletes == s.table;
    }
    if Plain(msg.meta) && BaseContext(msg) != map[] {
      assert Finished(s, msg.timestamp) == s.table - s.deletes;
      assert StoredInOrder(msg, gs, s0.table, s.table - s.deletes);
    }
  }
}
