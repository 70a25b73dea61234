/**
 What a plain message, one that neither just inserts nor updates the most recent row nor ignores data, makes of a
 table with one row for a context, and when that is what its items say
 (lib/ptolemy/storage/feeders/postgres.py:433-689).
 */
module PostgresUpserts {
  import opened Basics
  import opened Feeder
  import opened PostgresRows
  import opened PostgresCache
  import opened PostgresSaving
  import opened PostgresStorer

  /** Different groups of the message ask for different rows; so it is when there is one group only. */
  ghost predicate GroupsApart(msg: Message)
    requires WellFormed(msg.meta)
  {
    forall g, h :: IsGroup(msg, g) && IsGroup(msg, h) && Lookup(msg.meta, g) == Lookup(msg.meta, h) ==> g == h
  }

  lemma LateItem(msg: Message, gs: seq<Doc>, j: nat) returns (c: Doc)
    requires WellFormed(msg.meta) && GroupOrder(msg, gs) && LateGroup(msg.meta, gs, j)
    ensures c in Late(msg, gs) && DataFor(AllDatums(msg), c) != []
  {
    assert gs[j] in gs && IsGroup(msg, gs[j]);
    var i: nat :| i < |msg.data| && GroupContext(msg, i) == gs[j];
    c := DatumAt(msg, i).context;
    BaseUnderKeyNames(msg);
    ItemInGroup(BaseContext(msg), KeyNames(msg), msg.data[i], c);
    HasData(AllDatums(msg), i);
    assert AllDatums(msg)[i] == DatumAt(msg, i);
  }

  lemma {:induction false} HasData(ds: seq<Datum>, i: nat)
    requires i < |ds|
    ensures DataFor(ds, ds[i].context) != []
  {
    if i < |ds| - 1 {
      HasData(ds[..|ds| - 1], i);
    }
  }

  /** In whatever order the groups are processed, no item comes too late exactly when the groups are apart. */
  lemma NoneLateExactlyWhen(msg: Message, gs: seq<Doc>)
    requires WellFormed(msg.meta) && GroupOrder(msg, gs)
    ensures GroupsApart(msg) <==> forall c :: DataFor(AllDatums(msg), c) != [] ==> c !in Late(msg, gs)
  {
    if GroupsApart(msg) {
      forall c: Doc ensures c !in Late(msg, gs) {
        ApartIsNotLate(msg, gs, c);
      }
    } else {
      var g, h :| IsGroup(msg, g) && IsGroup(msg, h) && Lookup(msg.meta, g) == Lookup(msg.meta, h) && g != h;
      var c := OneOfThemIsLate(msg, gs, g, h);
    }
  }

  lemma OneOfThemIsLate(msg: Message, gs: seq<Doc>, g: Doc, h: Doc) returns (c: Doc)
    requires WellFormed(msg.meta) && GroupOrder(msg, gs)
    requires IsGroup(msg, g) && IsGroup(msg, h) && Lookup(msg.meta, g) == Lookup(msg.meta, h) && g != h
    ensures c in Late(msg, gs) && DataFor(AllDatums(msg), c) != []
  {
    assert g in gs && h in gs;
    var i: nat, j: nat :| i < |gs| && j < |gs| && gs[i] == g && gs[j] == h;
    c := LaterIsLate(msg, gs, if i < j then i else j, if i < j then j else i);
  }

  lemma ApartIsNotLate(msg: Message, gs: seq<Doc>, c: Doc)
    requires WellFormed(msg.meta) && GroupOrder(msg, gs) && GroupsApart(msg)
    ensures c !in Late(msg, gs)
  {
    forall j: nat ensures !LateGroup(msg.meta, gs, j) {
      if j < |gs| {
        forall i | 0 <= i < j ensures Lookup(msg.meta, gs[i]) != Lookup(msg.meta, gs[j]) {
          assert gs[i] in gs && gs[j] in gs && gs[i] != gs[j];
        }
      }
    }
  }

  lemma LaterIsLate(msg: Message, gs: seq<Doc>, i: nat, j: nat) returns (c: Doc)
    requires WellFormed(msg.meta) && GroupOrder(msg, gs)
    requires i < j < |gs| && Lookup(msg.meta, gs[i]) == Lookup(msg.meta, gs[j])
    ensures c in Late(msg, gs) && DataFor(AllDatums(msg), c) != []
  {
    EarlierAsks(msg.meta, gs, i, j);
    c := LateItem(msg, gs, j);
  }

  lemma EarlierAsks(meta: Meta, gs: seq<Doc>, i: nat, j: nat)
    requires i < j < |gs| && Lookup(meta, gs[i]) == Lookup(meta, gs[j])
    ensures LateGroup(meta, gs, j)
  {
    assert gs[..j][i] == gs[i];
  }

  /** Of the groups that ask for the same rows, all but the one that is processed first are late. */
  lemma {:induction false} OneGroupInTime(meta: Meta, gs: seq<Doc>, j: nat) returns (i: nat)
    requires j < |gs|
    ensures i <= j && Lookup(meta, gs[i]) == Lookup(meta, gs[j]) && !LateGroup(meta, gs, i)
    ensures forall k: nat :: k < |gs| && k != i && Lookup(meta, gs[k]) == Lookup(meta, gs[j]) ==> LateGroup(meta, gs, k)
    decreases j
  {
    if LateGroup(meta, gs, j) {
      var k :| 0 <= k < j && Lookup(meta, gs[..j][k]) == Lookup(meta, gs[j]);
      i := OneGroupInTime(meta, gs, k);
    } else {
      i := j;
      forall k: nat | k < |gs| && k != i && Lookup(meta, gs[k]) == Lookup(meta, gs[j]) ensures LateGroup(meta, gs, k) {
        EarlierAsks(meta, gs, if k < j then k else j, if k < j then j else k);
      }
    }
  }

  /** On a table with one row for a context there is one row for a context after the message exactly when no
      context without a row occurs in it twice. */
  lemma StillOneRowEachExactlyWhen(msg: Message, t: Table, next: nat, t2: Table, next2: nat)
    requires WellFormed(msg.meta) && Plain(msg.meta) && BaseContext(msg) != map[]
    requires OneRowEach(t) && Stored(msg, t, next, t2, next2)
    ensures OneRowEach(t2) <==> forall c :: c !in Contents(t) ==> |DataFor(AllDatums(msg), c)| <= 1
  {
    var gs :| StoredInOrder(msg, gs, t, t2);
    OneRowEachExactlyWhen(t, t2, AllDatums(msg), Late(msg, gs), msg.timestamp);
  }

  /** When the groups are apart, a context that has a row ends with the last data that differ from those it had,
      whatever came after them, or with those it had. */
  lemma RowEndsWithLastOther(msg: Message, t: Table, next: nat, t2: Table, next2: nat, c: Doc, id: nat)
    requires WellFormed(msg.meta) && Plain(msg.meta) && BaseContext(msg) != map[] && GroupsApart(msg)
    requires Stored(msg, t, next, t2, next2) && Only(Rows(t, c), id) && DataFor(AllDatums(msg), c) != []
    ensures id in t && OnlyRow(Rows(t2, c), id, Final(t[id], c, DataFor(AllDatums(msg), c), msg.timestamp))
  {
    var gs :| StoredInOrder(msg, gs, t, t2);
    ApartIsNotLate(msg, gs, c);
    RowAfter(t, t2, AllDatums(msg), Late(msg, gs), msg.timestamp, c, id);
    assert Rows(t2, c)[id] == t2[id];
    OnlyEntry(Rows(t2, c), id);
  }

  /** Items of a context that has a row not yet stamped with the time of the message are dropped exactly when an
      earlier group asked for the same rows as theirs. */
  lemma ItemsDroppedExactlyWhen(msg: Message, gs: seq<Doc>, t: Table, t2: Table, c: Doc, id: nat)
    requires WellFormed(msg.meta) && StoredInOrder(msg, gs, t, t2)
    requires Only(Rows(t, c), id) && DataFor(AllDatums(msg), c) != [] && t[id].updated != msg.timestamp
    ensures Rows(t2, c) == Rows(t, c) <==> exists j: nat :: LateGroup(msg.meta, gs, j) && gs[j] == GroupOf(msg, c)
  {
    DroppedExactlyWhen(t, t2, AllDatums(msg), Late(msg, gs), msg.timestamp, c, id);
    assert c in Late(msg, gs) <==> IsLate(msg, gs, c);
  }

  /** The map from contexts to data is updated by the items one after the other exactly when every context is
      kept. */
  lemma MessageUpdatesTheMapExactlyWhen(msg: Message, gs: seq<Doc>, t: Table, t2: Table)
    requires WellFormed(msg.meta) && OneRowEach(t) && StoredInOrder(msg, gs, t, t2)
    ensures (OneRowEach(t2) && Contents(t2) == Contents(t) + LastData(AllDatums(msg)))
            <==> forall c :: Kept(Contents(t), c, DataFor(AllDatums(msg), c), c in Late(msg, gs))
  {
    MapUpdatedExactlyWhen(t, t2, AllDatums(msg), Late(msg, gs), msg.timestamp);
  }

  /** No two items end up with the same context. */
  ghost predicate DistinctContexts(msg: Message)
    requires WellFormed(msg.meta)
  {
    forall i: nat, j: nat :: i < j < |msg.data| ==> DatumAt(msg, i).context != DatumAt(msg, j).context
  }

  lemma {:induction false} AtMostOne(ds: seq<Datum>, c: Doc)
    requires forall i, j :: 0 <= i < j < |ds| ==> ds[i].context != ds[j].context
    ensures |DataFor(ds, c)| <= 1
  {
    if |ds| > 0 {
      var before := ds[..|ds| - 1];
      AtMostOne(before, c);
      DataForSome(before, c);
    }
  }

  /** So it is in particular when the groups are apart and no context occurs twice. */
  lemma PlainMessageUpdatesTheMap(msg: Message, t: Table, next: nat, t2: Table, next2: nat)
    requires WellFormed(msg.meta) && Plain(msg.meta) && BaseContext(msg) != map[]
    requires GroupsApart(msg) && DistinctContexts(msg) && OneRowEach(t) && Stored(msg, t, next, t2, next2)
    ensures OneRowEach(t2) && Contents(t2) == Contents(t) + LastData(AllDatums(msg))
  {
    var gs :| StoredInOrder(msg, gs, t, t2);
    forall c: Doc ensures Kept(Contents(t), c, DataFor(AllDatums(msg), c), c in Late(msg, gs)) {
      ApartIsNotLate(msg, gs, c);
      forall i: nat, j: nat | i < j < |msg.data| ensures AllDatums(msg)[i].context != AllDatums(msg)[j].context {
        assert DatumAt(msg, i).context != DatumAt(msg, j).context;
      }
      AtMostOne(AllDatums(msg), c);
      var data := DataFor(AllDatums(msg), c);
      if c in Contents(t) && |data| == 1 {
        NoOther(data, Contents(t)[c]);
      }
    }
    MessageUpdatesTheMapExactlyWhen(msg, gs, t, t2);
  }

  /** Every row of the message whose items do not come too late is stamped with its time, and was created then just
      if it is new or has new data; other rows are what they were. */
  lemma MessageStampsRows(msg: Message, gs: seq<Doc>, t: Table, t2: Table, id: nat)
    requires WellFormed(msg.meta) && OneRowEach(t) && StoredInOrder(msg, gs, t, t2)
    ensures id in t2 && id !in t ==>
              && t2[id].created == t2[id].updated == msg.timestamp
              && t2[id].data in DataFor(AllDatums(msg), t2[id].context)
    ensures id in t ==> id in t2 && t2[id].context == t[id].context
    ensures id in t && (DataFor(AllDatums(msg), t[id].context) == [] || t[id].context in Late(msg, gs)) ==>
              t2[id] == t[id]
    ensures id in t && DataFor(AllDatums(msg), t[id].context) != [] && t[id].context !in Late(msg, gs) ==>
              && t2[id].updated == msg.timestamp
              && t2[id].created == if t2[id].data == t[id].data then t[id].created else msg.timestamp
  {
    RowsAreStamped(t, t2, AllDatums(msg), Late(msg, gs), msg.timestamp, id);
  }

  /** Of several rows of a context for which there are items, one that was created first is left as it was, and no
      other. */
  lemma OldestIsLeft(msg: Message, gs: seq<Doc>, t: Table, t2: Table, c: Doc, i: nat, j: nat, k: nat) returns (id: nat)
    requires WellFormed(msg.meta) && StoredInOrder(msg, gs, t, t2)
    requires i in t && j in t && i != j && t[i].context == c && t[j].context == c
    requires k < |msg.data| && DatumAt(msg, k).context == c
    ensures id in t && t[id].context == c && id in t2 && t2[id] == t[id]
    ensures forall o <- t :: t[o].context == c ==> t[id].created <= t[o].created
    ensures forall o <- t2 :: t2[o].context == c ==> o == id
  {
    var before, after, data := Rows(t, c), Rows(t2, c), DataFor(AllDatums(msg), c);
    TwoAreSeveral(before, i, j);
    HasData(AllDatums(msg), k);
    assert AllDatums(msg)[k] == DatumAt(msg, k);
    assert Outcome(before, after, c, data, c in Late(msg, gs), msg.timestamp);
    id :| Oldest(before, id) && OnlyRow(after, id, before[id]);
    assert id in after && t2[id] == after[id];
    forall o | o in t && t[o].context == c ensures t[id].created <= t[o].created {
      assert o in before;
    }
    forall o | o in t2 && t2[o].context == c ensures o == id {
      assert o in after;
    }
  }

  // ---------- Where storing goes wrong ----------

  /** A message at time 9 about ports of a switch; its data may name the slot and must name the port. */
  ghost function Ports(data: seq<Doc>): Message {
    Message(Meta("port", "status", ["port"], None, false, false, false), map["device" := "switch", "slot" := "1"],
            map[], data, 9)
  }

  ghost function Item(slot: string, port: string, state: string): Doc {
    map["slot" := slot, "port" := port, "state" := state]
  }

  ghost function Slot(slot: string): Doc {
    map["device" := "switch", "slot" := slot]
  }

  ghost function PortOf(slot: string, port: string): Doc {
    map["device" := "switch", "slot" := slot, "port" := port]
  }

  ghost function State(state: string): Doc {
    map["state" := state]
  }

  lemma PortMessage(data: seq<Doc>)
    ensures WellFormed(Ports(data).meta) && BaseContext(Ports(data)) == Slot("1")
    ensures KeyNames(Ports(data)) == {"device", "slot", "port"}
  {
    assert NameSet(["port"]) == {"port"};
    assert Ports(data).context + map[] == Slot("1");
  }

  lemma PortItem(data: seq<Doc>, slot: string, port: string, state: string)
    ensures WellFormed(Ports(data).meta)
    ensures Sorted(BaseContext(Ports(data)), KeyNames(Ports(data)), Item(slot, port, state))
         == Datum(PortOf(slot, port), State(state))
  {
    PortMessage(data);
    PortContext(slot, port, state);
    PortData(slot, port, state);
  }

  lemma PortContext(slot: string, port: string, state: string)
    ensures Slot("1") + Restrict(Item(slot, port, state), {"device", "slot", "port"}) == PortOf(slot, port)
  {
  }

  lemma PortData(slot: string, port: string, state: string)
    ensures Item(slot, port, state) - {"device", "slot", "port"} == State(state)
  {
  }

  lemma PortGroup(data: seq<Doc>, slot: string, port: string, state: string)
    ensures WellFormed(Ports(data).meta)
    ensures Sorted(BaseContext(Ports(data)), BaseContext(Ports(data)).Keys, Item(slot, port, state)).context
         == Slot(slot)
  {
    PortMessage(data);
    assert Slot("1").Keys == {"device", "slot"};
    assert Slot("1") + Restrict(Item(slot, port, state), {"device", "slot"}) == Slot(slot);
  }

  lemma TwoPorts(a: Doc, b: Doc, slot: string, port: string, state: string, slot2: string, port2: string,
                 state2: string)
    requires a == Item(slot, port, state) && b == Item(slot2, port2, state2)
    ensures WellFormed(Ports([a, b]).meta)
    ensures AllDatums(Ports([a, b]))
         == [Datum(PortOf(slot, port), State(state)), Datum(PortOf(slot2, port2), State(state2))]
  {
    PortItem([a, b], slot, port, state);
    PortItem([a, b], slot2, port2, state2);
  }

  lemma TwoGroups(a: Doc, b: Doc, slot: string, port: string, state: string, slot2: string, port2: string,
                  state2: string)
    requires a == Item(slot, port, state) && b == Item(slot2, port2, state2)
    ensures WellFormed(Ports([a, b]).meta) && BaseContext(Ports([a, b])) != map[]
    ensures forall g :: IsGroup(Ports([a, b]), g) <==> g == Slot(slot) || g == Slot(slot2)
  {
    var msg := Ports([a, b]);
    PortMessage([a, b]);
    assert "device" in BaseContext(msg);
    PortGroup([a, b], slot, port, state);
    PortGroup([a, b], slot2, port2, state2);
    assert GroupContext(msg, 0) == Slot(slot) && GroupContext(msg, 1) == Slot(slot2);
  }

  lemma DataOfTwo(d: Datum, e: Datum, c: Doc)
    ensures var rest := if e.context == c then [e.data] else [];
            DataFor([d, e], c) == if d.context == c then [d.data] + rest else rest
  {
    assert [d, e] == ([] + [Datum(d.context, d.data)]) + [Datum(e.context, e.data)];
    DataWithOneMore([], d.context, d.data, c);
    DataWithOneMore([] + [Datum(d.context, d.data)], e.context, e.data, c);
  }

  /** A port that is new and listed twice gets two rows. */
  lemma NewPortListedTwice(next: nat, t2: Table, next2: nat)
    requires WellFormed(Ports([]).meta)
    requires Stored(Ports([Item("1", "a", "up"), Item("1", "a", "up")]), map[], next, t2, next2)
    ensures !OneRowEach(t2)
  {
    var msg := Ports([Item("1", "a", "up"), Item("1", "a", "up")]);
    TwoPorts(msg.data[0], msg.data[1], "1", "a", "up", "1", "a", "up");
    TwoGroups(msg.data[0], msg.data[1], "1", "a", "up", "1", "a", "up");
    DataOfTwo(AllDatums(msg)[0], AllDatums(msg)[1], PortOf("1", "a"));
    StillOneRowEachExactlyWhen(msg, map[], next, t2, next2);
  }

  /** A port that is stored as up and listed as down and then as up ends as down. */
  lemma PortListedBackAgain(t: Table, next: nat, t2: Table, next2: nat)
    requires WellFormed(Ports([]).meta) && t == map[0 := Row(0, 0, PortOf("1", "a"), State("up"))]
    requires Stored(Ports([Item("1", "a", "down"), Item("1", "a", "up")]), t, next, t2, next2)
    ensures OnlyRow(Rows(t2, PortOf("1", "a")), 0, Row(9, 9, PortOf("1", "a"), State("down")))
  {
    var msg, c := Ports([Item("1", "a", "down"), Item("1", "a", "up")]), PortOf("1", "a");
    BackAgain(msg, c);
    assert Only(Rows(t, c), 0);
    RowEndsWithLastOther(msg, t, next, t2, next2, c, 0);
    EndsDown(c, DataFor(AllDatums(msg), c));
  }

  lemma BackAgain(msg: Message, c: Doc)
    requires msg == Ports([Item("1", "a", "down"), Item("1", "a", "up")]) && c == PortOf("1", "a")
    ensures WellFormed(msg.meta) && BaseContext(msg) != map[] && GroupsApart(msg)
    ensures DataFor(AllDatums(msg), c) == [State("down")] + [State("up")]
  {
    TwoPorts(msg.data[0], msg.data[1], "1", "a", "down", "1", "a", "up");
    TwoGroups(msg.data[0], msg.data[1], "1", "a", "down", "1", "a", "up");
    DataOfTwo(AllDatums(msg)[0], AllDatums(msg)[1], c);
    OneGroupIsApart(msg, Slot("1"));
  }

  lemma OneGroupIsApart(msg: Message, g: Doc)
    requires WellFormed(msg.meta) && forall x :: IsGroup(msg, x) ==> x == g
    ensures GroupsApart(msg)
  {
  }

  lemma EndsDown(c: Doc, data: seq<Doc>)
    requires data == [State("down")] + [State("up")]
    ensures Final(Row(0, 0, c, State("up")), c, data, 9) == Row(9, 9, c, State("down"))
  {
    OneMoreOther([State("down")], State("up"), State("up"));
    assert [State("down")] == [] + [State("down")];
    OneMoreOther([], State("up"), State("down"));
    assert State("down")["state"] != State("up")["state"];
  }

  // ---------- Two groups of one device ----------

  ghost predicate GroupIsLate(meta: Meta, gs: seq<Doc>, g: Doc) {
    exists j: nat :: LateGroup(meta, gs, j) && gs[j] == g
  }

  lemma OneOfTwoIsLate(msg: Message, gs: seq<Doc>, g: Doc, h: Doc)
    requires WellFormed(msg.meta) && GroupOrder(msg, gs) && g != h && Lookup(msg.meta, g) == Lookup(msg.meta, h)
    requires forall x :: IsGroup(msg, x) <==> x == g || x == h
    ensures GroupIsLate(msg.meta, gs, g) <==> !GroupIsLate(msg.meta, gs, h)
  {
    assert g in gs && h in gs;
    var i: nat, j: nat :| i < |gs| && j < |gs| && gs[i] == g && gs[j] == h;
    var k := OneGroupInTime(msg.meta, gs, i);
    assert gs[k] in gs && IsGroup(msg, gs[k]);
    LateAt(msg.meta, gs, i);
    LateAt(msg.meta, gs, j);
  }

  lemma LateAt(meta: Meta, gs: seq<Doc>, j: nat)
    requires NoneTwice(gs) && j < |gs|
    ensures GroupIsLate(meta, gs, gs[j]) <==> LateGroup(meta, gs, j)
  {
  }

  /** There are items for the only row of the context, which has not been stamped yet. */
  ghost predicate IsOld(msg: Message, t: Table, c: Doc, id: nat)
    requires WellFormed(msg.meta)
  {
    Only(Rows(t, c), id) && id in t && t[id].updated != msg.timestamp && DataFor(AllDatums(msg), c) != []
  }

  lemma DroppedWithGroup(msg: Message, gs: seq<Doc>, t: Table, t2: Table, c: Doc, g: Doc, id: nat)
    requires WellFormed(msg.meta) && StoredInOrder(msg, gs, t, t2) && IsOld(msg, t, c, id) && GroupOf(msg, c) == g
    ensures Rows(t2, c) == Rows(t, c) <==> GroupIsLate(msg.meta, gs, g)
  {
    ItemsDroppedExactlyWhen(msg, gs, t, t2, c, id);
  }

  /** When a message has two groups that ask for the same rows, of two old rows that they are about one gets its
      items and the other does not. */
  lemma OneOfTwoIsDropped(msg: Message, gs: seq<Doc>, t: Table, t2: Table, c: Doc, d: Doc, i: nat, j: nat)
    requires WellFormed(msg.meta) && StoredInOrder(msg, gs, t, t2)
    requires GroupOf(msg, c) != GroupOf(msg, d)
    requires Lookup(msg.meta, GroupOf(msg, c)) == Lookup(msg.meta, GroupOf(msg, d))
    requires forall x :: IsGroup(msg, x) <==> x == GroupOf(msg, c) || x == GroupOf(msg, d)
    requires IsOld(msg, t, c, i) && IsOld(msg, t, d, j)
    ensures Rows(t2, c) == Rows(t, c) <==> Rows(t2, d) != Rows(t, d)
  {
    DroppedWithGroup(msg, gs, t, t2, c, GroupOf(msg, c), i);
    DroppedWithGroup(msg, gs, t, t2, d, GroupOf(msg, d), j);
    OneOfTwoIsLate(msg, gs, GroupOf(msg, c), GroupOf(msg, d));
  }

  /** So one of two ports in different slots keeps its old state. */
  lemma OneSlotIsLost(t: Table, next: nat, t2: Table, next2: nat)
    requires WellFormed(Ports([]).meta)
    requires t == map[0 := Row(0, 0, PortOf("1", "a"), State("up")), 1 := Row(0, 0, PortOf("2", "a"), State("up"))]
    requires Stored(Ports([Item("1", "a", "down"), Item("2", "a", "down")]), t, next, t2, next2)
    ensures Rows(t2, PortOf("1", "a")) == Rows(t, PortOf("1", "a")) <==>
              Rows(t2, PortOf("2", "a")) != Rows(t, PortOf("2", "a"))
  {
    var msg := Ports([Item("1", "a", "down"), Item("2", "a", "down")]);
    SlotRows(msg, t);
    SlotGroups(msg);
    var gs :| StoredInOrder(msg, gs, t, t2);
    OneOfTwoIsDropped(msg, gs, t, t2, PortOf("1", "a"), PortOf("2", "a"), 0, 1);
  }

  lemma SlotRows(msg: Message, t: Table)
    requires msg == Ports([Item("1", "a", "down"), Item("2", "a", "down")])
    requires t == map[0 := Row(0, 0, PortOf("1", "a"), State("up")), 1 := Row(0, 0, PortOf("2", "a"), State("up"))]
    ensures WellFormed(msg.meta) && IsOld(msg, t, PortOf("1", "a"), 0) && IsOld(msg, t, PortOf("2", "a"), 1)
  {
    TwoPorts(msg.data[0], msg.data[1], "1", "a", "down", "2", "a", "down");
    PortsDiffer();
    OldRows(msg, t, PortOf("1", "a"), PortOf("2", "a"), State("up"));
  }

  lemma OldRows(msg: Message, t: Table, c: Doc, d: Doc, was: Doc)
    requires WellFormed(msg.meta) && msg.timestamp == 9 && |msg.data| == 2
    requires AllDatums(msg)[0].context == c && AllDatums(msg)[1].context == d && c != d
    requires t == map[0 := Row(0, 0, c, was), 1 := Row(0, 0, d, was)]
    ensures IsOld(msg, t, c, 0) && IsOld(msg, t, d, 1)
  {
    OldRow(msg, t, c, 0);
    OldRow(msg, t, d, 1);
  }

  lemma PortsDiffer()
    ensures PortOf("1", "a") != PortOf("2", "a")
  {
    assert PortOf("1", "a")["slot"] != PortOf("2", "a")["slot"];
  }

  lemma SlotGroups(msg: Message)
    requires msg == Ports([Item("1", "a", "down"), Item("2", "a", "down")])
    ensures WellFormed(msg.meta) && BaseContext(msg) != map[]
    ensures var g, h := GroupOf(msg, PortOf("1", "a")), GroupOf(msg, PortOf("2", "a"));
            && g != h && Lookup(msg.meta, g) == Lookup(msg.meta, h)
            && forall x :: IsGroup(msg, x) <==> x == g || x == h
  {
    TwoGroups(msg.data[0], msg.data[1], "1", "a", "down", "2", "a", "down");
    SlotOfPort(msg.data, "1");
    SlotOfPort(msg.data, "2");
    SlotsDiffer();
  }

  lemma SlotsDiffer()
    ensures Slot("1") != Slot("2")
    ensures Slot("1")["device"] == Slot("2")["device"]
  {
    assert Slot("1")["slot"] != Slot("2")["slot"];
  }

  lemma SlotOfPort(data: seq<Doc>, slot: string)
    ensures WellFormed(Ports(data).meta) && GroupOf(Ports(data), PortOf(slot, "a")) == Slot(slot)
  {
    PortMessage(data);
    assert Slot("1").Keys == {"device", "slot"};
  }

  lemma OldRow(msg: Message, t: Table, c: Doc, id: nat)
    requires WellFormed(msg.meta) && id < |msg.data| && AllDatums(msg)[id].context == c
    requires id in t && t[id].context == c && t[id].updated != msg.timestamp
    requires forall i <- t :: i != id ==> t[i].context != c
    ensures IsOld(msg, t, c, id)
  {
    HasData(AllDatums(msg), id);
  }
}
