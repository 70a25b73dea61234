/**
 The name a metric is stored under (lib/ptolemy/storage/feeders/carbon.py:27-40): the device backwards, the
 spec and group, and the other context values in the order of their keys.
 */
module CarbonKeys {
  import opened Basics
  import opened Texts
  import opened Feeder

  // ---------- sorted() ----------

  /** The order of texts: character by character, a beginning before the whole. */
  predicate Before(a: string, b: string) {
    b != "" && (a == "" || a[0] < b[0] || (a[0] == b[0] && Before(a[1..], b[1..])))
  }

  lemma {:induction false} BeforeIsTotal(a: string, b: string)
    ensures Before(a, b) || Before(b, a) || a == b
    ensures !(Before(a, b) && Before(b, a))
  {
    if a != "" && b != "" {
      BeforeIsTotal(a[1..], b[1..]);
      assert a == [a[0]] + a[1..] && b == [b[0]] + b[1..];
    }
  }

  lemma {:induction false} BeforeIsTransitive(a: string, b: string, c: string)
    requires Before(a, b) && Before(b, c)
    ensures Before(a, c)
  {
    if a != "" && a[0] == b[0] && b[0] == c[0] {
      BeforeIsTransitive(a[1..], b[1..], c[1..]);
    }
  }

  predicate Least(keys: set<string>, k: string) {
    k in keys && forall o <- keys :: o == k || Before(k, o)
  }

  lemma {:induction false} LeastExists(keys: set<string>)
    requires keys != {}
    ensures exists k :: Least(keys, k)
    decreases keys
  {
    var x :| x in keys;
    if keys - {x} == {} {
      assert keys == {x};
      assert Least(keys, x);
    } else {
      LeastExists(keys - {x});
      var k :| Least(keys - {x}, k);
      BeforeIsTotal(k, x);
      if Before(x, k) {
        forall o | o in keys && o != x && o != k ensures Before(x, o) {
          BeforeIsTransitive(x, k, o);
        }
        assert Least(keys, x);
      } else {
        assert Least(keys, k);
      }
    }
  }

  lemma LeastIsUnique(keys: set<string>)
    ensures forall a, b :: Least(keys, a) && Least(keys, b) ==> a == b
  {
    forall a, b | Least(keys, a) && Least(keys, b) ensures a == b {
      BeforeIsTotal(a, b);
    }
  }

  ghost predicate Ascending(s: seq<string>) {
    forall i, j :: 0 <= i < j < |s| ==> Before(s[i], s[j])
  }

  /** sorted(keys) */
  function SortedNames(keys: set<string>): (s: seq<string>)
    ensures NameSet(s) == keys && Ascending(s)
    decreases keys
  {
    if keys == {} then []
    else
      LeastExists(keys);
      LeastIsUnique(keys);
      var k :| Least(keys, k);
      var rest := SortedNames(keys - {k});
      assert NameSet([k] + rest) == {k} + NameSet(rest);
      assert forall n <- rest :: n in NameSet(rest);
      [k] + rest
  }

  // ---------- get_carbon_key ----------

  function Backwards(parts: seq<string>): (r: seq<string>)
    ensures |r| == |parts| && forall i :: 0 <= i < |r| ==> r[i] == parts[|parts| - 1 - i]
  {
    if |parts| == 0 then [] else Backwards(parts[1..]) + [parts[0]]
  }

  function Values(context: Doc, keys: seq<string>): (r: seq<string>)
    requires forall k <- keys :: k in context
  {
    seq(|keys|, i requires 0 <= i < |keys| => context[keys[i]])
  }

  function Dotted(text: string): (r: string)
    ensures |r| == |text| && forall i :: 0 <= i < |r| ==> r[i] == if text[i] == '/' then '.' else text[i]
  {
    seq(|text|, i requires 0 <= i < |text| => if text[i] == '/' then '.' else text[i])
  }

  /** A key is given with the data, or else the context must say which device it is about. */
  predicate HasKey(meta: Meta, context: Doc) {
    meta.carbonKey.Some? || "device" in context
  }

  /** get_carbon_key */
  function CarbonKey(meta: Meta, context: Doc, prepend: string): string
    requires HasKey(meta, context)
  {
    if meta.carbonKey.Some? then meta.carbonKey.value
    else
      var device := Join(Backwards(Split(context["device"], '.')), '.');
      var names := SortedNames(context.Keys - {"device"});
      assert forall n <- names :: n in NameSet(names);
      Dotted(prepend + device + "." + meta.spec + "." + meta.group + "." + Join(Values(context, names), '.'))
  }

  // ---------- What a key says ----------

  /** The first text is the smaller one from here on, and up to here the two are the same. */
  predicate SmallerAt(a: string, b: string, n: nat) {
    n <= |a| && n < |b| && a[..n] == b[..n] && (n < |a| ==> a[n] < b[n])
  }

  /** One text comes before another when it is its beginning, or is smaller where the two first differ. */
  lemma {:induction false} BeforeExactlyWhen(a: string, b: string)
    ensures Before(a, b) <==> exists n: nat :: SmallerAt(a, b, n)
  {
    if Before(a, b) {
      if a == "" || a[0] < b[0] {
        assert SmallerAt(a, b, 0);
      } else {
        BeforeExactlyWhen(a[1..], b[1..]);
        var m: nat :| SmallerAt(a[1..], b[1..], m);
        assert a[..m + 1] == [a[0]] + a[1..][..m] && b[..m + 1] == [b[0]] + b[1..][..m];
        assert SmallerAt(a, b, m + 1);
      }
    }
    forall n: nat | SmallerAt(a, b, n) ensures Before(a, b) {
      if n > 0 {
        assert a[0] == a[..n][0] && b[0] == b[..n][0];
        assert a[1..][..n - 1] == a[..n][1..] && b[1..][..n - 1] == b[..n][1..];
        assert SmallerAt(a[1..], b[1..], n - 1);
        BeforeExactlyWhen(a[1..], b[1..]);
      }
    }
  }

  lemma {:induction false} AscendingIsUnique(a: seq<string>, b: seq<string>)
    requires Ascending(a) && Ascending(b) && NameSet(a) == NameSet(b)
    ensures a == b
  {
    if a != [] {
      assert a[0] in NameSet(b);
    }
    if b != [] {
      assert b[0] in NameSet(a);
    }
    if a != [] && b != [] {
      var i :| 0 <= i < |b| && b[i] == a[0];
      var j :| 0 <= j < |a| && a[j] == b[0];
      BeforeIsTotal(a[0], b[0]);
      assert a[0] == b[0];
      HeadIsApart(a);
      HeadIsApart(b);
      AscendingIsUnique(a[1..], b[1..]);
    }
  }

  lemma HeadIsApart(a: seq<string>)
    requires a != [] && Ascending(a)
    ensures Ascending(a[1..]) && NameSet(a[1..]) == NameSet(a) - {a[0]}
  {
    BeforeIsTotal(a[0], a[0]);
    forall n ensures n in NameSet(a[1..]) <==> n in NameSet(a) && n != a[0] {
      if n in NameSet(a) && n != a[0] {
        var i :| 0 <= i < |a| && a[i] == n;
        assert a[1..][i - 1] == n;
      }
    }
  }

  /** No separator of the key is in the text. */
  predicate Clean(text: string) {
    '.' !in text && '/' !in text
  }

  lemma {:induction false} JoinAppends(a: seq<string>, b: seq<string>, sep: char)
    requires a != [] && b != []
    ensures Join(a + b, sep) == Join(a, sep) + [sep] + Join(b, sep)
  {
    if |a| == 1 {
      assert (a + b)[1..] == b;
    } else {
      assert (a + b)[1..] == a[1..] + b;
      JoinAppends(a[1..], b, sep);
    }
  }

  lemma {:induction false} CharInJoin(parts: seq<string>, sep: char, c: char)
    requires c != sep
    ensures c in Join(parts, sep) <==> exists p <- parts :: c in p
  {
    if |parts| > 0 {
      assert parts == [parts[0]] + parts[1..];
      CharInJoin(parts[1..], sep, c);
      assert |parts| > 1 ==> (c in Join(parts, sep) <==> c in parts[0] || c in Join(parts[1..], sep));
    }
  }

  lemma CleanIsKept(parts: seq<string>)
    requires forall p <- parts :: Clean(p)
    ensures Dotted(Join(parts, '.')) == Join(parts, '.')
  {
    CharInJoin(parts, '.', '/');
  }

  /** What the parts of a key are to be: the first word, the labels of the device backwards, spec and group, and
      the other values in the order of their names; without any there is one empty part. */
  ghost predicate PartsOf(meta: Meta, context: Doc, first: string, parts: seq<string>) {
    && "device" in context
    && var labels := Split(context["device"], '.');
    && var n := |labels|;
    && |parts| >= n + 4
    && parts[0] == first
    && (forall i :: 0 < i <= n ==> parts[i] == labels[n - i])
    && parts[n + 1] == meta.spec && parts[n + 2] == meta.group
    && ValuesInOrder(context, parts[n + 3..])
  }

  ghost predicate ValuesInOrder(context: Doc, values: seq<string>) {
    exists names: seq<string> :: ValuesAre(context, names, values)
  }

  ghost predicate ValuesAre(context: Doc, names: seq<string>, values: seq<string>) {
    && Ascending(names) && NameSet(names) == context.Keys - {"device"}
    && (if names == [] then values == [""]
        else
          && |values| == |names|
          && forall i :: 0 <= i < |names| ==> names[i] in context && values[i] == context[names[i]])
  }

  /** All that goes into a key is free of separators, but for the dots in the name of the device. */
  predicate CleanContext(meta: Meta, context: Doc) {
    && "device" in context && '/' !in context["device"]
    && Clean(meta.spec) && Clean(meta.group)
    && forall k <- context :: k == "device" || Clean(context[k])
  }

  lemma JoinParts(first: string, back: seq<string>, spec: string, group: string, values: seq<string>)
    requires back != [] && values != []
    ensures Join([first] + (back + ([spec, group] + values)), '.')
         == first + "." + Join(back, '.') + "." + spec + "." + group + "." + Join(values, '.')
  {
    var middle := [spec, group];
    JoinAppends(middle, values, '.');
    assert middle[1..] == [group];
    assert Join(middle, '.') == spec + ['.'] + group;
    JoinAppends(back, middle + values, '.');
    JoinAppends([first], back + (middle + values), '.');
  }

  /** The parts of a key, listed. */
  function KeyParts(meta: Meta, context: Doc, first: string, values: seq<string>): seq<string>
    requires "device" in context
  {
    [first] + (Backwards(Split(context["device"], '.')) + ([meta.spec, meta.group] + values))
  }

  lemma ListedParts(meta: Meta, context: Doc, first: string, values: seq<string>)
    requires CleanContext(meta, context) && Clean(first) && ValuesInOrder(context, values)
    ensures PartsOf(meta, context, first, KeyParts(meta, context, first, values))
    ensures forall p <- KeyParts(meta, context, first, values) :: Clean(p)
  {
    var labels, parts := Split(context["device"], '.'), KeyParts(meta, context, first, values);
    assert parts[|labels| + 3..] == values;
    LabelsAreClean(context["device"]);
    ValuesAreClean(meta, context, values);
  }

  lemma ValuesAreClean(meta: Meta, context: Doc, values: seq<string>)
    requires CleanContext(meta, context) && ValuesInOrder(context, values)
    ensures forall p <- values :: Clean(p)
  {
    var names :| ValuesAre(context, names, values);
    forall i | 0 <= i < |values| ensures Clean(values[i]) {
      assert names != [] ==> names[i] in NameSet(names);
    }
  }

  /** The key is these parts with dots between them. */
  lemma KeyIsJoined(meta: Meta, context: Doc, first: string) returns (parts: seq<string>)
    requires meta.carbonKey.None? && CleanContext(meta, context) && Clean(first)
    ensures PartsOf(meta, context, first, parts) && forall p <- parts :: Clean(p)
    ensures CarbonKey(meta, context, first + ".") == Join(parts, '.')
  {
    var names := SortedNames(context.Keys - {"device"});
    assert forall n <- names :: n in NameSet(names);
    var values := if names == [] then [""] else Values(context, names);
    assert ValuesAre(context, names, values);
    assert Join(Values(context, names), '.') == Join(values, '.');
    JoinParts(first, Backwards(Split(context["device"], '.')), meta.spec, meta.group, values);
    parts := KeyParts(meta, context, first, values);
    ListedParts(meta, context, first, values);
    CleanIsKept(parts);
  }

  lemma LabelsAreClean(device: string)
    requires '/' !in device
    ensures forall p <- Split(device, '.') :: Clean(p)
  {
    JoinUndoesSplit(device, '.');
    CharInJoin(Split(device, '.'), '.', '/');
  }

  /** Splitting a key without separators in its parts gives just these parts. */
  lemma KeySplits(meta: Meta, context: Doc, first: string)
    requires meta.carbonKey.None? && CleanContext(meta, context) && Clean(first)
    ensures PartsOf(meta, context, first, Split(CarbonKey(meta, context, first + "."), '.'))
  {
    var parts := KeyIsJoined(meta, context, first);
    SplitUndoesJoin(parts, '.');
  }

  /** A key that is given with the data is used as it is. */
  lemma GivenKeyIsUsed(meta: Meta, context: Doc, prepend: string)
    requires meta.carbonKey.Some?
    ensures CarbonKey(meta, context, prepend) == meta.carbonKey.value
  {
  }

  lemma PartsTellLengths(meta: Meta, c: Doc, d: Doc, first: string, parts: seq<string>)
    requires PartsOf(meta, c, first, parts) && PartsOf(meta, d, first, parts) && c.Keys == d.Keys
    ensures |Split(c["device"], '.')| == |Split(d["device"], '.')|
  {
    var m, n := |Split(c["device"], '.')|, |Split(d["device"], '.')|;
    var a :| ValuesAre(c, a, parts[m + 3..]);
    var b :| ValuesAre(d, b, parts[n + 3..]);
    AscendingIsUnique(a, b);
  }

  lemma ValuesTell(c: Doc, d: Doc, values: seq<string>)
    requires ValuesInOrder(c, values) && ValuesInOrder(d, values) && c.Keys == d.Keys
    ensures forall k <- c :: k == "device" || c[k] == d[k]
  {
    var a :| ValuesAre(c, a, values);
    var b :| ValuesAre(d, b, values);
    AscendingIsUnique(a, b);
    forall k | k in c && k != "device" ensures c[k] == d[k] {
      assert k in NameSet(a);
      var i :| 0 <= i < |a| && a[i] == k;
    }
  }

  lemma LabelsTell(parts: seq<string>, x: seq<string>, y: seq<string>)
    requires |x| == |y| < |parts|
    requires forall i :: 0 < i <= |x| ==> parts[i] == x[|x| - i]
    requires forall i :: 0 < i <= |y| ==> parts[i] == y[|y| - i]
    ensures x == y
  {
    forall i | 0 <= i < |x| ensures x[i] == y[i] {
      assert parts[|x| - i] == x[i];
    }
  }

  /** The parts tell the contexts of the same keys apart. */
  lemma PartsTellContexts(meta: Meta, c: Doc, d: Doc, first: string, parts: seq<string>)
    requires PartsOf(meta, c, first, parts) && PartsOf(meta, d, first, parts) && c.Keys == d.Keys
    ensures c == d
  {
    var x, y := Split(c["device"], '.'), Split(d["device"], '.');
    PartsTellLengths(meta, c, d, first, parts);
    ValuesTell(c, d, parts[|x| + 3..]);
    LabelsTell(parts, x, y);
    JoinUndoesSplit(c["device"], '.');
    JoinUndoesSplit(d["device"], '.');
  }

  /** Two contexts of the same keys have the same key just when they are the same, as long as no value holds a
      separator. */
  lemma SameKeyExactlyWhen(meta: Meta, c: Doc, d: Doc, first: string)
    requires meta.carbonKey.None? && CleanContext(meta, c) && CleanContext(meta, d) && Clean(first)
    requires c.Keys == d.Keys
    ensures CarbonKey(meta, c, first + ".") == CarbonKey(meta, d, first + ".") <==> c == d
  {
    KeySplits(meta, c, first);
    KeySplits(meta, d, first);
    if CarbonKey(meta, c, first + ".") == CarbonKey(meta, d, first + ".") {
      PartsTellContexts(meta, c, d, first, Split(CarbonKey(meta, c, first + "."), '.'));
    }
  }

  function PortContext(port: string): Doc {
    map["device" := "a.b", "port" := port]
  }

  lemma DottedAppends(a: string, b: string)
    ensures Dotted(a + b) == Dotted(a) + Dotted(b)
  {
  }

  lemma CleanIsDotted(text: string)
    requires '/' !in text
    ensures Dotted(text) == text
  {
  }

  lemma PortKeyIsJoined(meta: Meta, port: string)
    requires meta.carbonKey.None?
    ensures CarbonKey(meta, PortContext(port), "ptolemy.")
         == Dotted("ptolemy." + "b.a" + "." + meta.spec + "." + meta.group + "." + port)
  {
    var c := PortContext(port);
    var labels := ["a", "b"];
    assert labels[1..] == ["b"];
    assert Join(labels, '.') == "a.b";
    SplitUndoesJoin(labels, '.');
    assert Backwards(labels) == ["b", "a"];
    assert ["b", "a"][1..] == ["a"];
    assert Join(["b", "a"], '.') == "b.a";
    assert c.Keys - {"device"} == {"port"} == NameSet(["port"]);
    AscendingIsUnique(SortedNames({"port"}), ["port"]);
    assert Values(c, ["port"]) == [port];
  }

  lemma PortKeySpelled(meta: Meta, port: string)
    requires meta.carbonKey.None? && meta.spec == "snmp" && meta.group == "if"
    ensures CarbonKey(meta, PortContext(port), "ptolemy.") == "ptolemy.b.a.snmp.if." + Dotted(port)
  {
    PortKeyIsJoined(meta, port);
    var start := "ptolemy." + "b.a" + "." + meta.spec + "." + meta.group + ".";
    DottedAppends(start, port);
    assert start == "ptolemy.b.a.snmp.if.";
    CleanIsDotted(start);
  }

  /** The key of a port, in full: two ports have the same key just when they differ in nothing but slashes
      for dots. */
  lemma PortKeys(meta: Meta, p: string, q: string)
    requires meta.carbonKey.None? && meta.spec == "snmp" && meta.group == "if"
    ensures '/' !in p ==> CarbonKey(meta, PortContext(p), "ptolemy.") == "ptolemy.b.a.snmp.if." + p
    ensures CarbonKey(meta, PortContext(p), "ptolemy.") == CarbonKey(meta, PortContext(q), "ptolemy.")
            <==> |p| == |q| && forall i :: 0 <= i < |p| ==> p[i] == q[i] || (p[i] in "/." && q[i] in "/.")
  {
    PortKeySpelled(meta, p);
    PortKeySpelled(meta, q);
    if '/' !in p {
      CleanIsDotted(p);
    }
    SameEnding("ptolemy.b.a.snmp.if.", Dotted(p), Dotted(q));
    SameDotted(p, q);
  }

  lemma SameDotted(p: string, q: string)
    ensures Dotted(p) == Dotted(q)
            <==> |p| == |q| && forall i :: 0 <= i < |p| ==> p[i] == q[i] || (p[i] in "/." && q[i] in "/.")
  {
    if Dotted(p) == Dotted(q) {
      forall i | 0 <= i < |p| ensures p[i] == q[i] || (p[i] in "/." && q[i] in "/.") {
        assert Dotted(p)[i] == Dotted(q)[i];
      }
    }
  }

  lemma SameEnding(start: string, a: string, b: string)
    ensures start + a == start + b <==> a == b
  {
    assert (start + a)[|start|..] == a && (start + b)[|start|..] == b;
  }
}
