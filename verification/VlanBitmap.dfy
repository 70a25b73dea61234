/**
 VLAN lists packed into bitmaps (lib/ptolemy/poller/driver.py:159-215): decoding one map of a port, and
 merging the four maps that together cover all VLANs of a trunk.
 */
module VlanBitmap {
  import opened Basics

  type byte = b: int | 0 <= b < 256

  type digit = d: int | 0 <= d < 16

  const HEXTAB: seq<string> :=
    ["0000", "0001", "0010", "0011", "0100", "0101", "0110", "0111",
     "1000", "1001", "1010", "1011", "1100", "1101", "1110", "1111"]

  const IGNORED: set<int> := {1001, 1002, 1003, 1004}

  // ---------- Bits ----------

  /** 2 to the power of 7 - k */
  function Weight(k: int): int
    requires 0 <= k < 8
  {
    [128, 64, 32, 16, 8, 4, 2, 1][k]
  }

  /** Bit `n` of the map, the most significant bit of the first byte being bit 0. */
  predicate BitSet(bytes: seq<byte>, n: int) {
    0 <= n < 8 * |bytes| && bytes[n / 8] / Weight(n % 8) % 2 == 1
  }

  function Bit(b: byte, k: int): int {
    if BitSet([b], k) then 1 else 0
  }

  /** A byte is the sum of its bits, the first of which counts most. */
  lemma ByteIsItsBits(b: byte)
    ensures b == 128 * Bit(b, 0) + 64 * Bit(b, 1) + 32 * Bit(b, 2) + 16 * Bit(b, 3)
                 + 8 * Bit(b, 4) + 4 * Bit(b, 5) + 2 * Bit(b, 6) + Bit(b, 7)
  {
    assert b == 2 * (b / 2) + Bit(b, 7);
    Halved(b, 2, Bit(b, 6));
    Halved(b, 4, Bit(b, 5));
    Halved(b, 8, Bit(b, 4));
    Halved(b, 16, Bit(b, 3));
    Halved(b, 32, Bit(b, 2));
    Halved(b, 64, Bit(b, 1));
    Halved(b, 128, Bit(b, 0));
  }

  lemma Halved(b: byte, w: int, bit: int)
    requires w in {2, 4, 8, 16, 32, 64, 128} && bit == b / w % 2
    ensures b / w == 2 * (b / (2 * w)) + bit
  {
    assert b / (2 * w) == b / w / 2;
  }

  /** The bits of a map are those of its bytes one after the other. */
  lemma BitOfByte(bytes: seq<byte>, i: int, k: int)
    requires 0 <= i < |bytes| && 0 <= k < 8
    ensures BitSet(bytes, 8 * i + k) <==> BitSet([bytes[i]], k)
  {
    assert (8 * i + k) / 8 == i && (8 * i + k) % 8 == k;
  }

  /** The hexadecimal digits of the map. */
  function Digits(bytes: seq<byte>): (d: seq<digit>)
    ensures |d| == 2 * |bytes|
    ensures forall i | 0 <= i < |d| :: d[i] == if i % 2 == 0 then bytes[i / 2] / 16 else bytes[i / 2] % 16
  {
    seq(2 * |bytes|, i requires 0 <= i < 2 * |bytes| => if i % 2 == 0 then bytes[i / 2] / 16 else bytes[i / 2] % 16)
  }

  lemma TableHoldsBits(x: digit, j: int)
    requires 0 <= j < 4
    ensures |HEXTAB[x]| == 4
    ensures HEXTAB[x][j] == '1' <==> x / Weight(4 + j) % 2 == 1
  {
    assert x in {0, 1, 2, 3, 4, 5, 6, 7, 8, 9, 10, 11, 12, 13, 14, 15};
  }

  lemma HighHalf(b: byte, k: int)
    requires 0 <= k < 4
    ensures b / Weight(k) == b / 16 / Weight(4 + k)
  {
    if k == 0 {
      assert b / 128 == b / 16 / 8;
    } else if k == 1 {
      assert b / 64 == b / 16 / 4;
    } else if k == 2 {
      assert b / 32 == b / 16 / 2;
    }
  }

  lemma LowEight(h: nat, l: nat)
    ensures (16 * h + l) / 8 % 2 == l / 8 % 2
  {
    assert (16 * h + l) / 8 == 2 * h + l / 8;
    EvenPart(h, l / 8);
  }

  lemma LowFour(h: nat, l: nat)
    ensures (16 * h + l) / 4 % 2 == l / 4 % 2
  {
    assert (16 * h + l) / 4 == 4 * h + l / 4;
    EvenPart(2 * h, l / 4);
  }

  lemma LowTwo(h: nat, l: nat)
    ensures (16 * h + l) / 2 % 2 == l / 2 % 2
  {
    assert (16 * h + l) / 2 == 8 * h + l / 2;
    EvenPart(4 * h, l / 2);
  }

  lemma EvenPart(a: nat, b: nat)
    ensures (2 * a + b) % 2 == b % 2
  {
  }

  lemma LowHalf(b: byte, w: int)
    requires w in {1, 2, 4, 8}
    ensures b / w % 2 == b % 16 / w % 2
  {
    LowEight(b / 16, b % 16);
    LowFour(b / 16, b % 16);
    LowTwo(b / 16, b % 16);
  }

  /** Bit `n` is bit `n % 4` of hexadecimal digit `n / 4`. */
  lemma BitOfDigit(bytes: seq<byte>, n: int)
    requires 0 <= n < 8 * |bytes|
    ensures |HEXTAB[Digits(bytes)[n / 4]]| == 4
    ensures HEXTAB[Digits(bytes)[n / 4]][n % 4] == '1' <==> BitSet(bytes, n)
  {
    TableHoldsBits(Digits(bytes)[n / 4], n % 4);
    if n % 8 < 4 {
      HighHalf(bytes[n / 8], n % 8);
    } else {
      LowHalf(bytes[n / 8], Weight(n % 8));
    }
    assert n % 8 % 4 == n % 4 && n / 4 / 2 == n / 8;
    assert n / 4 % 2 == if n % 8 < 4 then 0 else 1;
  }

  // ---------- Decoding one map ----------

  /** A run of 24 `f` digits, which stands for "no restriction". */
  predicate HasFullRun(d: seq<digit>) {
    exists i | 0 <= i <= |d| - 24 :: FullRunAt(d, i)
  }

  predicate FullRunAt(d: seq<digit>, i: int)
    requires 0 <= i <= |d| - 24
  {
    forall j | i <= j < i + 24 :: d[j] == 15
  }

  predicate Decodable(bytes: seq<byte>) {
    !HasFullRun(Digits(bytes)) || |Digits(bytes)| == 128
  }

  /** A map is decoded if it has 64 bytes, or no twelve bytes in a row are all ones, also when they are shifted by half
      a byte. */
  lemma DecodableExactlyWhen(bytes: seq<byte>)
    ensures Decodable(bytes) <==> |bytes| == 64 || !exists i :: OnesFrom(bytes, i)
  {
    var d := Digits(bytes);
    forall i | 0 <= i <= |d| - 24 ensures FullRunAt(d, i) <==> OnesFrom(bytes, i) {
      RunIsOnes(bytes, i);
    }
  }

  /** The 24 half bytes from `i` on are all ones. */
  predicate OnesFrom(bytes: seq<byte>, i: int) {
    && 0 <= i && i + 24 <= 2 * |bytes|
    && forall j | i <= j < i + 24 :: if j % 2 == 0 then bytes[j / 2] >= 240 else bytes[j / 2] % 16 == 15
  }

  lemma RunIsOnes(bytes: seq<byte>, i: int)
    requires 0 <= i <= 2 * |bytes| - 24
    ensures FullRunAt(Digits(bytes), i) <==> OnesFrom(bytes, i)
  {
    forall j | i <= j < i + 24
      ensures Digits(bytes)[j] == 15 <==> if j % 2 == 0 then bytes[j / 2] >= 240 else bytes[j / 2] % 16 == 15
    {
    }
    if FullRunAt(Digits(bytes), i) {
      forall j | i <= j < i + 24 ensures if j % 2 == 0 then bytes[j / 2] >= 240 else bytes[j / 2] % 16 == 15 {
        assert Digits(bytes)[j] == 15;
      }
    }
  }

  ghost predicate Increasing(s: seq<int>) {
    forall i, j | 0 <= i < j < |s| :: s[i] < s[j]
  }

  /** decode_vlanVlansOnPort */
  method Decode(v: Option<seq<byte>>) returns (vlans: seq<int>)
    ensures Increasing(vlans)
    ensures v.None? || !Decodable(v.value) ==> vlans == []
    ensures v.Some? && Decodable(v.value) ==>
              forall n :: n in vlans <==> BitSet(v.value, n) && !(1001 <= n <= 1004)
  {
    if v.None? {
      return [];
    }
    var digits := Digits(v.value);
    var found: set<int> := {};
    if !HasFullRun(digits) || |digits| == 128 {
      var c := 0;
      for i := 0 to |digits|
        invariant c == 4 * i
        invariant forall n :: n in found <==> 0 <= n < c && BitSet(v.value, n) && n !in IGNORED
      {
        var bits := HEXTAB[digits[i]];
        BitOfDigit(v.value, 4 * i);
        for j := 0 to |bits|
          invariant c == 4 * i + j
          invariant forall n :: n in found <==> 0 <= n < c && BitSet(v.value, n) && n !in IGNORED
        {
          BitOfDigit(v.value, c);
          assert c / 4 == i && c % 4 == j;
          if bits[j] == '1' && c !in IGNORED {
            found := found + {c};
          }
          c := c + 1;
        }
      }
    }
    vlans := Sorted(found);
  }

  /** A map that is not decoded does hold VLANs, so the empty list is the right answer for no such map: the
      decoding is exact just for the decodable maps. */
  lemma UndecodedMapsHoldVlans(bytes: seq<byte>)
    requires !Decodable(bytes)
    ensures exists n :: BitSet(bytes, n) && !(1001 <= n <= 1004)
  {
    var d := Digits(bytes);
    var i :| 0 <= i <= |d| - 24 && FullRunAt(d, i);
    var k := if 4 * i in IGNORED then i + 2 else i;
    assert d[k] == 15 && 4 * k / 4 == k && 4 * k % 4 == 0;
    BitOfDigit(bytes, 4 * k);
    assert BitSet(bytes, 4 * k);
  }

  /** sorted(), on a set of numbers */
  method Sorted(s: set<int>) returns (list: seq<int>)
    ensures Increasing(list)
    ensures forall n :: n in list <==> n in s
    ensures s == {} ==> list == []
  {
    list := [];
    var todo := s;
    while todo != {}
      invariant todo <= s
      invariant forall n :: n in list <==> n in s && n !in todo
      invariant forall i, m | 0 <= i < |list| && m in todo :: list[i] < m
      invariant Increasing(list) && (s == {} ==> list == [])
      decreases todo
    {
      ghost var least := SmallestExists(todo);
      var n :| n in todo && forall m <- todo :: n <= m;
      list, todo := list + [n], todo - {n};
    }
  }

  ghost predicate IsLeast(n: int, s: set<int>) {
    n in s && forall m <- s :: n <= m
  }

  lemma EmptyOrNot(s: set<int>)
    ensures s == {} || exists n :: n in s
  {
    if forall n :: n !in s {
      assert s == {};
    }
  }

  lemma {:induction false} SmallestExists(s: set<int>) returns (n: int)
    requires s != {}
    ensures IsLeast(n, s)
    decreases s
  {
    EmptyOrNot(s);
    n :| n in s;
    if s != {n} {
      var rest := SmallestExists(s - {n});
      var x := n;
      n := if rest < x then rest else x;
      forall m | m in s ensures n <= m {
        assert m == x || m in s - {x};
      }
    }
  }

  // ---------- Merging the four maps ----------

  type Port = string

  /** What a driver collected for a port: a list of VLANs, or something that is not a list. */
  datatype Cell = List(vlans: seq<int>) | NotAList

  type Group = map<string, map<Port, Cell>>

  const FIELDS: seq<string> :=
    ["vlanTrunkPortVlansEnabled1k", "vlanTrunkPortVlansEnabled2k",
     "vlanTrunkPortVlansEnabled3k", "vlanTrunkPortVlansEnabled4k"]

  function Shifted(vlans: seq<int>, offset: int): (s: seq<int>)
    ensures |s| == |vlans| && forall i | 0 <= i < |s| :: s[i] == vlans[i] + offset
  {
    seq(|vlans|, i requires 0 <= i < |vlans| => vlans[i] + offset)
  }

  /** What field `i` contributes to a port. */
  function Part(g: Group, i: nat, port: Port): seq<int>
    requires i < |FIELDS|
  {
    if FIELDS[i] in g && port in g[FIELDS[i]] && g[FIELDS[i]][port].List? then
      Shifted(g[FIELDS[i]][port].vlans, 1024 * i)
    else []
  }

  function Parts(g: Group, k: nat, port: Port): seq<int>
    requires k <= |FIELDS|
  {
    if k == 0 then [] else Parts(g, k - 1, port) + Part(g, k - 1, port)
  }

  /** The result holds port `p` exactly if something has been appended for it. */
  predicate Gathered(data: map<Port, seq<int>>, p: Port, all: seq<int>) {
    (p in data <==> all != []) && (p in data ==> data[p] == all)
  }

  /** Every port has gathered what the first `k` fields contribute. */
  ghost predicate GatheredFrom(g: Group, k: nat, data: map<Port, seq<int>>)
    requires k <= |FIELDS|
  {
    forall p :: Gathered(data, p, Parts(g, k, p))
  }

  lemma OneMoreField(g: Group, i: nat, before: map<Port, seq<int>>, data: map<Port, seq<int>>)
    requires i < |FIELDS| && GatheredFrom(g, i, before)
    requires if FIELDS[i] in g then forall p :: Gathered(data, p, Parts(g, i, p) + Part(g, i, p)) else data == before
    ensures GatheredFrom(g, i + 1, data)
  {
    ghost var next := i + 1;
    forall p ensures Gathered(data, p, Parts(g, next, p)) {
      assert Gathered(before, p, Parts(g, i, p));
      assert Parts(g, i, p) + [] == Parts(g, i, p);
    }
  }

  /** merge_trunking_vlans */
  method MergeTrunks(g: Group) returns (data: map<Port, seq<int>>)
    ensures forall p :: (p in data <==> Parts(g, 4, p) != []) && (p in data ==> data[p] == Parts(g, 4, p))
  {
    data := map[];
    var offset := 0;
    for i := 0 to |FIELDS|
      invariant offset == 1024 * i
      invariant GatheredFrom(g, i, data)
    {
      ghost var before := data;
      if FIELDS[i] in g {
        data := MergeField(g, i, offset, data);
      }
      OneMoreField(g, i, before, data);
      offset := offset + 1024;
    }
    assert GatheredFrom(g, 4, data);
    forall p ensures (p in data <==> Parts(g, 4, p) != []) && (p in data ==> data[p] == Parts(g, 4, p)) {
      assert Gathered(data, p, Parts(g, 4, p));
    }
  }

  /** One field: for every port, in any order. */
  method MergeField(g: Group, i: nat, offset: int, before: map<Port, seq<int>>) returns (data: map<Port, seq<int>>)
    requires i < |FIELDS| && FIELDS[i] in g && offset == 1024 * i
    requires GatheredFrom(g, i, before)
    ensures forall p :: Gathered(data, p, Parts(g, i, p) + Part(g, i, p))
  {
    data := before;
    var column := g[FIELDS[i]];
    var ports := column.Keys;
    forall p ensures Gathered(data, p, Parts(g, i, p) + if p in ports then [] else Part(g, i, p)) {
      assert Parts(g, i, p) + [] == Parts(g, i, p);
      assert Gathered(before, p, Parts(g, i, p));
    }
    while ports != {}
      invariant ports <= column.Keys
      invariant forall p :: Gathered(data, p, Parts(g, i, p) + if p in ports then [] else Part(g, i, p))
      decreases ports
    {
      var k :| k in ports;
      ghost var was := data;
      assert Gathered(was, k, Parts(g, i, k) + []) && Parts(g, i, k) + [] == Parts(g, i, k);
      if column[k].List? {
        data := AppendAll(data, k, column[k].vlans, offset);
      }
      forall p ensures Gathered(data, p, Parts(g, i, p) + if p in ports - {k} then [] else Part(g, i, p)) {
        assert Gathered(was, p, Parts(g, i, p) + if p in ports then [] else Part(g, i, p));
      }
      ports := ports - {k};
    }
  }

  /** The innermost loop: appends the numbers of one cell, shifted. */
  method AppendAll(before: map<Port, seq<int>>, k: Port, vlans: seq<int>, offset: int)
    returns (data: map<Port, seq<int>>)
    ensures vlans == [] ==> data == before
    ensures vlans != [] ==> data == before[k := (if k in before then before[k] else []) + Shifted(vlans, offset)]
  {
    data := before;
    ghost var had := if k in before then before[k] else [];
    for j := 0 to |vlans|
      invariant j == 0 ==> data == before
      invariant j > 0 ==> data == before[k := had + Shifted(vlans, offset)[..j]]
    {
      assert Shifted(vlans, offset)[..j + 1] == Shifted(vlans, offset)[..j] + [vlans[j] + offset];
      assert had + (Shifted(vlans, offset)[..j] + [vlans[j] + offset])
          == had + Shifted(vlans, offset)[..j] + [vlans[j] + offset];
      if k !in data {
        data := data[k := []];
      }
      assert data[k] == had + Shifted(vlans, offset)[..j];
      assert j > 0 ==> data == before[k := data[k]];
      assert data[k := data[k] + [vlans[j] + offset]] == before[k := data[k] + [vlans[j] + offset]];
      data := data[k := data[k] + [vlans[j] + offset]];
    }
    assert Shifted(vlans, offset)[..|vlans|] == Shifted(vlans, offset);
  }

  /** The second map has the VLANs from 1024 on. */
  lemma SecondMapIsShifted(g: Group)
    requires g == map["vlanTrunkPortVlansEnabled2k" := map["1" := List([5, 7])]]
    ensures Parts(g, 4, "1") == [1029, 1031]
  {
    var second := "vlanTrunkPortVlansEnabled2k";
    assert FIELDS[0][25] == '1' && FIELDS[1] == second && FIELDS[2][25] == '3' && FIELDS[3][25] == '4';
    assert second[25] == '2';
    assert Part(g, 0, "1") == [] && Part(g, 2, "1") == [] && Part(g, 3, "1") == [];
    assert Part(g, 1, "1") == [1029, 1031];
    assert Parts(g, 0, "1") == [] && Parts(g, 1, "1") == [];
    assert Parts(g, 2, "1") == [1029, 1031] && Parts(g, 3, "1") == [1029, 1031];
  }

  /** Field `i` of a port holds what decoding `bytes` gives. */
  ghost predicate Holds(g: Group, i: nat, port: Port, bytes: seq<byte>)
    requires i < |FIELDS|
  {
    && FIELDS[i] in g && port in g[FIELDS[i]] && g[FIELDS[i]][port].List?
    && Increasing(g[FIELDS[i]][port].vlans)
    && forall n :: n in g[FIELDS[i]][port].vlans <==> BitSet(bytes, n) && !(1001 <= n <= 1004)
  }

  /** `n` is a VLAN of map `i`. */
  predicate VlanOf(bytes: seq<byte>, i: nat, n: int) {
    BitSet(bytes, n - 1024 * i) && !(1001 <= n - 1024 * i <= 1004)
  }

  lemma PartIsExact(g: Group, i: nat, port: Port, bytes: seq<byte>)
    requires i < |FIELDS| && |bytes| <= 128 && Holds(g, i, port, bytes)
    ensures Increasing(Part(g, i, port))
    ensures forall n :: n in Part(g, i, port) <==> VlanOf(bytes, i, n)
    ensures forall n :: VlanOf(bytes, i, n) ==> 1024 * i <= n < 1024 * i + 1024
  {
    var vlans := g[FIELDS[i]][port].vlans;
    ShiftedHolds(vlans, 1024 * i);
    VlansInRange(bytes, i);
  }

  lemma VlansInRange(bytes: seq<byte>, i: nat)
    requires |bytes| <= 128
    ensures forall n :: VlanOf(bytes, i, n) ==> 1024 * i <= n < 1024 * i + 1024
  {
  }

  lemma ShiftedHolds(vlans: seq<int>, offset: int)
    ensures forall n :: n in Shifted(vlans, offset) <==> n - offset in vlans
    ensures Increasing(vlans) ==> Increasing(Shifted(vlans, offset))
  {
    var s := Shifted(vlans, offset);
    forall n ensures n in s <==> n - offset in vlans {
      if n - offset in vlans {
        var j :| 0 <= j < |vlans| && vlans[j] == n - offset;
        assert s[j] == n;
      }
    }
  }

  lemma IncreasingAppend(a: seq<int>, b: seq<int>, m: int)
    requires Increasing(a) && Increasing(b)
    requires (forall n <- a :: n < m) && (forall n <- b :: m <= n)
    ensures Increasing(a + b)
  {
    forall i, j | 0 <= i < j < |a + b| ensures (a + b)[i] < (a + b)[j] {
      assert i < |a| ==> a[i] in a;
      assert j >= |a| ==> b[j - |a|] in b;
    }
  }

  lemma WhichMap(maps: seq<seq<byte>>, i: nat, n: int)
    requires i < |maps| && 1024 * i <= n < 1024 * i + 1024
    ensures VlanOf(maps[i], i, n) <==> BitSet(maps[n / 1024], n % 1024) && !(1001 <= n % 1024 <= 1004)
  {
    assert n / 1024 == i && n % 1024 == n - 1024 * i;
  }

  /** A trunk whose four maps are each at most 128 bytes and decodable gives a strictly increasing list,
      and `n` is in it exactly when bit `n mod 1024` of map `n div 1024` is set and is not reserved. */
  lemma {:induction false} MergedListIsExact(g: Group, port: Port, maps: seq<seq<byte>>, k: nat)
    requires |maps| == 4 && k <= 4
    requires forall i | 0 <= i < 4 :: |maps[i]| <= 128 && Holds(g, i, port, maps[i])
    ensures Increasing(Parts(g, k, port))
    ensures forall n :: n in Parts(g, k, port) <==>
              0 <= n < 1024 * k && BitSet(maps[n / 1024], n % 1024) && !(1001 <= n % 1024 <= 1004)
  {
    if k > 0 {
      var i := k - 1;
      MergedListIsExact(g, port, maps, i);
      assert Holds(g, i, port, maps[i]);
      PartIsExact(g, i, port, maps[i]);
      IncreasingAppend(Parts(g, i, port), Part(g, i, port), 1024 * i);
      forall n ensures n in Parts(g, k, port) <==>
                 0 <= n < 1024 * k && BitSet(maps[n / 1024], n % 1024) && !(1001 <= n % 1024 <= 1004)
      {
        assert n in Parts(g, k, port) <==> n in Parts(g, i, port) || n in Part(g, i, port);
        if 1024 * i <= n < 1024 * k {
          WhichMap(maps, i, n);
        }
      }
    }
  }
}
