/** What a hash key depends on: the numbers met on the way through the value, each with its factor, in exact
    arithmetic. Nothing that has been hashed is lost by what is hashed after it. */
module HashTrace {
  import opened MachineInt
  import opened ObjTable
  import opened SerialFormat
  import opened ValHash

  /** `h = h * factor + x`. */
  datatype Step = Step(factor: int, x: int)

  // ------------------------------------------------------------------- the numbers met

  /** Characters are signed, and are met from the last to the first. */
  function Characters(bytes: seq<Byte>): seq<Step> {
    if bytes == [] then []
    else
      var b: int := bytes[|bytes| - 1];
      [Step(19, if b < 128 then b else b - 256)] + Characters(bytes[..|bytes| - 1])
  }

  function Trace(h: Heap, v: Value, l: seq<nat>): seq<Step>
    decreases Free(h, l), 2, 0
  {
    match v
    case Null => [Step(19, 0)]
    case Bool(flag) => [Step(19, if flag then 1 else 0)]
    case Int(n) => [Step(65599, n)]
    case Float(bits) => Characters(bits)
    case Int32(_) => []
    case Hash(_) => []
    case Ref(a) =>
      if a >= |h| then []
      else if h[a].Str? then Characters(h[a].bytes)
      else if a in l then [Step(19, Depth(l, a))]
      else
        FreeShrinks(h, l, a);
        match h[a]
        case Str(_) => []
        case Arr(items) => ItemsTrace(h, items, [a] + l)
        case Obj(fields, proto) =>
          FieldsTrace(h, fields, [a] + l) + if proto.Some? then Trace(h, Ref(proto.value), [a] + l) else []
  }

  /** Elements from the last to the first. */
  function ItemsTrace(h: Heap, items: seq<Value>, l: seq<nat>): seq<Step>
    decreases Free(h, l), 3, |items|
  {
    if items == [] then [] else ItemsTrace(h, items[1..], l) + Trace(h, items[0], l)
  }

  /** Fields from the first to the last, each after its id. */
  function FieldsTrace(h: Heap, fields: seq<Cell<Value>>, l: seq<nat>): seq<Step>
    decreases Free(h, l), 3, |fields|
  {
    if fields == [] then []
    else
      var n := |fields| - 1;
      FieldsTrace(h, fields[..n], l) + [Step(65599, fields[n].id)] + Trace(h, fields[n].v, l)
  }

  /** All of them together, without any overflow. */
  function Total(t: seq<Step>, acc: int): int {
    if t == [] then acc else Total(t[1..], acc * t[0].factor + t[0].x)
  }

  // ------------------------------------------------------------------- modulo the width of the machine

  predicate Same(x: int, y: int) {
    x % 0x1_0000_0000 == y % 0x1_0000_0000
  }

  lemma SameDiffer(x: int, y: int)
    ensures Same(x, y) <==> exists k :: x - y == 0x1_0000_0000 * k
  {
    if Same(x, y) {
      assert x - y == 0x1_0000_0000 * (x / 0x1_0000_0000 - y / 0x1_0000_0000);
    }
    if k :| x - y == 0x1_0000_0000 * k {
      assert x == y + 0x1_0000_0000 * k;
      Multiple(y, k);
    }
  }

  lemma Multiple(y: int, k: int)
    ensures (y + 0x1_0000_0000 * k) % 0x1_0000_0000 == y % 0x1_0000_0000
  {
  }

  lemma SameStep(x: int, y: int, factor: int, z: int)
    requires Same(x, y)
    ensures Same(x * factor + z, y * factor + z)
  {
    SameDiffer(x, y);
    var k :| x - y == 0x1_0000_0000 * k;
    assert (x * factor + z) - (y * factor + z) == 0x1_0000_0000 * (k * factor) by {
      assert (x - y) * factor == x * factor - y * factor;
    }
    SameDiffer(x * factor + z, y * factor + z);
  }

  lemma WrapSame(n: int)
    ensures Same(Wrap32(n), n)
  {
  }

  lemma {:induction false} TotalSame(t: seq<Step>, x: int, y: int)
    requires Same(x, y)
    ensures Same(Total(t, x), Total(t, y))
  {
    hide Same;
    if t != [] {
      SameStep(x, y, t[0].factor, t[0].x);
      TotalSame(t[1..], x * t[0].factor + t[0].x, y * t[0].factor + t[0].x);
    }
  }

  lemma {:induction false} TotalThen(t: seq<Step>, u: seq<Step>, acc: int)
    ensures Total(t + u, acc) == Total(u, Total(t, acc))
    decreases |t|
  {
    if t == [] {
      assert t + u == u;
    } else {
      assert (t + u)[0] == t[0] && (t + u)[1..] == t[1..] + u;
      TotalThen(t[1..], u, acc * t[0].factor + t[0].x);
    }
  }

  // ------------------------------------------------------------------- the hash is their total

  lemma SameOne(acc: int, total: int, t: seq<Step>, factor: int, x: int)
    requires Same(acc, total) && t == [Step(factor, x)]
    ensures Same(Wrap32(acc * factor + x), Total(t, total))
  {
    hide Same, Wrap32;
    SameStep(acc, total, factor, x);
    WrapSame(acc * factor + x);
    assert t[1..] == [] && Total(t[1..], total * factor + x) == total * factor + x;
    SameTrans(Wrap32(acc * factor + x), acc * factor + x, total * factor + x);
  }

  lemma SameTrans(x: int, y: int, z: int)
    requires Same(x, y) && Same(y, z)
    ensures Same(x, z)
  {
  }

  lemma {:induction false} BytesTotal(bytes: seq<Byte>, k: nat, acc: int, total: int)
    requires k <= |bytes| && Same(acc, total)
    ensures Same(HashBytes(acc, bytes, k), Total(Characters(bytes[..k]), total))
    decreases k
  {
    hide Same, Wrap32;
    if k > 0 {
      var x := Signed(bytes[k - 1]);
      assert bytes[..k][..k - 1] == bytes[..k - 1];
      assert Characters(bytes[..k]) == [Step(19, x)] + Characters(bytes[..k - 1]);
      SameOne(acc, total, [Step(19, x)], 19, x);
      TotalThen([Step(19, x)], Characters(bytes[..k - 1]), total);
      BytesTotal(bytes, k - 1, Small(acc, x), Total([Step(19, x)], total));
    }
  }

  /** The hash key computed with overflows is the exact total, modulo the width of the machine. */
  lemma {:induction false} HashTotal(h: Heap, v: Value, acc: int, total: int, l: seq<nat>)
    requires Same(acc, total)
    ensures Same(HashRec(h, v, acc, l), Total(Trace(h, v, l), total))
    decreases Free(h, l), 2, 0
  {
    hide Same, Wrap32, Total;
    match v
    case Null => SameOne(acc, total, [Step(19, 0)], 19, 0);
    case Bool(flag) => SameOne(acc, total, Trace(h, v, l), 19, if flag then 1 else 0);
    case Int(n) => SameOne(acc, total, Trace(h, v, l), 65599, n);
    case Float(bits) => CharactersTotal(bits, acc, total);
    case Ref(a) =>
      if a < |h| {
        if h[a].Str? {
          CharactersTotal(h[a].bytes, acc, total);
        } else if a in l {
          SameOne(acc, total, Trace(h, v, l), 19, Depth(l, a));
        } else {
          FreeShrinks(h, l, a);
          NodeTotal(h, h[a], acc, total, [a] + l);
        }
      } else {
        NoneTotal(total);
      }
    case _ => NoneTotal(total);
  }

  lemma NoneTotal(total: int)
    ensures Total([], total) == total
  {
  }

  lemma CharactersTotal(bytes: seq<Byte>, acc: int, total: int)
    requires Same(acc, total)
    ensures Same(HashBytes(acc, bytes, |bytes|), Total(Characters(bytes), total))
  {
    assert bytes[..|bytes|] == bytes;
    BytesTotal(bytes, |bytes|, acc, total);
  }

  lemma {:induction false} NodeTotal(h: Heap, node: Node, acc: int, total: int, l: seq<nat>)
    requires Same(acc, total) && !node.Str?
    ensures node.Arr? ==> Same(HashNode(h, node, acc, l), Total(ItemsTrace(h, node.items, l), total))
    ensures node.Obj? ==>
      Same(HashNode(h, node, acc, l),
           Total(FieldsTrace(h, node.fields, l)
                 + if node.proto.Some? then Trace(h, Ref(node.proto.value), l) else [], total))
    decreases Free(h, l), 4, 0
  {
    hide Same, Wrap32, Total;
    match node
    case Arr(items) => ItemsTotal(h, items, acc, total, l);
    case Obj(fields, proto) =>
      FieldsTotal(h, fields, acc, total, l);
      var t := FieldsTrace(h, fields, l);
      match proto {
        case None => assert t + [] == t;
        case Some(p) =>
          HashTotal(h, Ref(p), HashFields(h, fields, acc, l), Total(t, total), l);
          TotalThen(t, Trace(h, Ref(p), l), total);
      }
  }

  lemma {:induction false} ItemsLast(h: Heap, items: seq<Value>, l: seq<nat>)
    requires items != []
    ensures ItemsTrace(h, items, l) == Trace(h, items[|items| - 1], l) + ItemsTrace(h, items[..|items| - 1], l)
    decreases |items|
  {
    hide Trace;
    var n := |items| - 1;
    if n == 0 {
      assert ItemsTrace(h, items[1..], l) == [] && items[..0] == [];
    } else {
      ItemsLast(h, items[1..], l);
      assert items[1..][..n - 1] == items[..n][1..];
    }
  }

  lemma {:induction false} ItemsTotal(h: Heap, items: seq<Value>, acc: int, total: int, l: seq<nat>)
    requires Same(acc, total)
    ensures Same(HashItems(h, items, |items|, acc, l), Total(ItemsTrace(h, items, l), total))
    decreases Free(h, l), 3, |items|
  {
    hide Same, Wrap32, Total, Trace, HashRec;
    var n := |items| - 1;
    if items == [] {
      NoneTotal(total);
    } else {
      var t := Trace(h, items[n], l);
      ItemsLast(h, items, l);
      HashTotal(h, items[n], acc, total, l);
      TotalThen(t, ItemsTrace(h, items[..n], l), total);
      ItemsTotal(h, items[..n], HashRec(h, items[n], acc, l), Total(t, total), l);
      ItemsPrefix(h, items, n, HashRec(h, items[n], acc, l), l);
    }
  }

  lemma {:induction false} ItemsPrefix(h: Heap, items: seq<Value>, k: nat, acc: int, l: seq<nat>)
    requires k < |items|
    ensures HashItems(h, items, k, acc, l) == HashItems(h, items[..|items| - 1], k, acc, l)
    decreases k
  {
    hide HashRec;
    if k > 0 {
      ItemsPrefix(h, items, k - 1, HashRec(h, items[k - 1], acc, l), l);
    }
  }

  lemma {:induction false} FieldsFirst(h: Heap, fields: seq<Cell<Value>>, l: seq<nat>)
    requires fields != []
    ensures FieldsTrace(h, fields, l)
            == [Step(65599, fields[0].id)] + Trace(h, fields[0].v, l) + FieldsTrace(h, fields[1..], l)
    decreases |fields|
  {
    hide Trace;
    var n := |fields| - 1;
    if n == 0 {
      assert FieldsTrace(h, fields[..0], l) == [] && FieldsTrace(h, fields[1..], l) == [];
    } else {
      FieldsFirst(h, fields[..n], l);
      assert fields[..n][1..] == fields[1..][..n - 1] && fields[1..][n - 1] == fields[n];
      Regrouped([Step(65599, fields[0].id)] + Trace(h, fields[0].v, l), FieldsTrace(h, fields[1..][..n - 1], l),
                [Step(65599, fields[n].id)], Trace(h, fields[n].v, l));
    }
  }

  lemma Regrouped(a: seq<Step>, b: seq<Step>, c: seq<Step>, d: seq<Step>)
    ensures a + b + c + d == a + (b + c + d)
  {
  }

  lemma {:induction false} FieldsTotal(h: Heap, fields: seq<Cell<Value>>, acc: int, total: int, l: seq<nat>)
    requires Same(acc, total)
    ensures Same(HashFields(h, fields, acc, l), Total(FieldsTrace(h, fields, l), total))
    decreases Free(h, l), 3, |fields|
  {
    hide Same, Wrap32, Total, Trace, HashRec;
    if fields == [] {
      NoneTotal(total);
    } else {
      var id, t := [Step(65599, fields[0].id)], Trace(h, fields[0].v, l);
      var acc1, acc2 := Big(acc, fields[0].id), HashRec(h, fields[0].v, Big(acc, fields[0].id), l);
      FieldsFirst(h, fields, l);
      SameOne(acc, total, id, 65599, fields[0].id);
      HashTotal(h, fields[0].v, acc1, Total(id, total), l);
      FieldsTotal(h, fields[1..], acc2, Total(t, Total(id, total)), l);
      TotalThen(id + t, FieldsTrace(h, fields[1..], l), total);
      TotalThen(id, t, total);
    }
  }

  /** The hash key of every value of every heap. */
  lemma KeyIsTotal(h: Heap, v: Value)
    ensures ValHash.ValHash(h, v) == Total(Trace(h, v, []), 0) % 0x4000_0000
  {
    HashTotal(h, v, 0, 0, []);
    SameLow(HashRec(h, v, 0, []), Total(Trace(h, v, []), 0));
  }

  lemma SameLow(x: int, y: int)
    requires Same(x, y)
    ensures x % 0x4000_0000 == y % 0x4000_0000
  {
    Low(x);
    Low(y);
  }

  lemma Low(x: int)
    ensures x % 0x4000_0000 == x % 0x1_0000_0000 % 0x4000_0000
  {
    var q := x / 0x1_0000_0000;
    assert x == x % 0x1_0000_0000 + 0x4000_0000 * (4 * q);
    LowMultiple(x % 0x1_0000_0000, 4 * q);
  }

  lemma LowMultiple(y: int, k: int)
    ensures (y + 0x4000_0000 * k) % 0x4000_0000 == y % 0x4000_0000
  {
  }

  // ------------------------------------------------------------------- nothing is lost

  predicate SameKey(x: int, y: int) {
    x % 0x4000_0000 == y % 0x4000_0000
  }

  predicate Factors(t: seq<Step>) {
    forall s <- t :: s.factor == 19 || s.factor == 65599
  }

  lemma KeyDiffer(x: int, y: int)
    ensures SameKey(x, y) <==> exists k :: x - y == 0x4000_0000 * k
  {
    if SameKey(x, y) {
      assert x - y == 0x4000_0000 * (x / 0x4000_0000 - y / 0x4000_0000);
    }
    if k :| x - y == 0x4000_0000 * k {
      assert x == y + 0x4000_0000 * k;
      LowMultiple(y, k);
    }
  }

  /** Both factors are odd, so that multiplying by them can be undone. */
  lemma FactorApart(x: int, y: int, factor: int)
    requires factor == 19 || factor == 65599
    ensures SameKey(x * factor, y * factor) <==> SameKey(x, y)
  {
    KeyDiffer(x, y);
    KeyDiffer(x * factor, y * factor);
    if k :| x - y == 0x4000_0000 * k {
      assert x * factor - y * factor == (x - y) * factor == 0x4000_0000 * (k * factor);
    }
    if k :| x * factor - y * factor == 0x4000_0000 * k {
      var d := x - y;
      assert factor * d == 0x4000_0000 * k;
      if factor == 19 {
        assert 678152731 * 19 == 1 + 0x4000_0000 * 12;
        assert d == 0x4000_0000 * (678152731 * k - 12 * d);
      } else {
        assert 242937791 * 65599 == 1 + 0x4000_0000 * 14842;
        assert d == 0x4000_0000 * (242937791 * k - 14842 * d);
      }
    }
  }

  lemma AddedApart(x: int, y: int, z: int)
    ensures SameKey(x + z, y + z) <==> SameKey(x, y)
  {
    KeyDiffer(x, y);
    KeyDiffer(x + z, y + z);
    assert (x + z) - (y + z) == x - y;
  }

  lemma {:induction false} TotalApart(t: seq<Step>, x: int, y: int)
    requires Factors(t)
    ensures SameKey(Total(t, x), Total(t, y)) <==> SameKey(x, y)
  {
    hide SameKey;
    if t != [] {
      FactorApart(x, y, t[0].factor);
      AddedApart(x * t[0].factor, y * t[0].factor, t[0].x);
      TotalApart(t[1..], x * t[0].factor + t[0].x, y * t[0].factor + t[0].x);
    }
  }

  /** Two traces that differ in one number have the same total if and only if the numbers are the same. */
  lemma OneNumber(t: seq<Step>, factor: int, x: int, y: int, u: seq<Step>)
    requires Factors(u)
    ensures SameKey(Total(t + [Step(factor, x)] + u, 0), Total(t + [Step(factor, y)] + u, 0)) <==> SameKey(x, y)
  {
    hide SameKey, Factors;
    var m := Total(t, 0) * factor;
    OneMore(t, Step(factor, x), u);
    OneMore(t, Step(factor, y), u);
    TotalApart(u, m + x, m + y);
    AddedApart(x, y, m);
  }

  lemma OneMore(t: seq<Step>, s: Step, u: seq<Step>)
    ensures Total(t + [s] + u, 0) == Total(u, Total(t, 0) * s.factor + s.x)
  {
    TotalThen(t + [s], u, 0);
    TotalThen(t, [s], 0);
    assert [s][1..] == [] && Total([s], Total(t, 0)) == Total([s][1..], Total(t, 0) * s.factor + s.x);
  }

  lemma {:induction false} CharactersFactors(bytes: seq<Byte>)
    ensures Factors(Characters(bytes))
  {
    if bytes != [] {
      CharactersFactors(bytes[..|bytes| - 1]);
    }
  }

  lemma {:induction false} TraceFactors(h: Heap, v: Value, l: seq<nat>)
    ensures Factors(Trace(h, v, l))
    decreases Free(h, l), 2, 0
  {
    match v
    case Float(bits) => CharactersFactors(bits);
    case Ref(a) =>
      if a < |h| {
        if h[a].Str? {
          CharactersFactors(h[a].bytes);
        } else if a !in l {
          FreeShrinks(h, l, a);
          match h[a]
          case Arr(items) => ItemsFactors(h, items, [a] + l);
          case Obj(fields, proto) =>
            FieldsFactors(h, fields, [a] + l);
            if proto.Some? {
              TraceFactors(h, Ref(proto.value), [a] + l);
            }
        }
      }
    case _ =>
  }

  lemma {:induction false} ItemsFactors(h: Heap, items: seq<Value>, l: seq<nat>)
    ensures Factors(ItemsTrace(h, items, l))
    decreases Free(h, l), 3, |items|
  {
    if items != [] {
      ItemsFactors(h, items[1..], l);
      TraceFactors(h, items[0], l);
    }
  }

  lemma {:induction false} FieldsFactors(h: Heap, fields: seq<Cell<Value>>, l: seq<nat>)
    ensures Factors(FieldsTrace(h, fields, l))
    decreases Free(h, l), 3, |fields|
  {
    if fields != [] {
      var n := |fields| - 1;
      FieldsFactors(h, fields[..n], l);
      TraceFactors(h, fields[n].v, l);
    }
  }

  /** Values whose traces differ in one number have equal hash keys if and only if the numbers are the same
      modulo 2^30. */
  lemma OneDifference(h: Heap, v: Value, h': Heap, v': Value, t: seq<Step>, factor: int, x: int, y: int, u: seq<Step>)
    requires Trace(h, v, []) == t + [Step(factor, x)] + u && Trace(h', v', []) == t + [Step(factor, y)] + u
    ensures ValHash.ValHash(h, v) == ValHash.ValHash(h', v') <==> SameKey(x, y)
  {
    hide Trace;
    KeyIsTotal(h, v);
    KeyIsTotal(h', v');
    TraceFactors(h, v, []);
    assert forall s <- u :: s in t + [Step(factor, x)] + u;
    OneNumber(t, factor, x, y, u);
  }

  lemma IntKeys(h: Heap, n: int, m: int)
    ensures ValHash.ValHash(h, Int(n)) == n % 0x4000_0000
    ensures ValHash.ValHash(h, Int(n)) == ValHash.ValHash(h, Int(m)) <==> SameKey(n, m)
  {
    KeyIsTotal(h, Int(n));
    KeyIsTotal(h, Int(m));
    OneTotal(Step(65599, n));
    OneTotal(Step(65599, m));
  }

  lemma OneTotal(s: Step)
    ensures Total([s], 0) == s.x
  {
    assert [s][1..] == [];
  }

  lemma {:induction false} CharactersAt(x: seq<Byte>, y: seq<Byte>, i: nat) returns (t: seq<Step>, u: seq<Step>)
    requires i < |x| == |y| && x[..i] == y[..i] && x[i + 1..] == y[i + 1..]
    ensures Characters(x) == t + [Step(19, Signed(x[i]))] + u && Characters(y) == t + [Step(19, Signed(y[i]))] + u
    decreases |x|
  {
    var n := |x| - 1;
    if i == n {
      t, u := [], Characters(x[..n]);
    } else {
      assert x[i + 1..][n - i - 1] == x[n] && y[i + 1..][n - i - 1] == y[n];
      assert x[..n][..i] == x[..i] && y[..n][..i] == y[..i];
      assert x[..n][i + 1..] == x[i + 1..][..n - i - 1] && y[..n][i + 1..] == y[i + 1..][..n - i - 1];
      var t1, u1 := CharactersAt(x[..n], y[..n], i);
      t, u := [Step(19, Signed(x[n]))] + t1, u1;
    }
  }

  /** Strings that differ in one character have different hash keys. */
  lemma StringsApart(h: Heap, a: nat, h': Heap, a': nat, i: nat)
    requires a < |h| && h[a].Str? && a' < |h'| && h'[a'].Str?
    requires var x, y := h[a].bytes, h'[a'].bytes;
      i < |x| == |y| && x[..i] == y[..i] && x[i + 1..] == y[i + 1..] && x[i] != y[i]
    ensures ValHash.ValHash(h, Ref(a)) != ValHash.ValHash(h', Ref(a'))
  {
    var x, y := h[a].bytes, h'[a'].bytes;
    var t, u := CharactersAt(x, y, i);
    OneDifference(h, Ref(a), h', Ref(a'), t, 19, Signed(x[i]), Signed(y[i]), u);
  }
}
