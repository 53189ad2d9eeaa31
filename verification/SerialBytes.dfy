/** The bytes that stand for each kind of value, as characters and numbers. */
module SerialBytes {
  import opened MachineInt
  import opened ObjTable
  import opened SerialFormat

  /** A C `int`, low byte first. */
  function Four(n: int): seq<Byte> {
    [n % 256, n / 256 % 256, n / 65536 % 256, n / 16777216 % 256]
  }

  lemma FourIsInt4(n: int)
    ensures Int4(n) == Four(n)
  {
    assert n / 256 / 256 == n / 65536 && n / 256 / 256 / 256 == n / 16777216;
  }

  /** A character as the byte it is written as. */
  function Tag(c: char): Byte
    requires c < 128 as char
  {
    c as int
  }

  /** Values that hold no other values. */
  lemma LeafBytes(h: Heap, v: Value, refs: seq<nat>, depth: nat)
    requires depth < 350
    ensures depth < MAX_DEPTH
    ensures v == Null ==> Ser(h, v, refs, depth) == Wrote([Tag('N')], refs)
    ensures v == Bool(true) ==> Ser(h, v, refs, depth) == Wrote([Tag('T')], refs)
    ensures v == Bool(false) ==> Ser(h, v, refs, depth) == Wrote([Tag('F')], refs)
    ensures v.Int? ==> Ser(h, v, refs, depth) == Wrote([Tag('i')] + Four(v.n), refs)
    ensures v.Int32? ==> Ser(h, v, refs, depth) == Wrote([Tag('I')] + Four(v.n), refs)
    ensures v.Float? ==> Ser(h, v, refs, depth) == Wrote([Tag('f')] + v.bits, refs)
  {
    if v.Int? || v.Int32? {
      FourIsInt4(v.n);
    }
  }

  /** A node that has been numbered is written as the number of nodes numbered since. */
  lemma ReferenceBytes(h: Heap, a: nat, refs: seq<nat>, k: nat, depth: nat)
    requires depth < 350 && k < |refs| && forall j :: 0 <= j < |refs| ==> (refs[j] == a <==> j == k)
    ensures depth < MAX_DEPTH
    ensures Ser(h, Ref(a), refs, depth) == Wrote([Tag('r')] + Four(|refs| - 1 - k), refs)
  {
    assert refs[k] in refs;
    FourIsInt4(|refs| - 1 - k);
  }

  lemma OneItem(h: Heap, items: seq<Item>, refs: seq<nat>, depth: nat)
    requires |items| == 1 && depth < MAX_DEPTH
    ensures var first := Ser(h, items[0].v, refs, depth);
      SerItems(h, items, refs, depth)
      == if first.Failed? then Failed else Wrote(items[0].lead + first.bytes, first.refs)
  {
    assert items[1..] == [];
    var first := Ser(h, items[0].v, refs, depth);
    if first.Wrote? {
      assert items[0].lead + first.bytes + [] == items[0].lead + first.bytes;
    }
  }

  lemma TwoItems(h: Heap, items: seq<Item>, refs: seq<nat>, depth: nat)
    requires |items| == 2 && depth < MAX_DEPTH
    ensures var first := Ser(h, items[0].v, refs, depth);
      SerItems(h, items, refs, depth)
      == if first.Failed? then Failed
         else
           var second := Ser(h, items[1].v, first.refs, depth);
           if second.Failed? then Failed
           else Wrote(items[0].lead + first.bytes + (items[1].lead + second.bytes), second.refs)
  {
    var first := Ser(h, items[0].v, refs, depth);
    if first.Wrote? {
      OneItem(h, items[1..], first.refs, depth);
    }
  }

  /** What comes first and last of a node that has not. */
  lemma NodeBytes(h: Heap, a: nat, refs: seq<nat>, depth: nat)
    requires depth < 350 && a < |h| && a !in refs
    ensures depth < MAX_DEPTH
    ensures var w := Ser(h, Ref(a), refs, depth);
      w.Wrote? ==>
        match h[a]
        case Str(s) => w.bytes == [Tag('s')] + Four(|s|) + s && w.refs == refs + [a]
        case Arr(vs) => [Tag('a')] + Four(|vs|) <= w.bytes && refs + [a] <= w.refs
        case Obj(fields, proto) =>
          && [Tag('o')] <= w.bytes && refs + [a] <= w.refs
          && (proto == None ==>
                |w.bytes| >= 6 && w.bytes[|w.bytes| - 5..] == [0, 0, 0, 0, Tag('z')])
  {
    var w := Ser(h, Ref(a), refs, depth);
    if w.Wrote? {
      match h[a]
      case Str(s) =>
        FourIsInt4(|s|);
        assert NodeItems(h[a]) == [] && SerItems(h, [], refs + [a], depth + 1) == Wrote([], refs + [a]);
        assert [STRING] + Int4(|s|) + s + [] + [] == [STRING] + Int4(|s|) + s;
      case Arr(vs) => FourIsInt4(|vs|);
      case Obj(fields, proto) => assert Int4(0) == [0, 0, 0, 0];
    }
  }

  /** A prototype comes after the zero id and a tag of its own. */
  lemma PrototypeBytes(h: Heap, a: nat, p: nat, refs: seq<nat>, depth: nat)
    requires depth < 349 && a < |h| && a !in refs && h[a] == Obj([], Some(p))
    ensures depth + 1 < MAX_DEPTH
    ensures var inner := Ser(h, Ref(p), refs + [a], depth + 1);
      Ser(h, Ref(a), refs, depth)
      == if inner.Failed? then Failed else Wrote([Tag('o'), 0, 0, 0, 0, Tag('p')] + inner.bytes, inner.refs)
  {
    var items := ObjectItems([], Some(p));
    assert items == [Item(Int4(0) + [PROTO], Ref(p))];
    OneItem(h, items, refs + [a], depth + 1);
    var inner := Ser(h, Ref(p), refs + [a], depth + 1);
    if inner.Wrote? {
      assert [OBJECT] + (Int4(0) + [PROTO] + inner.bytes) + [] == [Tag('o'), 0, 0, 0, 0, Tag('p')] + inner.bytes;
    }
  }

  /** A field is its id and its value. */
  lemma FieldBytes(h: Heap, a: nat, id: int, v: Value, refs: seq<nat>, depth: nat)
    requires depth < 349 && a < |h| && a !in refs && h[a] == Obj([Cell(id, v)], None) && id != 589211328
    ensures depth + 1 < MAX_DEPTH
    ensures var inner := Ser(h, v, refs + [a], depth + 1);
      Ser(h, Ref(a), refs, depth)
      == if inner.Failed? then Failed
         else Wrote([Tag('o')] + Four(id) + inner.bytes + [0, 0, 0, 0, Tag('z')], inner.refs)
  {
    FourIsInt4(id);
    var items := ObjectItems([Cell(id, v)], None);
    assert [Cell(id, v)][1..] == [] && ObjectItems([], None) == [];
    assert items == [Item(Int4(id), v)] + [] == [Item(Int4(id), v)];
    OneItem(h, items, refs + [a], depth + 1);
    var inner := Ser(h, v, refs + [a], depth + 1);
    if inner.Wrote? {
      assert [OBJECT] + (Int4(id) + inner.bytes) + (Int4(0) + [NO_PROTO])
             == [Tag('o')] + Four(id) + inner.bytes + [0, 0, 0, 0, Tag('z')];
    }
  }

  /** A cell of a table is its hash key, its key and its value. */
  lemma CellBytes(h: Heap, c: HCell, refs: seq<nat>, depth: nat)
    requires depth < 349
    ensures depth + 1 < MAX_DEPTH
    ensures var key := Ser(h, c.key, refs, depth + 1);
      Ser(h, Hash([Bucket([c])]), refs, depth)
      == if key.Failed? then Failed
         else
           var val := Ser(h, c.val, key.refs, depth + 1);
           if val.Failed? then Failed
           else Wrote([Tag('h'), 1, 0, 0, 0, 1, 0, 0, 0] + Four(c.hkey) + key.bytes + val.bytes, val.refs)
  {
    hide Ser, SerItems;
    OneCell(c);
    OneBucket(h, c, refs, depth);
    TwoItems(h, CellItems([c]), refs, depth + 1);
    var key := Ser(h, c.key, refs, depth + 1);
    if key.Wrote? {
      var val := Ser(h, c.val, key.refs, depth + 1);
      if val.Wrote? {
        CellJoined(c, key.bytes, val.bytes);
      }
    }
  }

  lemma OneCell(c: HCell)
    ensures Flatten([Bucket([c])]) == [c] && CellItems([c]) == [Item(Int4(c.hkey), c.key), Item([], c.val)]
  {
    assert [c][1..] == [] && CellItems([]) == [];
    assert CellItems([c]) == [Item(Int4(c.hkey), c.key), Item([], c.val)] + [];
  }

  lemma OneBucket(h: Heap, c: HCell, refs: seq<nat>, depth: nat)
    requires depth < MAX_DEPTH
    ensures var items := SerItems(h, CellItems([c]), refs, depth + 1);
      Ser(h, Hash([Bucket([c])]), refs, depth)
      == if items.Failed? then Failed else Wrote([HASH] + Int4(1) + Int4(1) + items.bytes + [], items.refs)
  {
    hide SerItems;
    OneCell(c);
  }

  lemma CellJoined(c: HCell, key: seq<Byte>, val: seq<Byte>)
    ensures [HASH] + Int4(1) + Int4(1) + (Int4(c.hkey) + key + ([] + val)) + []
            == [Tag('h'), 1, 0, 0, 0, 1, 0, 0, 0] + Four(c.hkey) + key + val
  {
    FourIsInt4(c.hkey);
  }

  /** A string or an array is refused exactly when its length is negative or does not fit, or the string's bytes are
      not all there. */
  lemma SizesRefused(b: seq<Byte>, n: int, p: nat, st: State)
    requires p <= |b|
    ensures UnserSized(b, Tag('s'), n, p, st) == Bad <==> n < 0 || n >= 536870912 || p + n > |b|
    ensures n < 0 || n >= 536870912 ==> UnserSized(b, Tag('a'), n, p, st) == Bad
    ensures n == 0 ==> UnserSized(b, Tag('a'), n, p, st) != Bad
  {
  }

  /** The two shared constants are all that a heap needs to begin with. */
  lemma ConstantsSuffice(rest: Heap)
    ensures HasConstants([Str([]), Arr([])] + rest)
  {
  }
}
