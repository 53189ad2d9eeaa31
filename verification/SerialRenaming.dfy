/** What it means for one heap to be another up to addresses, and the tables inside them. */
module SerialRenaming {
  import opened MachineInt
  import opened ObjTable
  import opened SerialFormat

  // ------------------------------------------------------------------- values that can be written

  predicate CellOk(c: HCell, h: Heap) {
    IsInt32(c.hkey) && ValueOk(c.key, h) && ValueOk(c.val, h)
  }

  predicate CellsOk(cells: seq<HCell>, h: Heap) {
    cells == [] || (CellOk(cells[0], h) && CellsOk(cells[1..], h))
  }

  predicate BucketsOk(buckets: seq<Bucket>, h: Heap) {
    buckets == [] || (CellsOk(buckets[0].cells, h) && BucketsOk(buckets[1..], h))
  }

  /** Every cell sits in the bucket that its hash key selects. */
  predicate Placed(buckets: seq<Bucket>) {
    forall i, j :: 0 <= i < |buckets| && 0 <= j < |buckets[i].cells| ==> InBucket(buckets[i].cells[j], i, |buckets|)
  }

  predicate InBucket(c: HCell, i: nat, n: nat)
    requires i < n
  {
    c.hkey >= 0 && c.hkey % n == i
  }

  /** The machine's own limits: 31-bit integers, 32-bit counters, eight-byte floats. */
  predicate ValueOk(v: Value, h: Heap) {
    match v
    case Int(n) => -0x4000_0000 <= n < 0x4000_0000
    case Int32(n) => IsInt32(n)
    case Float(bits) => |bits| == 8
    case Ref(a) => a < |h|
    case Hash(buckets) =>
      Placed(buckets) && IsInt32(|buckets|) && IsInt32(|Flatten(buckets)|) && BucketsOk(buckets, h)
    case _ => true
  }

  predicate NodeOk(node: Node, h: Heap) {
    match node
    case Str(s) => |s| < 0x2000_0000
    case Arr(vs) => |vs| < 0x2000_0000 && forall v <- vs :: ValueOk(v, h)
    case Obj(fields, proto) =>
      && Ascending(fields)
      && (forall c <- fields :: IsInt32(c.id) && ValueOk(c.v, h))
      && (proto.Some? ==> proto.value < |h| && h[proto.value].Obj?)
  }

  predicate HeapOk(h: Heap) {
    forall node <- h :: NodeOk(node, h)
  }

  /** No field of the node has the id 0, which is the id of the empty name. */
  predicate NoZeroId(node: Node) {
    node.Obj? ==> forall c <- node.fields :: c.id != 0
  }

  predicate Clean(h: Heap, refs: seq<nat>, from: nat) {
    forall k :: from <= k < |refs| && refs[k] < |h| ==> NoZeroId(h[refs[k]])
  }

  // ------------------------------------------------------------------- renaming

  /** The value with each numbered address replaced by the address that the reader gave that number. */
  function Rename(v: Value, refs: seq<nat>, trefs: seq<nat>): Value {
    match v
    case Ref(a) => (var k := Find(refs, a); if k.Some? && k.value < |trefs| then Ref(trefs[k.value]) else v)
    case Hash(buckets) => Hash(RenameBuckets(buckets, refs, trefs))
    case _ => v
  }

  function RenameCell(c: HCell, refs: seq<nat>, trefs: seq<nat>): HCell {
    HCell(c.hkey, Rename(c.key, refs, trefs), Rename(c.val, refs, trefs))
  }

  function RenameCells(cells: seq<HCell>, refs: seq<nat>, trefs: seq<nat>): (r: seq<HCell>)
    ensures |r| == |cells|
    ensures forall k :: 0 <= k < |cells| ==> r[k].hkey == cells[k].hkey
  {
    if cells == [] then []
    else [RenameCell(cells[0], refs, trefs)] + RenameCells(cells[1..], refs, trefs)
  }

  function RenameBuckets(buckets: seq<Bucket>, refs: seq<nat>, trefs: seq<nat>): (r: seq<Bucket>)
    ensures |r| == |buckets|
    ensures forall k :: 0 <= k < |buckets| ==> r[k].cells == RenameCells(buckets[k].cells, refs, trefs)
  {
    if buckets == [] then []
    else [Bucket(RenameCells(buckets[0].cells, refs, trefs))] + RenameBuckets(buckets[1..], refs, trefs)
  }

  function RenameNode(node: Node, refs: seq<nat>, trefs: seq<nat>): Node {
    match node
    case Str(_) => node
    case Arr(vs) => Arr(seq(|vs|, i requires 0 <= i < |vs| => Rename(vs[i], refs, trefs)))
    case Obj(fields, proto) =>
      Obj(seq(|fields|, i requires 0 <= i < |fields| => Cell(fields[i].id, Rename(fields[i].v, refs, trefs))),
          match proto
          case None => None
          case Some(p) => (match Rename(Ref(p), refs, trefs) case Ref(q) => Some(q) case _ => None))
  }

  // ------------------------------------------------------------------- all references are numbered

  predicate Covered(v: Value, refs: seq<nat>) {
    match v
    case Ref(a) => a in refs
    case Hash(buckets) => BucketsCovered(buckets, refs)
    case _ => true
  }

  predicate CellCovered(c: HCell, refs: seq<nat>) {
    Covered(c.key, refs) && Covered(c.val, refs)
  }

  predicate CellsCovered(cells: seq<HCell>, refs: seq<nat>) {
    cells == [] || (CellCovered(cells[0], refs) && CellsCovered(cells[1..], refs))
  }

  predicate BucketsCovered(buckets: seq<Bucket>, refs: seq<nat>) {
    buckets == [] || (CellsCovered(buckets[0].cells, refs) && BucketsCovered(buckets[1..], refs))
  }

  predicate NodeCovered(node: Node, refs: seq<nat>) {
    match node
    case Str(_) => true
    case Arr(vs) => forall v <- vs :: Covered(v, refs)
    case Obj(fields, proto) =>
      (forall c <- fields :: Covered(c.v, refs)) && (proto.Some? ==> proto.value in refs)
  }

  lemma {:induction false} FindStable(refs: seq<nat>, more: seq<nat>, a: nat)
    requires refs <= more && a in refs
    ensures Find(more, a) == Find(refs, a)
    decreases |more|
  {
    if |refs| < |more| {
      var n := |more| - 1;
      assert refs <= more[..n];
      FindStable(refs, more[..n], a);
    } else {
      assert refs == more;
    }
  }

  predicate Extends(refs: seq<nat>, trefs: seq<nat>, refs': seq<nat>, trefs': seq<nat>) {
    |refs| == |trefs| && |refs'| == |trefs'| && refs <= refs' && trefs <= trefs'
  }

  /** Once its references are numbered, a value's renaming no longer changes. */
  lemma {:induction false} RenameStable(v: Value, refs: seq<nat>, trefs: seq<nat>, refs': seq<nat>, trefs': seq<nat>)
    requires Extends(refs, trefs, refs', trefs') && Covered(v, refs)
    ensures Covered(v, refs') && Rename(v, refs', trefs') == Rename(v, refs, trefs)
    decreases v
  {
    match v
    case Ref(a) => FindStable(refs, refs', a);
    case Hash(buckets) => RenameBucketsStable(buckets, refs, trefs, refs', trefs');
    case _ =>
  }

  lemma {:induction false} RenameCellStable(c: HCell, refs: seq<nat>, trefs: seq<nat>, refs': seq<nat>,
                                            trefs': seq<nat>)
    requires Extends(refs, trefs, refs', trefs') && CellCovered(c, refs)
    ensures CellCovered(c, refs') && RenameCell(c, refs', trefs') == RenameCell(c, refs, trefs)
    decreases c
  {
    RenameStable(c.key, refs, trefs, refs', trefs');
    RenameStable(c.val, refs, trefs, refs', trefs');
  }

  lemma {:induction false} RenameCellsStable(cells: seq<HCell>, refs: seq<nat>, trefs: seq<nat>, refs': seq<nat>,
                                             trefs': seq<nat>)
    requires Extends(refs, trefs, refs', trefs') && CellsCovered(cells, refs)
    ensures CellsCovered(cells, refs') && RenameCells(cells, refs', trefs') == RenameCells(cells, refs, trefs)
    decreases cells
  {
    if cells != [] {
      RenameCellStable(cells[0], refs, trefs, refs', trefs');
      RenameCellsStable(cells[1..], refs, trefs, refs', trefs');
    }
  }

  lemma {:induction false} RenameBucketsStable(buckets: seq<Bucket>, refs: seq<nat>, trefs: seq<nat>, refs': seq<nat>,
                                               trefs': seq<nat>)
    requires Extends(refs, trefs, refs', trefs') && BucketsCovered(buckets, refs)
    ensures BucketsCovered(buckets, refs')
      && RenameBuckets(buckets, refs', trefs') == RenameBuckets(buckets, refs, trefs)
    decreases buckets
  {
    if buckets != [] {
      RenameCellsStable(buckets[0].cells, refs, trefs, refs', trefs');
      RenameBucketsStable(buckets[1..], refs, trefs, refs', trefs');
    }
  }

  lemma RenameNodeStable(node: Node, refs: seq<nat>, trefs: seq<nat>, refs': seq<nat>, trefs': seq<nat>)
    requires Extends(refs, trefs, refs', trefs') && NodeCovered(node, refs)
    ensures NodeCovered(node, refs') && RenameNode(node, refs', trefs') == RenameNode(node, refs, trefs)
  {
    match node
    case Str(_) =>
    case Arr(vs) =>
      forall v | v in vs
        ensures Covered(v, refs') && Rename(v, refs', trefs') == Rename(v, refs, trefs)
      {
        RenameStable(v, refs, trefs, refs', trefs');
      }
    case Obj(fields, proto) =>
      forall c | c in fields
        ensures Covered(c.v, refs') && Rename(c.v, refs', trefs') == Rename(c.v, refs, trefs)
      {
        RenameStable(c.v, refs, trefs, refs', trefs');
      }
      if proto.Some? {
        RenameStable(Ref(proto.value), refs, trefs, refs', trefs');
      }
  }

  // ------------------------------------------------------------------- what the writer has numbered

  predicate ItemsCovered(items: seq<Item>, refs: seq<nat>) {
    items == [] || (Covered(items[0].v, refs) && ItemsCovered(items[1..], refs))
  }

  ghost predicate Seen(h: Heap, refs: seq<nat>, from: nat, refs': seq<nat>) {
    && refs <= refs'
    && forall k :: from <= k < |refs'| ==> refs'[k] < |h| && NodeCovered(h[refs'[k]], refs')
  }

  lemma SeenThen(h: Heap, refs: seq<nat>, refs1: seq<nat>, refs2: seq<nat>)
    requires Seen(h, refs, |refs|, refs1) && Seen(h, refs1, |refs1|, refs2)
    ensures Seen(h, refs, |refs|, refs2)
  {
    forall k | |refs| <= k < |refs1|
      ensures refs2[k] < |h| && NodeCovered(h[refs2[k]], refs2)
    {
      assert refs2[k] == refs1[k];
      RenameNodeStable(h[refs1[k]], refs1, refs1, refs2, refs2);
    }
  }

  /** When the writer returns, everything below the nodes it numbered is numbered too. */
  lemma {:induction false} SerCovers(h: Heap, v: Value, refs: seq<nat>, depth: nat)
    requires depth <= MAX_DEPTH && Ser(h, v, refs, depth).Wrote?
    ensures Covered(v, Ser(h, v, refs, depth).refs)
    ensures Seen(h, refs, |refs|, Ser(h, v, refs, depth).refs)
    decreases MAX_DEPTH - depth, 0
  {
    hide Flatten, NodeItems, CellItems, Hooked, NodeHead, NodeTail, Int4, SerItems, NodeCovered;
    match v
    case Ref(a) =>
      if Find(refs, a).None? {
        SerItemsCovers(h, NodeItems(h[a]), refs + [a], depth + 1);
        var refs2 := Ser(h, v, refs, depth).refs;
        ItemsCoverNode(h[a], refs2);
        assert refs2[|refs|] == a;
      }
    case Hash(buckets) =>
      SerItemsCovers(h, CellItems(Flatten(buckets)), refs, depth + 1);
      var refs2 := Ser(h, v, refs, depth).refs;
      ItemsCoverCells(Flatten(buckets), refs2);
      FlattenCovers(buckets, refs2);
    case _ =>
  }

  lemma {:induction false} SerItemsCovers(h: Heap, items: seq<Item>, refs: seq<nat>, depth: nat)
    requires depth <= MAX_DEPTH && SerItems(h, items, refs, depth).Wrote?
    ensures ItemsCovered(items, SerItems(h, items, refs, depth).refs)
    ensures Seen(h, refs, |refs|, SerItems(h, items, refs, depth).refs)
    decreases MAX_DEPTH - depth, |items| + 1
  {
    if items != [] {
      SerCovers(h, items[0].v, refs, depth);
      var refs1 := Ser(h, items[0].v, refs, depth).refs;
      SerItemsCovers(h, items[1..], refs1, depth);
      var refs2 := SerItems(h, items[1..], refs1, depth).refs;
      RenameStable(items[0].v, refs1, refs1, refs2, refs2);
      SeenThen(h, refs, refs1, refs2);
    }
  }

  lemma ItemsCoverNode(node: Node, refs: seq<nat>)
    requires ItemsCovered(NodeItems(node), refs)
    ensures NodeCovered(node, refs)
  {
    match node
    case Str(_) =>
    case Arr(vs) => ItemsCoverArray(vs, refs);
    case Obj(fields, proto) => ItemsCoverObject(fields, proto, refs);
  }

  lemma {:induction false} ItemsCoverArray(vs: seq<Value>, refs: seq<nat>)
    requires ItemsCovered(ArrayItems(vs), refs)
    ensures forall v <- vs :: Covered(v, refs)
  {
    if vs != [] {
      ItemsCoverArray(vs[1..], refs);
      assert vs == [vs[0]] + vs[1..];
    }
  }

  lemma {:induction false} ItemsCoverObject(fields: seq<Cell<Value>>, proto: Option<nat>, refs: seq<nat>)
    requires ItemsCovered(ObjectItems(fields, proto), refs)
    ensures forall c <- fields :: Covered(c.v, refs)
    ensures proto.Some? ==> proto.value in refs
  {
    if fields != [] {
      ItemsCoverObject(fields[1..], proto, refs);
      assert fields == [fields[0]] + fields[1..];
    }
  }

  lemma {:induction false} ItemsCoverCells(cells: seq<HCell>, refs: seq<nat>)
    requires ItemsCovered(CellItems(cells), refs)
    ensures CellsCovered(cells, refs)
  {
    if cells != [] {
      var items := CellItems(cells);
      assert items[1..][1..] == CellItems(cells[1..]);
      ItemsCoverCells(cells[1..], refs);
    }
  }

  lemma {:induction false} CellsCoveredSplit(a: seq<HCell>, b: seq<HCell>, refs: seq<nat>)
    ensures CellsCovered(a + b, refs) <==> CellsCovered(a, refs) && CellsCovered(b, refs)
  {
    if a == [] {
      assert a + b == b;
    } else {
      assert (a + b)[1..] == a[1..] + b;
      CellsCoveredSplit(a[1..], b, refs);
    }
  }

  lemma {:induction false} FlattenCovers(buckets: seq<Bucket>, refs: seq<nat>)
    requires CellsCovered(Flatten(buckets), refs)
    ensures BucketsCovered(buckets, refs)
  {
    if buckets != [] {
      CellsCoveredSplit(buckets[0].cells, Flatten(buckets[1..]), refs);
      FlattenCovers(buckets[1..], refs);
    }
  }

  // ------------------------------------------------------------------- tables, bucket by bucket

  function PlaceAll(buckets: seq<Bucket>, cells: seq<HCell>): (r: seq<Bucket>)
    requires cells != [] ==> |buckets| > 0
    requires forall c <- cells :: c.hkey >= 0
    ensures |r| == |buckets|
    decreases |cells|
  {
    if cells == [] then buckets else PlaceAll(Place(buckets, cells[0]), cells[1..])
  }

  /** The cells of one bucket all end up in it, in order. */
  lemma {:induction false} PlaceChain(buckets: seq<Bucket>, i: nat, cells: seq<HCell>, rest: seq<HCell>)
    requires i < |buckets|
    requires forall c <- cells :: InBucket(c, i, |buckets|)
    requires forall c <- rest :: c.hkey >= 0
    ensures forall c <- cells + rest :: c.hkey >= 0
    ensures PlaceAll(buckets, cells + rest) ==
            PlaceAll(buckets[i := Bucket(buckets[i].cells + cells)], rest)
    decreases |cells|
  {
    if cells == [] {
      assert cells + rest == rest && buckets[i].cells + cells == buckets[i].cells;
      assert buckets[i := buckets[i]] == buckets;
    } else {
      assert (cells + rest)[0] == cells[0] && (cells + rest)[1..] == cells[1..] + rest;
      assert InBucket(cells[0], i, |buckets|);
      var next := Place(buckets, cells[0]);
      PlaceChain(next, i, cells[1..], rest);
      assert buckets[i].cells + [cells[0]] + cells[1..] == buckets[i].cells + cells;
      assert next[i := Bucket(next[i].cells + cells[1..])] == buckets[i := Bucket(buckets[i].cells + cells)];
    }
  }

  lemma {:induction false} FlattenKeys(buckets: seq<Bucket>, n: nat, from: nat)
    requires from + |buckets| == n
    requires forall i, j ::
      0 <= i < |buckets| && 0 <= j < |buckets[i].cells| ==> InBucket(buckets[i].cells[j], from + i, n)
    ensures forall c <- Flatten(buckets) :: c.hkey >= 0
  {
    if buckets != [] {
      forall i, j | 0 <= i < |buckets[1..]| && 0 <= j < |buckets[1..][i].cells|
        ensures InBucket(buckets[1..][i].cells[j], from + 1 + i, n)
      {
        assert InBucket(buckets[i + 1].cells[j], from + (i + 1), n);
      }
      FlattenKeys(buckets[1..], n, from + 1);
      forall c | c in buckets[0].cells
        ensures c.hkey >= 0
      {
        var j :| 0 <= j < |buckets[0].cells| && buckets[0].cells[j] == c;
        assert InBucket(buckets[0].cells[j], from + 0, n);
      }
    }
  }

  lemma KeysFrom(all: seq<Bucket>, i: nat)
    requires i <= |all| && Placed(all)
    ensures forall c <- Flatten(all[i..]) :: c.hkey >= 0
  {
    forall k, j | 0 <= k < |all[i..]| && 0 <= j < |all[i..][k].cells|
      ensures InBucket(all[i..][k].cells[j], i + k, |all|)
    {
      assert InBucket(all[i + k].cells[j], i + k, |all|);
    }
    FlattenKeys(all[i..], |all|, i);
  }

  lemma OwnBucket(all: seq<Bucket>, i: nat)
    requires i < |all| && Placed(all)
    ensures forall c <- all[i].cells :: InBucket(c, i, |all|)
  {
    forall c | c in all[i].cells
      ensures InBucket(c, i, |all|)
    {
      var j :| 0 <= j < |all[i].cells| && all[i].cells[j] == c;
      assert InBucket(all[i].cells[j], i, |all|);
    }
  }

  /** Filling one of the empty chains. */
  lemma ChainFilled(all: seq<Bucket>, i: nat)
    requires i < |all|
    ensures var now := all[..i] + Chains(|all| - i);
      && now[i := Bucket(now[i].cells + all[i].cells)] == all[..i + 1] + Chains(|all| - (i + 1))
  {
    var now := all[..i] + Chains(|all| - i);
    assert now[i].cells + all[i].cells == all[i].cells;
    assert now[i := all[i]] == all[..i + 1] + Chains(|all| - (i + 1));
  }

  /** Placing the cells of a well-formed table one by one, in the order in which they were written,
      gives the table back. */
  lemma {:induction false} RebuildFrom(all: seq<Bucket>, i: nat)
    requires i <= |all| && Placed(all)
    ensures forall c <- Flatten(all[i..]) :: c.hkey >= 0
    ensures PlaceAll(all[..i] + Chains(|all| - i), Flatten(all[i..])) == all
    decreases |all| - i
  {
    KeysFrom(all, i);
    if i < |all| {
      RebuildFrom(all, i + 1);
      assert all[i..][1..] == all[i + 1..] && all[i..][0] == all[i];
      OwnBucket(all, i);
      PlaceChain(all[..i] + Chains(|all| - i), i, all[i].cells, Flatten(all[i + 1..]));
      ChainFilled(all, i);
    } else {
      assert all[..i] + Chains(0) == all;
    }
  }

  lemma {:induction false} RenameCellsConcat(a: seq<HCell>, b: seq<HCell>, refs: seq<nat>, trefs: seq<nat>)
    ensures RenameCells(a + b, refs, trefs) == RenameCells(a, refs, trefs) + RenameCells(b, refs, trefs)
  {
    if a == [] {
      assert a + b == b;
    } else {
      assert (a + b)[1..] == a[1..] + b;
      RenameCellsConcat(a[1..], b, refs, trefs);
    }
  }

  lemma {:induction false} FlattenRenames(buckets: seq<Bucket>, refs: seq<nat>, trefs: seq<nat>)
    ensures Flatten(RenameBuckets(buckets, refs, trefs)) == RenameCells(Flatten(buckets), refs, trefs)
  {
    if buckets != [] {
      FlattenRenames(buckets[1..], refs, trefs);
      RenameCellsConcat(buckets[0].cells, Flatten(buckets[1..]), refs, trefs);
      assert RenameBuckets(buckets, refs, trefs)[1..] == RenameBuckets(buckets[1..], refs, trefs);
    }
  }

  /** Renaming and rebuilding commute. */
  lemma TableRebuilt(buckets: seq<Bucket>, refs: seq<nat>, trefs: seq<nat>)
    requires Placed(buckets)
    ensures forall c <- RenameCells(Flatten(buckets), refs, trefs) :: c.hkey >= 0
    ensures buckets == [] ==> Flatten(buckets) == []
    ensures PlaceAll(Chains(|buckets|), RenameCells(Flatten(buckets), refs, trefs))
      == RenameBuckets(buckets, refs, trefs)
  {
    var renamed := RenameBuckets(buckets, refs, trefs);
    forall i, j | 0 <= i < |renamed| && 0 <= j < |renamed[i].cells|
      ensures InBucket(renamed[i].cells[j], i, |renamed|)
    {
      assert InBucket(buckets[i].cells[j], i, |buckets|);
    }
    RebuildFrom(renamed, 0);
    FlattenRenames(buckets, refs, trefs);
    assert renamed[0..] == renamed && renamed[..0] + Chains(|renamed|) == Chains(|renamed|);
  }
}
