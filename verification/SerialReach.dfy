/** What a value reaches: the least set of addresses that holds its own references and is closed under those
    of the nodes in it. The writer numbers exactly that. */
module SerialReach {
  import opened MachineInt
  import opened ObjTable
  import opened SerialFormat
  import opened SerialRenaming
  import FieldIntern

  /** The references that a value holds itself. */
  function RefsOf(v: Value): set<nat> {
    match v
    case Ref(a) => {a}
    case Hash(buckets) => BucketsRefs(buckets)
    case _ => {}
  }

  function CellRefs(c: HCell): set<nat> {
    RefsOf(c.key) + RefsOf(c.val)
  }

  function CellsRefs(cells: seq<HCell>): set<nat> {
    if cells == [] then {} else CellRefs(cells[0]) + CellsRefs(cells[1..])
  }

  function BucketsRefs(buckets: seq<Bucket>): set<nat> {
    if buckets == [] then {} else CellsRefs(buckets[0].cells) + BucketsRefs(buckets[1..])
  }

  function ValuesRefs(vs: seq<Value>): set<nat> {
    if vs == [] then {} else RefsOf(vs[0]) + ValuesRefs(vs[1..])
  }

  function FieldsRefs(fields: seq<Cell<Value>>): set<nat> {
    if fields == [] then {} else RefsOf(fields[0].v) + FieldsRefs(fields[1..])
  }

  /** The references in a node: elements, or fields and the prototype. */
  function NodeRefs(node: Node): set<nat> {
    match node
    case Str(_) => {}
    case Arr(vs) => ValuesRefs(vs)
    case Obj(fields, proto) => FieldsRefs(fields) + if proto.Some? then {proto.value} else {}
  }

  predicate ClosedSet(h: Heap, s: set<nat>) {
    forall a <- s :: a < |h| && NodeRefs(h[a]) <= s
  }

  /** `v` reaches `a` along `path`: from a reference of `v`, each address in a node of the one before. */
  predicate ReachesBy(h: Heap, v: Value, path: seq<nat>, a: nat) {
    && path != [] && path[|path| - 1] == a && path[0] in RefsOf(v)
    && (forall i :: 0 <= i < |path| ==> path[i] < |h|)
    && forall i :: 0 <= i < |path| - 1 ==> path[i + 1] in NodeRefs(h[path[i]])
  }

  ghost predicate Reached(h: Heap, v: Value, a: nat) {
    exists path :: ReachesBy(h, v, path, a)
  }

  /** No object that `v` reaches has a field named by the empty string. */
  ghost predicate NoZeroReached(h: Heap, v: Value) {
    forall a: nat :: a < |h| && Reached(h, v, a) ==> NoZeroId(h[a])
  }

  // ------------------------------------------------------------------- paths stay in closed sets

  lemma {:induction false} PathInside(h: Heap, v: Value, path: seq<nat>, a: nat, s: set<nat>)
    requires ReachesBy(h, v, path, a) && ClosedSet(h, s) && RefsOf(v) <= s
    ensures a in s
    decreases |path|
  {
    var n := |path| - 1;
    if n > 0 {
      PathInside(h, v, path[..n], path[n - 1], s);
      assert path[n - 1 + 1] in NodeRefs(h[path[n - 1]]);
    }
  }

  /** Everything that is reached, as a set. */
  ghost function ReachedSet(h: Heap, v: Value): set<nat> {
    set a: nat | a < |h| && Reached(h, v, a)
  }

  lemma OwnReached(h: Heap, v: Value, a: nat)
    requires a in RefsOf(v) && a < |h|
    ensures Reached(h, v, a)
  {
    assert ReachesBy(h, v, [a], a);
  }

  lemma NextReached(h: Heap, v: Value, a: nat, b: nat)
    requires Reached(h, v, a) && a < |h| && b in NodeRefs(h[a]) && b < |h|
    ensures Reached(h, v, b)
  {
    var path :| ReachesBy(h, v, path, a);
    Farther(h, v, path, a, b);
  }

  lemma ReachedClosed(h: Heap, v: Value)
    requires HeapOk(h) && ValueOk(v, h)
    ensures ClosedSet(h, ReachedSet(h, v)) && RefsOf(v) <= ReachedSet(h, v)
  {
    ValueOnHeap(v, h);
    forall a | a in RefsOf(v)
      ensures a in ReachedSet(h, v)
    {
      OwnReached(h, v, a);
    }
    forall a, b | a in ReachedSet(h, v) && b in NodeRefs(h[a])
      ensures b in ReachedSet(h, v)
    {
      NodeOnHeap(h, a);
      NextReached(h, v, a, b);
    }
  }

  lemma Farther(h: Heap, v: Value, path: seq<nat>, a: nat, b: nat)
    requires ReachesBy(h, v, path, a) && b in NodeRefs(h[a]) && b < |h|
    ensures ReachesBy(h, v, path + [b], b)
  {
  }

  // ------------------------------------------------------------------- what has been numbered

  function AsSet(refs: seq<nat>): set<nat> {
    set a | a in refs
  }

  lemma {:induction false} CoveredRefs(v: Value, refs: seq<nat>)
    requires Covered(v, refs)
    ensures RefsOf(v) <= AsSet(refs)
    decreases v
  {
    if v.Hash? {
      BucketsCoveredRefs(v.buckets, refs);
    }
  }

  lemma {:induction false} CellsCoveredRefs(cells: seq<HCell>, refs: seq<nat>)
    requires CellsCovered(cells, refs)
    ensures CellsRefs(cells) <= AsSet(refs)
    decreases cells
  {
    if cells != [] {
      CellCoveredRefs(cells[0], refs);
      CellsCoveredRefs(cells[1..], refs);
    }
  }

  lemma {:induction false} CellCoveredRefs(c: HCell, refs: seq<nat>)
    requires CellCovered(c, refs)
    ensures CellRefs(c) <= AsSet(refs)
    decreases c
  {
    CoveredRefs(c.key, refs);
    CoveredRefs(c.val, refs);
  }

  lemma {:induction false} BucketsCoveredRefs(buckets: seq<Bucket>, refs: seq<nat>)
    requires BucketsCovered(buckets, refs)
    ensures BucketsRefs(buckets) <= AsSet(refs)
    decreases buckets
  {
    if buckets != [] {
      CellsCoveredRefs(buckets[0].cells, refs);
      BucketsCoveredRefs(buckets[1..], refs);
    }
  }

  lemma {:induction false} ValuesCoveredRefs(vs: seq<Value>, refs: seq<nat>)
    requires forall v <- vs :: Covered(v, refs)
    ensures ValuesRefs(vs) <= AsSet(refs)
  {
    if vs != [] {
      CoveredRefs(vs[0], refs);
      ValuesCoveredRefs(vs[1..], refs);
    }
  }

  lemma {:induction false} FieldsCoveredRefs(fields: seq<Cell<Value>>, refs: seq<nat>)
    requires forall c <- fields :: Covered(c.v, refs)
    ensures FieldsRefs(fields) <= AsSet(refs)
  {
    if fields != [] {
      CoveredRefs(fields[0].v, refs);
      FieldsCoveredRefs(fields[1..], refs);
    }
  }

  lemma NodeCoveredRefs(node: Node, refs: seq<nat>)
    requires NodeCovered(node, refs)
    ensures NodeRefs(node) <= AsSet(refs)
  {
    match node
    case Str(_) =>
    case Arr(vs) => ValuesCoveredRefs(vs, refs);
    case Obj(fields, _) => FieldsCoveredRefs(fields, refs);
  }

  // ------------------------------------------------------------------- references lie on the heap

  predicate OnHeap(s: set<nat>, h: Heap) {
    forall a <- s :: a < |h|
  }

  lemma {:induction false} ValueOnHeap(v: Value, h: Heap)
    requires ValueOk(v, h)
    ensures OnHeap(RefsOf(v), h)
    decreases v
  {
    if v.Hash? {
      BucketsOnHeap(v.buckets, h);
    }
  }

  lemma {:induction false} CellOnHeap(c: HCell, h: Heap)
    requires CellOk(c, h)
    ensures OnHeap(CellRefs(c), h)
    decreases c
  {
    ValueOnHeap(c.key, h);
    ValueOnHeap(c.val, h);
  }

  lemma {:induction false} CellsOnHeap(cells: seq<HCell>, h: Heap)
    requires CellsOk(cells, h)
    ensures OnHeap(CellsRefs(cells), h)
    decreases cells
  {
    if cells != [] {
      CellOnHeap(cells[0], h);
      CellsOnHeap(cells[1..], h);
    }
  }

  lemma {:induction false} BucketsOnHeap(buckets: seq<Bucket>, h: Heap)
    requires BucketsOk(buckets, h)
    ensures OnHeap(BucketsRefs(buckets), h)
    decreases buckets
  {
    if buckets != [] {
      CellsOnHeap(buckets[0].cells, h);
      BucketsOnHeap(buckets[1..], h);
    }
  }

  lemma {:induction false} ValuesOnHeap(vs: seq<Value>, h: Heap)
    requires forall v <- vs :: ValueOk(v, h)
    ensures OnHeap(ValuesRefs(vs), h)
  {
    if vs != [] {
      ValueOnHeap(vs[0], h);
      ValuesOnHeap(vs[1..], h);
    }
  }

  lemma {:induction false} FieldsOnHeap(fields: seq<Cell<Value>>, h: Heap)
    requires forall c <- fields :: ValueOk(c.v, h)
    ensures OnHeap(FieldsRefs(fields), h)
  {
    if fields != [] {
      ValueOnHeap(fields[0].v, h);
      FieldsOnHeap(fields[1..], h);
    }
  }

  lemma NodeOnHeap(h: Heap, a: nat)
    requires HeapOk(h) && a < |h|
    ensures OnHeap(NodeRefs(h[a]), h)
  {
    assert NodeOk(h[a], h);
    match h[a]
    case Str(_) =>
    case Arr(vs) => ValuesOnHeap(vs, h);
    case Obj(fields, _) => FieldsOnHeap(fields, h);
  }

  // ------------------------------------------------------------------- the writer stays in closed sets

  function ItemsRefs(items: seq<Item>): set<nat> {
    if items == [] then {} else RefsOf(items[0].v) + ItemsRefs(items[1..])
  }

  lemma {:induction false} ArrayItemsRefs(vs: seq<Value>)
    ensures ItemsRefs(ArrayItems(vs)) == ValuesRefs(vs)
  {
    if vs != [] {
      ArrayItemsRefs(vs[1..]);
      assert ArrayItems(vs)[1..] == ArrayItems(vs[1..]);
    }
  }

  lemma {:induction false} ObjectItemsRefs(fields: seq<Cell<Value>>, proto: Option<nat>)
    ensures ItemsRefs(ObjectItems(fields, proto)) == NodeRefs(Obj(fields, proto))
  {
    if fields != [] {
      ObjectItemsRefs(fields[1..], proto);
      assert ObjectItems(fields, proto)[1..] == ObjectItems(fields[1..], proto);
    } else if proto.Some? {
      assert ObjectItems(fields, proto)[1..] == [];
    }
  }

  lemma NodeItemsRefs(node: Node)
    ensures ItemsRefs(NodeItems(node)) == NodeRefs(node)
  {
    match node
    case Str(_) =>
    case Arr(vs) => ArrayItemsRefs(vs);
    case Obj(fields, proto) => ObjectItemsRefs(fields, proto);
  }

  lemma {:induction false} CellItemsRefs(cells: seq<HCell>)
    ensures ItemsRefs(CellItems(cells)) == CellsRefs(cells)
  {
    if cells != [] {
      CellItemsRefs(cells[1..]);
      var items := CellItems(cells);
      assert items[1..][1..] == CellItems(cells[1..]);
      assert ItemsRefs(items[1..]) == RefsOf(cells[0].val) + ItemsRefs(CellItems(cells[1..]));
    }
  }

  lemma {:induction false} CellsRefsConcat(a: seq<HCell>, b: seq<HCell>)
    ensures CellsRefs(a + b) == CellsRefs(a) + CellsRefs(b)
  {
    if a == [] {
      assert a + b == b;
    } else {
      assert (a + b)[1..] == a[1..] + b;
      CellsRefsConcat(a[1..], b);
    }
  }

  lemma {:induction false} FlattenRefs(buckets: seq<Bucket>)
    ensures CellsRefs(Flatten(buckets)) == BucketsRefs(buckets)
  {
    if buckets != [] {
      CellsRefsConcat(buckets[0].cells, Flatten(buckets[1..]));
      FlattenRefs(buckets[1..]);
    }
  }

  lemma {:induction false} SerInside(h: Heap, v: Value, refs: seq<nat>, depth: nat, s: set<nat>)
    requires depth <= MAX_DEPTH && Ser(h, v, refs, depth).Wrote?
    requires ClosedSet(h, s) && RefsOf(v) <= s && AsSet(refs) <= s
    ensures AsSet(Ser(h, v, refs, depth).refs) <= s
    decreases MAX_DEPTH - depth, 0
  {
    match v
    case Ref(a) =>
      if Find(refs, a).None? {
        NodeItemsRefs(h[a]);
        SerItemsInside(h, NodeItems(h[a]), refs + [a], depth + 1, s);
      }
    case Hash(buckets) =>
      FlattenRefs(buckets);
      CellItemsRefs(Flatten(buckets));
      SerItemsInside(h, CellItems(Flatten(buckets)), refs, depth + 1, s);
    case _ =>
  }

  lemma {:induction false} SerItemsInside(h: Heap, items: seq<Item>, refs: seq<nat>, depth: nat, s: set<nat>)
    requires depth <= MAX_DEPTH && SerItems(h, items, refs, depth).Wrote?
    requires ClosedSet(h, s) && ItemsRefs(items) <= s && AsSet(refs) <= s
    ensures AsSet(SerItems(h, items, refs, depth).refs) <= s
    decreases MAX_DEPTH - depth, |items| + 1
  {
    if items != [] {
      SerInside(h, items[0].v, refs, depth, s);
      SerItemsInside(h, items[1..], Ser(h, items[0].v, refs, depth).refs, depth, s);
    }
  }

  // ------------------------------------------------------------------- the two are the same

  lemma NumberedClosed(h: Heap, v: Value)
    requires Ser(h, v, [], 0).Wrote?
    ensures ClosedSet(h, AsSet(Ser(h, v, [], 0).refs)) && RefsOf(v) <= AsSet(Ser(h, v, [], 0).refs)
  {
    var refs := Ser(h, v, [], 0).refs;
    SerCovers(h, v, [], 0);
    CoveredRefs(v, refs);
    forall a | a in AsSet(refs)
      ensures a < |h| && NodeRefs(h[a]) <= AsSet(refs)
    {
      var k :| 0 <= k < |refs| && refs[k] == a;
      NodeCoveredRefs(h[a], refs);
    }
  }

  /** The addresses numbered are exactly those reached: the least closed set with the value's references. */
  lemma NumberedIsReached(h: Heap, v: Value, a: nat)
    requires HeapOk(h) && ValueOk(v, h) && Ser(h, v, [], 0).Wrote?
    ensures a in Ser(h, v, [], 0).refs <==> Reached(h, v, a)
  {
    var refs := Ser(h, v, [], 0).refs;
    NumberedClosed(h, v);
    if Reached(h, v, a) {
      var path :| ReachesBy(h, v, path, a);
      PathInside(h, v, path, a, AsSet(refs));
    }
    ReachedClosed(h, v);
    SerInside(h, v, [], 0, ReachedSet(h, v));
    if a in refs {
      assert a in AsSet(refs);
    }
  }

  /** The least such set, in the other direction: it lies in every closed set with the value's references. */
  lemma NumberedIsLeast(h: Heap, v: Value, s: set<nat>)
    requires Ser(h, v, [], 0).Wrote? && ClosedSet(h, s) && RefsOf(v) <= s
    ensures AsSet(Ser(h, v, [], 0).refs) <= s
  {
    SerInside(h, v, [], 0, s);
  }

  /** So the writer's own numbers are clean exactly when nothing reached has a field of id 0. */
  lemma CleanIsNoZeroReached(h: Heap, v: Value)
    requires HeapOk(h) && ValueOk(v, h) && Ser(h, v, [], 0).Wrote?
    ensures Clean(h, Ser(h, v, [], 0).refs, 0) <==> NoZeroReached(h, v)
  {
    var refs := Ser(h, v, [], 0).refs;
    forall a: nat
      ensures a in refs <==> Reached(h, v, a)
    {
      NumberedIsReached(h, v, a);
    }
    if NoZeroReached(h, v) {
      assert forall k :: 0 <= k < |refs| ==> Reached(h, v, refs[k]);
    }
  }

  // ------------------------------------------------------------------- objects with a method for it

  lemma SerializeId()
    ensures FieldIntern.FieldId([95, 95, 115, 101, 114, 105, 97, 108, 105, 122, 101]) == SERIALIZE
  {
    FieldIntern.FieldIdBy(
      [95, 95, 115, 101, 114, 105, 97, 108, 105, 122, 101],
      [0, 95, 21280, 4745555, 1058258866, -231474048, -79105047, -460556200, 375182612, -86139691, 118201861,
       589211328],
      [0, 0, 0, 0, 110, -24, -8, -48, 39, -9, 12]);
  }

  ghost predicate NoneHooked(h: Heap, refs: seq<nat>) {
    forall k :: 0 <= k < |refs| && refs[k] < |h| ==> !Hooked(h[refs[k]])
  }

  lemma {:induction false} SerUnhooked(h: Heap, v: Value, refs: seq<nat>, depth: nat)
    requires depth <= MAX_DEPTH && Ser(h, v, refs, depth).Wrote? && NoneHooked(h, refs)
    ensures NoneHooked(h, Ser(h, v, refs, depth).refs)
    decreases MAX_DEPTH - depth, 0
  {
    match v
    case Ref(a) =>
      if Find(refs, a).None? {
        SerItemsUnhooked(h, NodeItems(h[a]), refs + [a], depth + 1);
      }
    case Hash(buckets) => SerItemsUnhooked(h, CellItems(Flatten(buckets)), refs, depth + 1);
    case _ =>
  }

  lemma {:induction false} SerItemsUnhooked(h: Heap, items: seq<Item>, refs: seq<nat>, depth: nat)
    requires depth <= MAX_DEPTH && SerItems(h, items, refs, depth).Wrote? && NoneHooked(h, refs)
    ensures NoneHooked(h, SerItems(h, items, refs, depth).refs)
    decreases MAX_DEPTH - depth, |items| + 1
  {
    if items != [] {
      SerUnhooked(h, items[0].v, refs, depth);
      SerItemsUnhooked(h, items[1..], Ser(h, items[0].v, refs, depth).refs, depth);
    }
  }

  /** Whatever has been written reaches no object with a field `__serialize`: where one is reached, the writer
      fails. */
  lemma WrittenUnhooked(h: Heap, v: Value, a: nat)
    requires HeapOk(h) && ValueOk(v, h) && a < |h| && Reached(h, v, a) && Hooked(h[a])
    ensures !Ser(h, v, [], 0).Wrote?
  {
    if Ser(h, v, [], 0).Wrote? {
      SerUnhooked(h, v, [], 0);
      NumberedIsReached(h, v, a);
    }
  }
}
