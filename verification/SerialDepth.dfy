/** When the writer succeeds: it gives up where values nest more than 350 deep along the way that it takes, and
    otherwise only on what cannot be written at all. */
module SerialDepth {
  import opened MachineInt
  import opened ObjTable
  import opened SerialFormat
  import opened SerialReach
  import opened SerialRenaming
  import opened SerialRoundTrip

  // ------------------------------------------------------------------- nesting

  function FieldValues(fields: seq<Cell<Value>>): seq<Value> {
    if fields == [] then [] else [fields[0].v] + FieldValues(fields[1..])
  }

  function CellValues(cells: seq<HCell>): seq<Value> {
    if cells == [] then [] else [cells[0].key, cells[0].val] + CellValues(cells[1..])
  }

  function BucketValues(buckets: seq<Bucket>): seq<Value> {
    if buckets == [] then [] else CellValues(buckets[0].cells) + BucketValues(buckets[1..])
  }

  /** What a value holds: elements, fields and then the prototype, the keys and values of a table. */
  function Children(h: Heap, v: Value): seq<Value> {
    match v
    case Ref(a) =>
      if a >= |h| then []
      else (
        match h[a]
        case Str(_) => []
        case Arr(vs) => vs
        case Obj(fields, proto) => FieldValues(fields) + if proto.Some? then [Ref(proto.value)] else [])
    case Hash(buckets) => BucketValues(buckets)
    case _ => []
  }

  /** `v` reaches `a` along a path that goes through none of the values before it. */
  ghost predicate Around(h: Heap, v: Value, a: nat, before: seq<Value>) {
    exists path :: ReachesBy(h, v, path, a) && forall x <- path :: Ref(x) !in before
  }

  predicate IsChild(h: Heap, v: Value, k: nat, w: Value) {
    k < |Children(h, v)| && Children(h, v)[k] == w
  }

  /** Child number `e` of the `i`-th value leads to `a` around that value and those before it. */
  ghost predicate Leads(h: Heap, vs: seq<Value>, i: nat, e: nat, a: nat)
    requires i < |vs|
  {
    e < |Children(h, vs[i])| && Around(h, Children(h, vs[i])[e], a, vs[..i + 1])
  }

  /** The way that the writer takes from `vs[0]` to the last value: each is child number `ks[i]` of the one before,
      and what it enters on the way it comes upon for the first time: it is not on the way already, and no elder
      brother of a value on the way leads there around the values above. */
  ghost predicate OnTheWay(h: Heap, vs: seq<Value>, ks: seq<nat>) {
    && |vs| == |ks| + 1
    && (forall i :: 0 <= i < |ks| ==> IsChild(h, vs[i], ks[i], vs[i + 1]))
    && (forall i, j :: 0 <= i < j < |ks| && vs[i].Ref? ==> vs[j] != vs[i])
    && forall i, e, j :: 0 <= i < j < |ks| && 0 <= e < ks[i] && vs[j].Ref? ==> !Leads(h, vs, i, e, vs[j].at)
  }

  /** What the writer comes to is at most 350 deep, and exists and has no method of its own if it is a reference. */
  ghost predicate Writable(h: Heap, root: Value) {
    forall vs, ks :: OnTheWay(h, vs, ks) && vs[0] == root ==> WritableAt(h, vs)
  }

  ghost predicate WritableAt(h: Heap, vs: seq<Value>)
    requires vs != []
  {
    var v := vs[|vs| - 1];
    |vs| <= 350 && (v.Ref? ==> v.at < |h| && NoMethod(h[v.at]))
  }

  /** No field of an object has the id of `__serialize`. */
  predicate NoMethod(node: Node) {
    node.Obj? ==> forall c <- node.fields :: c.id != 589211328
  }

  // ------------------------------------------------------------------- the writer goes through the children

  function ItemValues(items: seq<Item>): (vs: seq<Value>)
    ensures |vs| == |items| && forall i :: 0 <= i < |items| ==> vs[i] == items[i].v
  {
    if items == [] then [] else [items[0].v] + ItemValues(items[1..])
  }

  lemma {:induction false} ArrayChildren(vs: seq<Value>)
    ensures ItemValues(ArrayItems(vs)) == vs
  {
    if vs != [] {
      ArrayChildren(vs[1..]);
      assert ArrayItems(vs)[1..] == ArrayItems(vs[1..]);
    }
  }

  lemma {:induction false} ObjectChildren(fields: seq<Cell<Value>>, proto: Option<nat>)
    ensures ItemValues(ObjectItems(fields, proto))
            == FieldValues(fields) + if proto.Some? then [Ref(proto.value)] else []
  {
    if fields != [] {
      ObjectChildren(fields[1..], proto);
      assert ObjectItems(fields, proto)[1..] == ObjectItems(fields[1..], proto);
    }
  }

  lemma {:induction false} CellChildren(cells: seq<HCell>)
    ensures ItemValues(CellItems(cells)) == CellValues(cells)
  {
    if cells != [] {
      CellChildren(cells[1..]);
      var items := CellItems(cells);
      assert items[1..][1..] == CellItems(cells[1..]);
      assert ItemValues(items[1..]) == [cells[0].val] + ItemValues(CellItems(cells[1..]));
    }
  }

  lemma {:induction false} CellValuesConcat(a: seq<HCell>, b: seq<HCell>)
    ensures CellValues(a + b) == CellValues(a) + CellValues(b)
  {
    if a == [] {
      assert a + b == b;
    } else {
      assert (a + b)[1..] == a[1..] + b;
      CellValuesConcat(a[1..], b);
    }
  }

  lemma {:induction false} BucketChildren(buckets: seq<Bucket>)
    ensures CellValues(Flatten(buckets)) == BucketValues(buckets)
  {
    if buckets != [] {
      CellValuesConcat(buckets[0].cells, Flatten(buckets[1..]));
      BucketChildren(buckets[1..]);
    }
  }

  /** The items that the writer writes for a value that it has not numbered before. */
  function ItemsOf(h: Heap, v: Value): seq<Item> {
    match v
    case Ref(a) => if a < |h| then NodeItems(h[a]) else []
    case Hash(buckets) => CellItems(Flatten(buckets))
    case _ => []
  }

  lemma ItemsAreChildren(h: Heap, v: Value)
    ensures ItemValues(ItemsOf(h, v)) == Children(h, v)
  {
    match v
    case Ref(a) =>
      if a < |h| {
        match h[a]
        case Str(_) =>
        case Arr(vs) => ArrayChildren(vs);
        case Obj(fields, proto) => ObjectChildren(fields, proto);
      }
    case Hash(buckets) =>
      CellChildren(Flatten(buckets));
      BucketChildren(buckets);
    case _ =>
  }

  lemma {:induction false} ItemRefs(items: seq<Item>, i: nat)
    requires i < |items|
    ensures RefsOf(items[i].v) <= ItemsRefs(items)
  {
    if i > 0 {
      ItemRefs(items[1..], i - 1);
    }
  }

  /** A child's references are its parent's. */
  lemma ChildRefs(h: Heap, v: Value, k: nat)
    requires k < |Children(h, v)|
    ensures v.Ref? ==> v.at < |h| && RefsOf(Children(h, v)[k]) <= NodeRefs(h[v.at])
    ensures v.Hash? ==> RefsOf(Children(h, v)[k]) <= RefsOf(v)
    ensures v.Ref? || v.Hash?
  {
    ItemsAreChildren(h, v);
    ItemRefs(ItemsOf(h, v), k);
    match v
    case Ref(a) => NodeItemsRefs(h[a]);
    case Hash(buckets) =>
      CellItemsRefs(Flatten(buckets));
      FlattenRefs(buckets);
    case _ =>
  }

  // ------------------------------------------------------------------- what a value leads to

  lemma AroundOwn(h: Heap, a: nat, before: seq<Value>)
    requires a < |h| && Ref(a) !in before
    ensures Around(h, Ref(a), a, before)
  {
    assert ReachesBy(h, Ref(a), [a], a);
  }

  lemma AroundThrough(h: Heap, v: Value, k: nat, b: nat, before: seq<Value>)
    requires k < |Children(h, v)| && Around(h, Children(h, v)[k], b, before) && (v.Ref? ==> v !in before)
    ensures Around(h, v, b, before)
  {
    hide Children;
    var w := Children(h, v)[k];
    ChildRefs(h, v, k);
    var path :| ReachesBy(h, w, path, b) && forall x <- path :: Ref(x) !in before;
    if v.Ref? {
      assert ReachesBy(h, v, [v.at] + path, b);
    } else {
      assert ReachesBy(h, v, path, b);
    }
  }

  /** The references on the way are numbered. */
  predicate Known(before: seq<Value>, refs: seq<nat>) {
    forall v <- before :: v.Ref? ==> v.at in refs
  }

  /** What the writer numbers below a value, the value leads to. */
  lemma {:induction false} SerAround(h: Heap, v: Value, refs: seq<nat>, depth: nat, b: nat, before: seq<Value>)
    requires depth <= MAX_DEPTH && Ser(h, v, refs, depth).Wrote? && Known(before, refs)
    requires b in Ser(h, v, refs, depth).refs && b !in refs
    ensures Around(h, v, b, before)
    decreases MAX_DEPTH - depth, 0
  {
    hide Around, Children;
    assert ItemsOf(h, v)[0..] == ItemsOf(h, v);
    if v.Hash? {
      var k := SerItemsAround(h, v, 0, refs, depth + 1, b, before);
      AroundThrough(h, v, k, b, before);
    } else if v == Ref(b) {
      AroundOwn(h, b, before);
    } else {
      var k := SerItemsAround(h, v, 0, refs + [v.at], depth + 1, b, before);
      AroundThrough(h, v, k, b, before);
    }
  }

  lemma {:induction false} SerItemsAround(h: Heap, v: Value, n: nat, refs: seq<nat>, depth: nat, b: nat,
                                          before: seq<Value>) returns (k: nat)
    requires n <= |ItemsOf(h, v)| && depth <= MAX_DEPTH && Known(before, refs)
    requires SerItems(h, ItemsOf(h, v)[n..], refs, depth).Wrote?
    requires b in SerItems(h, ItemsOf(h, v)[n..], refs, depth).refs && b !in refs
    ensures k < |Children(h, v)| && Around(h, Children(h, v)[k], b, before)
    decreases MAX_DEPTH - depth, |ItemsOf(h, v)| - n + 1
  {
    hide Around, Children, ItemsOf;
    var items := ItemsOf(h, v);
    ItemsAreChildren(h, v);
    assert items[n..][1..] == items[n + 1..] && Children(h, v)[n] == items[n].v;
    var refs1 := Ser(h, items[n].v, refs, depth).refs;
    if b in refs1 {
      k := n;
      SerAround(h, items[n].v, refs, depth, b, before);
    } else {
      k := SerItemsAround(h, v, n + 1, refs1, depth, b, before);
    }
  }

  /** Apart from those in `before`, nodes that are numbered refer to numbered ones only. */
  ghost predicate Complete(h: Heap, refs: seq<nat>, before: seq<Value>) {
    forall x <- refs :: Ref(x) in before || (x < |h| && NodeRefs(h[x]) <= AsSet(refs))
  }

  /** So whatever a numbered value leads to around `before` is numbered. */
  lemma {:induction false} AroundNumbered(h: Heap, v: Value, path: seq<nat>, a: nat, refs: seq<nat>,
                                          before: seq<Value>)
    requires Complete(h, refs, before) && RefsOf(v) <= AsSet(refs)
    requires ReachesBy(h, v, path, a) && forall x <- path :: Ref(x) !in before
    ensures a in refs
    decreases |path|
  {
    var n := |path| - 1;
    if n > 0 {
      AroundNumbered(h, v, path[..n], path[n - 1], refs, before);
      assert path[n - 1] in path && path[n - 1 + 1] in NodeRefs(h[path[n - 1]]);
    }
  }

  lemma CompleteAfter(h: Heap, v: Value, refs: seq<nat>, depth: nat, before: seq<Value>)
    requires depth <= MAX_DEPTH && Ser(h, v, refs, depth).Wrote? && Complete(h, refs, before)
    ensures Complete(h, Ser(h, v, refs, depth).refs, before) && RefsOf(v) <= AsSet(Ser(h, v, refs, depth).refs)
  {
    hide Ser, NodeRefs, RefsOf, Covered, NodeCovered;
    var refs1 := Ser(h, v, refs, depth).refs;
    SerCovers(h, v, refs, depth);
    CoveredRefs(v, refs1);
    forall x | x in refs1
      ensures Ref(x) in before || (x < |h| && NodeRefs(h[x]) <= AsSet(refs1))
    {
      var k :| 0 <= k < |refs1| && refs1[k] == x;
      if k < |refs| {
        assert refs[k] == x;
        assert AsSet(refs) <= AsSet(refs1);
      } else {
        NodeCoveredRefs(h[x], refs1);
      }
    }
  }

  // ------------------------------------------------------------------- ways that are too long

  /** From number `i` on, the values on the way have not been numbered. */
  predicate Ahead(vs: seq<Value>, i: int, refs: seq<nat>) {
    forall j :: 0 <= i <= j < |vs| - 1 && vs[j].Ref? ==> vs[j].at !in refs
  }

  /** An elder brother numbers nothing on the way. */
  lemma ElderPasses(h: Heap, vs: seq<Value>, ks: seq<nat>, i: nat, n: nat, refs: seq<nat>)
    requires OnTheWay(h, vs, ks) && i < |ks| <= MAX_DEPTH && Known(vs[..i + 1], refs) && Ahead(vs, i + 1, refs)
    requires n < ks[i] && n < |Children(h, vs[i])| && Ser(h, Children(h, vs[i])[n], refs, i + 1).Wrote?
    ensures Ahead(vs, i + 1, Ser(h, Children(h, vs[i])[n], refs, i + 1).refs)
  {
    hide Children, Ser, Around, Known;
    var refs1 := Ser(h, Children(h, vs[i])[n], refs, i + 1).refs;
    forall j | i < j < |ks| && vs[j].Ref?
      ensures vs[j].at !in refs1
    {
      assert !Leads(h, vs, i, n, vs[j].at);
      if vs[j].at in refs1 {
        SerAround(h, Children(h, vs[i])[n], refs, i + 1, vs[j].at, vs[..i + 1]);
      }
    }
  }

  lemma NextOnWay(h: Heap, vs: seq<Value>, ks: seq<nat>, i: nat)
    requires OnTheWay(h, vs, ks) && i < |ks|
    ensures ks[i] < |ItemsOf(h, vs[i])| && ItemsOf(h, vs[i])[ks[i]].v == vs[i + 1]
    ensures vs[i].Hash? || (vs[i].Ref? && vs[i].at < |h|)
  {
    hide Children, ItemsOf, Around;
    assert IsChild(h, vs[i], ks[i], vs[i + 1]);
    ChildRefs(h, vs[i], ks[i]);
    ItemsAreChildren(h, vs[i]);
  }

  lemma EnteredOnWay(h: Heap, vs: seq<Value>, ks: seq<nat>, i: nat, refs: seq<nat>)
    requires OnTheWay(h, vs, ks) && i < |ks| && Known(vs[..i], refs) && Ahead(vs, i, refs)
    ensures var entered := if vs[i].Ref? then refs + [vs[i].at] else refs;
      Known(vs[..i + 1], entered) && Ahead(vs, i + 1, entered)
  {
    assert vs[..i + 1] == vs[..i] + [vs[i]];
  }

  /** A way of 351 values fails from each of them on, when nothing further down has been numbered. */
  lemma {:induction false} WayFails(h: Heap, vs: seq<Value>, ks: seq<nat>, i: nat, refs: seq<nat>)
    requires OnTheWay(h, vs, ks) && |vs| == |ks| + 1 == MAX_DEPTH + 1 && i <= |ks|
    requires Known(vs[..i], refs) && Ahead(vs, i, refs)
    ensures Ser(h, vs[i], refs, i).Failed?
    decreases MAX_DEPTH - i, 1, 0
  {
    hide OnTheWay, Known, Hooked;
    if i < |ks| {
      NextOnWay(h, vs, ks, i);
      EnteredOnWay(h, vs, ks, i, refs);
      assert ItemsOf(h, vs[i])[0..] == ItemsOf(h, vs[i]);
      ItemsFail(h, vs, ks, i, 0, if vs[i].Ref? then refs + [vs[i].at] else refs);
    }
  }

  lemma {:induction false} ItemsFail(h: Heap, vs: seq<Value>, ks: seq<nat>, i: nat, n: nat, refs: seq<nat>)
    requires OnTheWay(h, vs, ks) && |vs| == |ks| + 1 == MAX_DEPTH + 1 && i < |ks|
    requires Known(vs[..i + 1], refs) && Ahead(vs, i + 1, refs)
    requires n <= ks[i] < |ItemsOf(h, vs[i])|
    ensures SerItems(h, ItemsOf(h, vs[i])[n..], refs, i + 1).Failed?
    decreases MAX_DEPTH - i, 0, ks[i] - n
  {
    hide OnTheWay, Known, Ahead, ItemsOf, Children, Ser;
    var items := ItemsOf(h, vs[i]);
    NextOnWay(h, vs, ks, i);
    ItemsAreChildren(h, vs[i]);
    assert items[n..][1..] == items[n + 1..] && Children(h, vs[i])[n] == items[n].v;
    if n == ks[i] {
      WayFails(h, vs, ks, i + 1, refs);
    } else if Ser(h, items[n].v, refs, i + 1).Wrote? {
      KnownAfter(h, items[n].v, vs[..i + 1], refs, i + 1);
      ElderPasses(h, vs, ks, i, n, refs);
      ItemsFail(h, vs, ks, i, n + 1, Ser(h, items[n].v, refs, i + 1).refs);
    }
  }

  lemma KnownAfter(h: Heap, v: Value, before: seq<Value>, refs: seq<nat>, depth: nat)
    requires depth <= MAX_DEPTH && Known(before, refs) && Ser(h, v, refs, depth).Wrote?
    ensures Known(before, Ser(h, v, refs, depth).refs)
  {
  }

  // ------------------------------------------------------------------- ways that are not

  /** Whatever the elder brothers below the `i`-th value lead to is numbered. */
  ghost predicate EldersDone(h: Heap, vs: seq<Value>, i: nat, n: nat, refs: seq<nat>)
    requires i < |vs|
  {
    forall e, a :: 0 <= e < n && Leads(h, vs, i, e, a) ==> a in refs
  }

  /** The writer has come to the last value on the way, with what lies aside of it numbered. */
  ghost predicate Arrived(h: Heap, vs: seq<Value>, ks: seq<nat>, refs: seq<nat>) {
    && OnTheWay(h, vs, ks) && Known(vs[..|ks|], refs) && Complete(h, refs, vs[..|ks|])
    && forall i :: 0 <= i < |ks| ==> EldersDone(h, vs, i, ks[i], refs)
  }

  /** A value that is entered for the first time has its children on the way. */
  lemma ChildOnWay(h: Heap, vs: seq<Value>, ks: seq<nat>, k: nat, refs: seq<nat>)
    requires Arrived(h, vs, ks, refs) && k < |Children(h, vs[|ks|])|
    requires vs[|ks|].Ref? ==> vs[|ks|].at !in refs
    ensures OnTheWay(h, vs + [Children(h, vs[|ks|])[k]], ks + [k])
  {
    hide Children, Around, Complete;
    var vs1, ks1, m := vs + [Children(h, vs[|ks|])[k]], ks + [k], |ks|;
    forall i | 0 <= i < |ks1|
      ensures IsChild(h, vs1[i], ks1[i], vs1[i + 1])
    {
      if i < m {
        assert IsChild(h, vs[i], ks[i], vs[i + 1]);
      }
    }
    forall i, j | 0 <= i < j < |ks1| && vs1[i].Ref?
      ensures vs1[j] != vs1[i]
    {
      if j == m {
        assert vs[i] in vs[..m];
      }
    }
    forall i, e, j | 0 <= i < j < |ks1| && 0 <= e < ks1[i] && vs1[j].Ref?
      ensures !Leads(h, vs1, i, e, vs1[j].at)
    {
      assert vs1[..i + 1] == vs[..i + 1];
      assert Leads(h, vs1, i, e, vs1[j].at) <==> Leads(h, vs, i, e, vs1[j].at);
      if j == m {
        assert EldersDone(h, vs, i, ks[i], refs);
      }
    }
  }

  lemma ArrivedAtChild(h: Heap, vs: seq<Value>, ks: seq<nat>, n: nat, refs: seq<nat>)
    requires Entering(h, vs, ks, n, refs) && n < |Children(h, vs[|ks|])|
    ensures Arrived(h, vs + [Children(h, vs[|ks|])[n]], ks + [n], refs)
  {
    hide Children, Around, Complete, OnTheWay;
    var vs1, ks1 := vs + [Children(h, vs[|ks|])[n]], ks + [n];
    assert vs1[..|ks1|] == vs;
    forall i | 0 <= i < |ks1|
      ensures EldersDone(h, vs1, i, ks1[i], refs)
    {
      assert vs1[..i + 1] == vs[..i + 1];
      assert EldersDone(h, vs, i, if i < |ks| then ks[i] else n, refs);
      forall e, a | 0 <= e < ks1[i] && Leads(h, vs1, i, e, a)
        ensures a in refs
      {
        assert Leads(h, vs, i, e, a);
      }
    }
  }

  /** The writer has entered the last value on the way and written its first `n` children. */
  ghost predicate Entering(h: Heap, vs: seq<Value>, ks: seq<nat>, n: nat, refs: seq<nat>) {
    && |vs| == |ks| + 1 && Known(vs, refs) && Complete(h, refs, vs)
    && (forall i :: 0 <= i < |ks| ==> EldersDone(h, vs, i, ks[i], refs)) && EldersDone(h, vs, |ks|, n, refs)
    && forall k :: 0 <= k < |Children(h, vs[|ks|])| ==> OnTheWay(h, vs + [Children(h, vs[|ks|])[k]], ks + [k])
  }

  lemma Enters(h: Heap, vs: seq<Value>, ks: seq<nat>, refs: seq<nat>)
    requires Arrived(h, vs, ks, refs) && |vs| == |ks| + 1 && (vs[|ks|].Ref? ==> vs[|ks|].at !in refs)
    ensures Entering(h, vs, ks, 0, if vs[|ks|].Ref? then refs + [vs[|ks|].at] else refs)
  {
    hide Children, Around, OnTheWay, NodeRefs;
    var m := |ks|;
    var v := vs[m];
    var entered := if v.Ref? then refs + [v.at] else refs;
    assert vs == vs[..m] + [v];
    assert AsSet(refs) <= AsSet(entered);
    forall k | 0 <= k < |Children(h, v)|
      ensures OnTheWay(h, vs + [Children(h, v)[k]], ks + [k])
    {
      ChildOnWay(h, vs, ks, k, refs);
    }
  }

  lemma NextChild(h: Heap, vs: seq<Value>, ks: seq<nat>, n: nat, refs: seq<nat>)
    requires Entering(h, vs, ks, n, refs) && n < |Children(h, vs[|ks|])| && |ks| < MAX_DEPTH
    requires Ser(h, Children(h, vs[|ks|])[n], refs, |ks| + 1).Wrote?
    ensures Entering(h, vs, ks, n + 1, Ser(h, Children(h, vs[|ks|])[n], refs, |ks| + 1).refs)
  {
    hide Children, OnTheWay, Ser, Complete;
    var m := |ks|;
    var v := Children(h, vs[m])[n];
    var refs1 := Ser(h, v, refs, m + 1).refs;
    KnownAfter(h, v, vs, refs, m + 1);
    CompleteAfter(h, v, refs, m + 1, vs);
    forall e, a | 0 <= e < n + 1 && Leads(h, vs, m, e, a)
      ensures a in refs1
    {
      if e < n {
        assert a in refs;
      } else {
        assert vs[..m + 1] == vs;
        var path :| ReachesBy(h, v, path, a) && forall x <- path :: Ref(x) !in vs;
        AroundNumbered(h, v, path, a, refs1, vs);
      }
    }
  }

  lemma {:induction false} SerOnWay(h: Heap, root: Value, vs: seq<Value>, ks: seq<nat>, refs: seq<nat>)
    requires Writable(h, root) && Arrived(h, vs, ks, refs) && |vs| == |ks| + 1 && vs[0] == root
    ensures |ks| < MAX_DEPTH && Ser(h, vs[|ks|], refs, |ks|).Wrote?
    decreases 351 - |vs|, 0, 0
  {
    hide Arrived, Entering, Hooked, NoMethod, Children;
    WritableHere(h, root, vs, ks, refs);
    var v := vs[|ks|];
    if v.Hash? || (v.Ref? && Find(refs, v.at).None?) {
      Enters(h, vs, ks, refs);
      assert ItemsOf(h, v)[0..] == ItemsOf(h, v);
      ItemsOnWay(h, root, vs, ks, 0, if v.Ref? then refs + [v.at] else refs);
    }
  }

  lemma WritableHere(h: Heap, root: Value, vs: seq<Value>, ks: seq<nat>, refs: seq<nat>)
    requires Writable(h, root) && Arrived(h, vs, ks, refs) && |vs| == |ks| + 1 && vs[0] == root
    ensures WritableAt(h, vs) && (vs[|ks|].Ref? ==> vs[|ks|].at < |h| && !Hooked(h[vs[|ks|].at]))
  {
    assert WritableAt(h, vs);
    if vs[|ks|].Ref? {
      MethodIsHook(h[vs[|ks|].at]);
    }
  }

  lemma MethodIsHook(node: Node)
    ensures NoMethod(node) <==> !Hooked(node)
  {
  }

  lemma {:induction false} ItemsOnWay(h: Heap, root: Value, vs: seq<Value>, ks: seq<nat>, n: nat, refs: seq<nat>)
    requires Writable(h, root) && Entering(h, vs, ks, n, refs) && |vs| == |ks| + 1 <= 350 && vs[0] == root
    requires n <= |ItemsOf(h, vs[|ks|])|
    ensures |vs| <= MAX_DEPTH && SerItems(h, ItemsOf(h, vs[|ks|])[n..], refs, |vs|).Wrote?
    decreases 350 - |vs|, 1, |ItemsOf(h, vs[|ks|])| - n
  {
    hide Writable, Arrived, Entering, ItemsOf, Children;
    var items := ItemsOf(h, vs[|ks|]);
    ItemsAreChildren(h, vs[|ks|]);
    if n < |items| {
      assert items[n..][1..] == items[n + 1..] && Children(h, vs[|ks|])[n] == items[n].v;
      ArrivedAtChild(h, vs, ks, n, refs);
      SerOnWay(h, root, vs + [items[n].v], ks + [n], refs);
      NextChild(h, vs, ks, n, refs);
      ItemsOnWay(h, root, vs, ks, n + 1, Ser(h, items[n].v, refs, |vs|).refs);
    }
  }

  // ------------------------------------------------------------------- the writer on every heap

  /** What is written refers to numbered nodes only, everywhere on the way. */
  lemma {:induction false} WayNumbered(h: Heap, vs: seq<Value>, ks: seq<nat>, i: nat, refs: seq<nat>)
    requires OnTheWay(h, vs, ks) && i <= |ks| && ClosedSet(h, AsSet(refs)) && RefsOf(vs[0]) <= AsSet(refs)
    ensures RefsOf(vs[i]) <= AsSet(refs)
  {
    hide Children;
    if i > 0 {
      WayNumbered(h, vs, ks, i - 1, refs);
      assert IsChild(h, vs[i - 1], ks[i - 1], vs[i - 1 + 1]);
      ChildRefs(h, vs[i - 1], ks[i - 1]);
    }
  }

  lemma ReferenceAt(h: Heap, v: Value, vs: seq<Value>, ks: seq<nat>)
    requires Ser(h, v, [], 0).Wrote? && OnTheWay(h, vs, ks) && vs[0] == v
    ensures vs[|ks|].Ref? ==> vs[|ks|].at < |h| && NoMethod(h[vs[|ks|].at])
  {
    hide Ser, Children, Leads, NodeRefs, Hooked, NoMethod;
    var refs := Ser(h, v, [], 0).refs;
    NumberedClosed(h, v);
    WayNumbered(h, vs, ks, |ks|, refs);
    SerUnhooked(h, v, [], 0);
    if vs[|ks|].Ref? {
      var k :| 0 <= k < |refs| && refs[k] == vs[|ks|].at;
      MethodIsHook(h[refs[k]]);
    }
  }

  lemma LengthAt(h: Heap, v: Value, vs: seq<Value>, ks: seq<nat>)
    requires Ser(h, v, [], 0).Wrote? && OnTheWay(h, vs, ks) && vs[0] == v
    ensures |vs| <= 350
  {
    hide Ser, Children, Leads;
    if |ks| >= 350 {
      WayCut(h, vs, ks, 350);
      WayFails(h, vs[..351], ks[..350], 0, []);
    }
  }

  lemma WrittenAt(h: Heap, v: Value, vs: seq<Value>, ks: seq<nat>)
    requires Ser(h, v, [], 0).Wrote? && OnTheWay(h, vs, ks) && vs[0] == v
    ensures WritableAt(h, vs)
  {
    hide Ser, Children, Leads;
    ReferenceAt(h, v, vs, ks);
    LengthAt(h, v, vs, ks);
  }

  lemma WayCut(h: Heap, vs: seq<Value>, ks: seq<nat>, n: nat)
    requires OnTheWay(h, vs, ks) && n <= |ks|
    ensures OnTheWay(h, vs[..n + 1], ks[..n])
  {
    hide Children, Around;
    var vs1, ks1 := vs[..n + 1], ks[..n];
    forall i | 0 <= i < n
      ensures IsChild(h, vs1[i], ks1[i], vs1[i + 1])
    {
      assert IsChild(h, vs[i], ks[i], vs[i + 1]);
    }
    forall i, e, j | 0 <= i < j < n && 0 <= e < ks1[i] && vs1[j].Ref?
      ensures !Leads(h, vs1, i, e, vs1[j].at)
    {
      assert vs1[..i + 1] == vs[..i + 1];
      assert Leads(h, vs1, i, e, vs1[j].at) <==> Leads(h, vs, i, e, vs1[j].at);
    }
  }

  /** On every heap the writer succeeds if and only if what it comes to is at most 350 deep and can be written. */
  lemma WrittenIff(h: Heap, v: Value)
    ensures Ser(h, v, [], 0).Wrote? <==> Writable(h, v)
  {
    hide WritableAt, Ser;
    if Ser(h, v, [], 0).Wrote? {
      forall vs, ks | vs != [] && OnTheWay(h, vs, ks) && vs[0] == v
        ensures WritableAt(h, vs)
      {
        WrittenAt(h, v, vs, ks);
      }
    } else if Writable(h, v) {
      AtRoot(h, v);
      SerOnWay(h, v, [v], [], []);
    }
  }

  lemma AtRoot(h: Heap, v: Value)
    ensures Arrived(h, [v], [], [])
  {
  }

  // ------------------------------------------------------------------- a condition on nesting alone

  /** Each value holds the next one, and no string, array or object is entered twice. */
  ghost predicate Nest(h: Heap, vs: seq<Value>) {
    && vs != []
    && (forall i :: 0 <= i < |vs| - 1 ==> vs[i + 1] in Children(h, vs[i]))
    && forall i, j :: 0 <= i < j < |vs| - 1 && vs[i].Ref? ==> vs[j] != vs[i]
  }

  lemma WayIsNest(h: Heap, vs: seq<Value>, ks: seq<nat>)
    requires OnTheWay(h, vs, ks)
    ensures Nest(h, vs)
  {
    forall i | 0 <= i < |ks|
      ensures vs[i + 1] in Children(h, vs[i])
    {
      assert IsChild(h, vs[i], ks[i], vs[i + 1]);
    }
  }

  /** Whatever order the writer takes, values that nest at most 350 deep are written. */
  lemma NestsAreWritten(h: Heap, v: Value)
    requires forall vs :: Nest(h, vs) && vs[0] == v ==> WritableAt(h, vs)
    ensures Ser(h, v, [], 0).Wrote?
  {
    hide WritableAt, Nest;
    forall vs, ks | vs != [] && OnTheWay(h, vs, ks) && vs[0] == v
      ensures WritableAt(h, vs)
    {
      WayIsNest(h, vs, ks);
    }
    WrittenIff(h, v);
  }

  /** The round trip for all values that can be written: on every heap below the machine's limits a value that
      nests at most 350 deep, without methods for it and without fields of id 0, is read back. */
  lemma WritableRoundTrip(h: Heap, v: Value, before: Heap)
    requires HeapOk(h) && ValueOk(v, h) && HasConstants(before) && |h| < 0x8000_0000
    requires Writable(h, v)
    ensures Ser(h, v, [], 0).Wrote?
    ensures var w := Ser(h, v, [], 0);
            var r := Unser(w.bytes, 0, State(before, []));
            if NoZeroReached(h, v) then
              && r.Read? && r.pos == |w.bytes| && r.v == Rename(v, w.refs, r.st.trefs)
              && Isomorphic(h, w.refs, before, r.st)
            else r == Bad
  {
    hide Ser, Unser, Isomorphic, Rename, Writable, NoZeroReached;
    WrittenIff(h, v);
    NumbersFit(h, v);
    RoundTrip(h, v, before);
  }

  lemma NumbersFit(h: Heap, v: Value)
    requires Ser(h, v, [], 0).Wrote?
    ensures |Ser(h, v, [], 0).refs| <= |h|
  {
    hide Ser;
    var refs := Ser(h, v, [], 0).refs;
    SerDistinct(h, v, [], 0);
    NumberedClosed(h, v);
    assert forall k :: 0 <= k < |refs| ==> refs[k] in AsSet(refs);
    DistinctBelow(refs, |h|);
  }

  /** There is room for `n` different addresses below `n`. */
  lemma {:induction false} DistinctBelow(refs: seq<nat>, n: nat)
    requires Distinct(refs) && forall a <- refs :: a < n
    ensures |refs| <= n
    decreases n
  {
    if refs == [] {
      return;
    }
    assert refs[0] in refs && 0 < n;
    if k :| 0 <= k < |refs| && refs[k] == n - 1 {
      var others := refs[..k] + refs[k + 1..];
      forall j | 0 <= j < |others|
        ensures others[j] < n - 1
      {
        var i := if j < k then j else j + 1;
        assert others[j] == refs[i] && refs[i] != refs[k] && refs[i] in refs;
      }
      DistinctBelow(others, n - 1);
    } else {
      DistinctBelow(refs, n - 1);
    }
  }

  // ------------------------------------------------------------------- arrays in arrays

  /** `n` arrays, each the only element of the one before, around an empty one. */
  function Boxes(n: nat): Heap {
    seq(n + 1, i requires 0 <= i <= n => if i < n then Arr([Ref(i + 1)]) else Arr([]))
  }

  lemma {:induction false} BoxOnWay(n: nat, vs: seq<Value>, ks: seq<nat>, i: nat)
    requires OnTheWay(Boxes(n), vs, ks) && vs[0] == Ref(0) && i < |vs|
    ensures vs[i] == Ref(i) && i <= n
  {
    if i > 0 {
      BoxOnWay(n, vs, ks, i - 1);
      assert IsChild(Boxes(n), vs[i - 1], ks[i - 1], vs[i - 1 + 1]);
    }
  }

  lemma BoxWay(n: nat)
    requires n >= 350
    ensures OnTheWay(Boxes(n), seq(351, i requires 0 <= i <= 350 => Ref(i)), seq(350, _ => 0))
  {
    var vs, ks := seq(351, i requires 0 <= i <= 350 => Ref(i)), seq(350, _ => 0);
    forall i | 0 <= i < 350
      ensures IsChild(Boxes(n), vs[i], ks[i], vs[i + 1])
    {
      assert Boxes(n)[i] == Arr([Ref(i + 1)]);
    }
  }

  /** They are written if and only if there are fewer than 350. */
  lemma BoxesAreWritten(n: nat)
    ensures Ser(Boxes(n), Ref(0), [], 0).Wrote? <==> n < 350
  {
    hide Ser, Children;
    WrittenIff(Boxes(n), Ref(0));
    if n < 350 {
      forall vs, ks | vs != [] && OnTheWay(Boxes(n), vs, ks) && vs[0] == Ref(0)
        ensures WritableAt(Boxes(n), vs)
      {
        BoxOnWay(n, vs, ks, |vs| - 1);
      }
    } else {
      BoxWay(n);
    }
  }
}
