/** The size of everything a value reaches: each node counted once, whatever the sharing and cycles. */
module MemSize {
  import opened AddressSet

  datatype Value = Immediate | Ref(at: nat)

  datatype Node =
    | Flt
    | Str(len: nat)
    | Arr(items: seq<Value>)
    | Obj(fields: seq<Value>, proto: Value)

  type Heap = seq<Node>

  // Sizes of the C structures on a 64-bit machine.
  const WORD: nat := 8
  const VFLOAT: nat := 12
  const VOBJECT: nat := 32
  const OBJCELL: nat := 16

  function OwnSize(node: Node): nat {
    match node
    case Flt => VFLOAT
    case Str(len) => WORD + len
    case Arr(items) => WORD + WORD * |items|
    case Obj(fields, _) => VOBJECT + OBJCELL * |fields|
  }

  /** In bytes. */
  lemma OwnSizes(node: Node)
    ensures OwnSize(node)
            == match node
               case Flt => 12
               case Str(len) => 8 + len
               case Arr(items) => 8 + 8 * |items|
               case Obj(fields, _) => 32 + 16 * |fields|
  {
  }

  /** The values that a node holds, in the order in which they are visited. */
  function Held(node: Node): seq<Value> {
    match node
    case Flt => []
    case Str(_) => []
    case Arr(items) => items
    case Obj(fields, proto) => fields + [proto]
  }

  predicate HeapOk(h: Heap) {
    forall a :: 0 <= a < |h| ==> HeldOk(Held(h[a]), h)
  }

  predicate HeldOk(vs: seq<Value>, h: Heap) {
    forall v <- vs :: v.Ref? ==> v.at < |h|
  }

  // ------------------------------------------------------------------- what is reachable

  function Heads(vs: seq<Value>): set<nat> {
    set v <- vs | v.Ref? :: v.at
  }

  predicate Within(s: set<nat>, h: Heap) {
    forall a <- s :: a < |h|
  }

  predicate Closed(h: Heap, s: set<nat>) {
    Within(s, h) && forall a <- s :: Heads(Held(h[a])) <= s
  }

  function Addresses(h: Heap): set<nat> {
    Below(|h|)
  }

  function Spread(h: Heap, s: set<nat>): set<nat>
    requires Within(s, h)
  {
    s + set a, v | a in s && v in Held(h[a]) && v.Ref? :: v.at
  }

  lemma SpreadOk(h: Heap, s: set<nat>)
    requires HeapOk(h) && Within(s, h)
    ensures Within(Spread(h, s), h) && s <= Spread(h, s) <= Addresses(h)
    ensures Spread(h, s) == s ==> Closed(h, s)
  {
    forall b | b in Spread(h, s)
      ensures b < |h|
    {
      if b !in s {
        var a, v :| a in s && v in Held(h[a]) && v.Ref? && v.at == b;
        assert HeldOk(Held(h[a]), h);
      }
    }
    if Spread(h, s) == s {
      forall a, b | a in s && b in Heads(Held(h[a]))
        ensures b in s
      {
        var v :| v in Held(h[a]) && v.Ref? && v.at == b;
        assert b in Spread(h, s);
      }
    }
  }

  /** The addresses reachable from `s`: what is held is added until nothing new turns up. */
  function Reach(h: Heap, s: set<nat>): (r: set<nat>)
    requires HeapOk(h) && Within(s, h)
    ensures s <= r && Closed(h, r)
    decreases Addresses(h) - s
  {
    SpreadOk(h, s);
    var next := Spread(h, s);
    if next == s then s
    else
      assert Addresses(h) - next < Addresses(h) - s by { var b :| b in next && b !in s; }
      Reach(h, next)
  }

  lemma {:induction false} ReachLeast(h: Heap, s: set<nat>, c: set<nat>)
    requires HeapOk(h) && Within(s, h) && s <= c && Closed(h, c)
    ensures Reach(h, s) <= c
    decreases Addresses(h) - s
  {
    SpreadOk(h, s);
    var next := Spread(h, s);
    if next != s {
      forall b | b in next
        ensures b in c
      {
        if b !in s {
          var a, v :| a in s && v in Held(h[a]) && v.Ref? && v.at == b;
          assert b in Heads(Held(h[a]));
        }
      }
      assert Addresses(h) - next < Addresses(h) - s by { var b :| b in next && b !in s; }
      ReachLeast(h, next, c);
    }
  }

  /** The node at `a` holds a reference to `b`: as an element, in a field, or as its prototype. */
  predicate Holds(h: Heap, a: nat, b: nat)
    requires a < |h|
  {
    match h[a]
    case Arr(items) => Ref(b) in items
    case Obj(fields, proto) => Ref(b) in fields || proto == Ref(b)
    case _ => false
  }

  /** A path from `s` to `a`, each node on it held by the one before. */
  predicate PathTo(h: Heap, s: set<nat>, path: seq<nat>, a: nat) {
    && path != [] && path[0] in s && path[|path| - 1] == a
    && (forall i :: 0 <= i < |path| ==> path[i] < |h|)
    && forall i :: 0 <= i < |path| - 1 ==> Holds(h, path[i], path[i + 1])
  }

  lemma HoldsHeads(h: Heap, a: nat, b: nat)
    requires a < |h|
    ensures Holds(h, a, b) <==> b in Heads(Held(h[a]))
  {
    if h[a].Obj? {
      HeadsConcat(h[a].fields, h[a].proto);
      assert h[a].proto in [h[a].proto];
      assert Ref(b) in h[a].fields <==> b in Heads(h[a].fields);
    } else if h[a].Arr? {
      assert Ref(b) in h[a].items <==> b in Heads(h[a].items);
    }
  }

  lemma {:induction false} PathInside(h: Heap, s: set<nat>, path: seq<nat>, a: nat, c: set<nat>)
    requires PathTo(h, s, path, a) && s <= c && Closed(h, c)
    ensures a in c
    decreases |path|
  {
    var n := |path| - 1;
    if n > 0 {
      PathInside(h, s, path[..n], path[n - 1], c);
      assert Holds(h, path[n - 1], path[n - 1 + 1]);
      HoldsHeads(h, path[n - 1], a);
    }
  }

  ghost function OnPaths(h: Heap, s: set<nat>): set<nat> {
    set a | a in Addresses(h) && exists path :: PathTo(h, s, path, a)
  }

  lemma OnPathsClosed(h: Heap, s: set<nat>)
    requires HeapOk(h) && Within(s, h)
    ensures s <= OnPaths(h, s) && Closed(h, OnPaths(h, s))
  {
    forall a | a in s
      ensures a in OnPaths(h, s)
    {
      assert PathTo(h, s, [a], a);
    }
    forall a, b | a in OnPaths(h, s) && b in Heads(Held(h[a]))
      ensures b in OnPaths(h, s)
    {
      var path :| PathTo(h, s, path, a);
      HoldsHeads(h, a, b);
      assert HeldOk(Held(h[a]), h);
      assert PathTo(h, s, path + [b], b);
    }
  }

  /** Reachable is what a path of elements, fields and prototypes leads to. */
  lemma ReachIffPath(h: Heap, s: set<nat>, a: nat)
    requires HeapOk(h) && Within(s, h)
    ensures a in Reach(h, s) <==> exists path :: PathTo(h, s, path, a)
  {
    OnPathsClosed(h, s);
    ReachLeast(h, s, OnPaths(h, s));
    if path :| PathTo(h, s, path, a) {
      PathInside(h, s, path, a, Reach(h, s));
    }
  }

  // ------------------------------------------------------------------- sums

  /** The sizes of the nodes of `s` below `n`, added up. */
  function Sum(h: Heap, s: set<nat>, n: nat): nat
    requires n <= |h|
  {
    if n == 0 then 0 else Sum(h, s, n - 1) + if n - 1 in s then OwnSize(h[n - 1]) else 0
  }

  function Total(h: Heap, s: set<nat>): nat {
    Sum(h, s, |h|)
  }

  lemma {:induction false} SumSplit(h: Heap, s: set<nat>, t: set<nat>, n: nat)
    requires n <= |h| && s !! t
    ensures Sum(h, s + t, n) == Sum(h, s, n) + Sum(h, t, n)
  {
    if n > 0 {
      SumSplit(h, s, t, n - 1);
    }
  }

  lemma {:induction false} SumNone(h: Heap, n: nat)
    requires n <= |h|
    ensures Sum(h, {}, n) == 0
  {
    if n > 0 {
      SumNone(h, n - 1);
    }
  }

  lemma {:induction false} SumOne(h: Heap, a: nat, n: nat)
    requires n <= |h| && a < |h|
    ensures Sum(h, {a}, n) == if a < n then OwnSize(h[a]) else 0
  {
    if n > 0 {
      SumOne(h, a, n - 1);
    }
  }

  // ------------------------------------------------------------------- the cache

  /** The nodes met so far, in a search tree with smaller addresses to the left. */
  datatype Tree = Leaf | Branch(v: nat, left: Tree, right: Tree)

  function Members(t: Tree): set<nat> {
    if t.Leaf? then {} else Members(t.left) + {t.v} + Members(t.right)
  }

  predicate Ordered(t: Tree) {
    t.Leaf? || (
      && Ordered(t.left) && Ordered(t.right)
      && (forall a <- Members(t.left) :: a < t.v) && (forall a <- Members(t.right) :: t.v < a)
    )
  }

  /** A new leaf where the search for `a` left the tree. */
  function Inserted(t: Tree, a: nat): Tree {
    if t.Leaf? then Branch(a, Leaf, Leaf)
    else if t.v == a then t
    else if t.v > a then t.(left := Inserted(t.left, a))
    else t.(right := Inserted(t.right, a))
  }

  lemma {:induction false} InsertedMembers(t: Tree, a: nat)
    requires Ordered(t)
    ensures Members(Inserted(t, a)) == Members(t) + {a} && Ordered(Inserted(t, a))
  {
    if t.Branch? {
      InsertedMembers(t.left, a);
      InsertedMembers(t.right, a);
    }
  }

  /** The descent of `mem_cache`. */
  method Search(t: Tree, a: nat) returns (found: bool)
    requires Ordered(t)
    ensures found <==> a in Members(t)
  {
    var p := t;
    while p.Branch? && p.v != a
      invariant Ordered(p) && (a in Members(p) <==> a in Members(t))
      decreases p
    {
      p := if p.v > a then p.left else p.right;
    }
    return p.Branch?;
  }

  // ------------------------------------------------------------------- the traversal

  class Sizer {
    var cache: Tree

    ghost function Seen(): set<nat>
      reads this
    {
      Members(cache)
    }

    ghost predicate Valid(h: Heap)
      reads this
    {
      Ordered(cache) && Within(Seen(), h)
    }

    constructor (h: Heap)
      ensures Valid(h) && Seen() == {}
    {
      cache := Leaf;
    }

    /** `mem_cache`: was the node met before? It has been now. */
    method Met(a: nat) returns (before: bool)
      requires Ordered(cache)
      modifies this
      ensures Ordered(cache) && Seen() == old(Seen()) + {a}
      ensures before <==> a in old(Seen())
    {
      before := Search(cache, a);
      if !before {
        InsertedMembers(cache, a);
        cache := Inserted(cache, a);
      }
    }

    /** What a visit adds: `s` is the size of the nodes met for the first time, all of them within
        `bound`, and everything they hold has been met. */
    ghost predicate Visited(h: Heap, was: set<nat>, bound: set<nat>, s: nat)
      reads this
    {
      Valid(h) && Added(h, was, Seen(), bound, s)
    }

    /** `mem_size_rec`. */
    method Size(h: Heap, v: Value, ghost bound: set<nat>) returns (s: nat)
      requires HeapOk(h) && Valid(h) && Closed(h, bound) && Heads([v]) <= bound
      modifies this
      ensures Visited(h, old(Seen()), bound, s) && Heads([v]) <= Seen()
      decreases Addresses(h) - Seen(), 0, 0
    {
      ghost var was := Seen();
      AddedNothing(h, was, bound);
      if v.Immediate? {
        return 0;
      }
      assert v.at in Heads([v]) by { assert v in [v]; }
      var before := Met(v.at);
      if before {
        assert Seen() == was;
        return 0;
      }
      assert Addresses(h) - Seen() < Addresses(h) - was by { assert v.at in Addresses(h) - was; }
      s := SizeNode(h, v.at, bound);
      AddedNode(h, was, v.at, Seen(), bound, s - OwnSize(h[v.at]));
    }

    /** A node met for the first time, and what it holds. */
    method SizeNode(h: Heap, a: nat, ghost bound: set<nat>) returns (s: nat)
      requires HeapOk(h) && Valid(h) && Closed(h, bound) && a in Seen() && a in bound
      modifies this
      ensures s >= OwnSize(h[a]) && Visited(h, old(Seen()), bound, s - OwnSize(h[a]))
      ensures Heads(Held(h[a])) <= Seen()
      decreases Addresses(h) - Seen(), 2, 0
    {
      AddedNothing(h, Seen(), bound);
      match h[a]
      case Flt => s := VFLOAT;
      case Str(len) => s := WORD + len;
      case Arr(items) =>
        var t := SizeItems(h, items, 0, bound);
        s := WORD + WORD * |items| + t;
      case Obj(fields, proto) =>
        HeadsConcat(fields, proto);
        var t := SizeItems(h, fields, OBJCELL, bound);
        ghost var mid := Seen();
        var u := Size(h, proto, bound);
        AddedThen(h, old(Seen()), mid, Seen(), bound, t - OBJCELL * |fields|, u);
        s := VOBJECT + t + u;
    }

    /** The values of an array, or the fields of an object, each of which adds its cell. */
    method SizeItems(h: Heap, vs: seq<Value>, cell: nat, ghost bound: set<nat>) returns (t: nat)
      requires HeapOk(h) && Valid(h) && Closed(h, bound) && Heads(vs) <= bound
      modifies this
      ensures t >= cell * |vs| && Visited(h, old(Seen()), bound, t - cell * |vs|) && Heads(vs) <= Seen()
      decreases Addresses(h) - Seen(), 1, 0
    {
      t := 0;
      AddedNothing(h, Seen(), bound);
      for i := 0 to |vs|
        invariant t >= cell * i && Visited(h, old(Seen()), bound, t - cell * i) && Heads(vs[..i]) <= Seen()
      {
        ghost var mid := Seen();
        HeadsStep(vs, i);
        var u := Size(h, vs[i], bound);
        AddedThen(h, old(Seen()), mid, Seen(), bound, t - cell * i, u);
        CellStep(cell, i);
        t := t + cell + u;
      }
      assert vs[..|vs|] == vs;
    }
  }

  /** From `was` to `now`, all of it within `bound`. */
  ghost predicate Added(h: Heap, was: set<nat>, now: set<nat>, bound: set<nat>, s: nat)
    requires Within(now, h)
  {
    && was <= now <= was + bound
    && s == Total(h, now - was)
    && (forall a <- now - was :: Heads(Held(h[a])) <= now)
  }

  lemma AddedNothing(h: Heap, was: set<nat>, bound: set<nat>)
    requires Within(was, h)
    ensures Added(h, was, was, bound, 0)
  {
    SumNone(h, |h|);
    assert was - was == {};
  }

  lemma AddedThen(h: Heap, was: set<nat>, mid: set<nat>, now: set<nat>, bound: set<nat>, s: nat, t: nat)
    requires Within(mid, h) && Within(now, h)
    requires Added(h, was, mid, bound, s) && Added(h, mid, now, bound, t)
    ensures Added(h, was, now, bound, s + t)
  {
    SumSplit(h, mid - was, now - mid, |h|);
    assert (mid - was) + (now - mid) == now - was;
  }

  lemma AddedNode(h: Heap, was: set<nat>, a: nat, now: set<nat>, bound: set<nat>, s: nat)
    requires Within(now, h) && a < |h| && a !in was && a in bound
    requires Added(h, was + {a}, now, bound, s) && Heads(Held(h[a])) <= now
    ensures Added(h, was, now, bound, OwnSize(h[a]) + s)
  {
    SumOne(h, a, |h|);
    SumSplit(h, {a}, now - (was + {a}), |h|);
    assert {a} + (now - (was + {a})) == now - was;
  }

  lemma HeadsConcat(vs: seq<Value>, v: Value)
    ensures Heads(vs + [v]) == Heads(vs) + Heads([v])
  {
  }

  lemma HeadsStep(vs: seq<Value>, i: nat)
    requires i < |vs|
    ensures Heads(vs[..i + 1]) == Heads(vs[..i]) + Heads([vs[i]]) && Heads([vs[i]]) <= Heads(vs)
  {
    assert vs[..i + 1] == vs[..i] + [vs[i]];
    HeadsConcat(vs[..i], vs[i]);
  }

  lemma CellStep(cell: nat, i: nat)
    ensures cell * (i + 1) == cell * i + cell
  {
  }

  /** `mem_size`: the sizes of the nodes that `v` reaches, each exactly once. */
  method ComputeSize(h: Heap, v: Value) returns (s: nat)
    requires HeapOk(h) && Within(Heads([v]), h)
    ensures s == Total(h, Reach(h, Heads([v])))
  {
    var sizer := new Sizer(h);
    ghost var bound := Reach(h, Heads([v]));
    s := sizer.Size(h, v, bound);
    ReachLeast(h, Heads([v]), sizer.Seen());
    assert sizer.Seen() - {} == sizer.Seen() == bound;
  }
}
