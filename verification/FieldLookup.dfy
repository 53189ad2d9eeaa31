/** Reading a field through the chain of prototypes. */
module FieldLookup {
  import opened ObjTable

  datatype Object<V> = Object(table: seq<Cell<V>>, proto: Option<nat>)

  /** No chain of prototypes comes back to an object: each leads to one of lower rank. */
  ghost predicate Acyclic<V>(h: seq<Object<V>>, rank: seq<nat>) {
    && |rank| == |h|
    && forall a :: 0 <= a < |h| && h[a].proto.Some? ==> h[a].proto.value < |h| && rank[h[a].proto.value] < rank[a]
  }

  /** The object `n` prototypes up from `a`. */
  function Up<V>(h: seq<Object<V>>, a: nat, n: nat): (b: Option<nat>)
    ensures b.Some? ==> b.value < |h|
    decreases n
  {
    if a >= |h| then None
    else if n == 0 then Some(a)
    else match h[a].proto
      case None => None
      case Some(p) => Up(h, p, n - 1)
  }

  /** What the object `n` up binds `id` to, if it binds it. */
  function Binding<V>(h: seq<Object<V>>, a: nat, n: nat, id: int): Option<V> {
    match Up(h, a, n)
    case None => None
    case Some(b) => Lookup(h[b].table, id)
  }

  /** The first binding along the chain is `v`, or there is none. */
  ghost predicate FirstBinding<V>(h: seq<Object<V>>, a: nat, id: int, v: Option<V>) {
    match v
    case None => forall n: nat :: Binding(h, a, n, id) == None
    case Some(_) =>
      exists n: nat :: Binding(h, a, n, id) == v && forall m: nat :: m < n ==> Binding(h, a, m, id) == None
  }

  lemma {:induction false} UpStep<V>(h: seq<Object<V>>, a: nat, n: nat)
    requires a < |h| && n > 0
    ensures Up(h, a, n) == match h[a].proto case None => None case Some(p) => Up(h, p, n - 1)
  {
  }

  /** One object up: what is first from its prototype is first from it, if it does not bind the id. */
  lemma FirstStep<V>(h: seq<Object<V>>, a: nat, id: int, v: Option<V>)
    requires a < |h| && Lookup(h[a].table, id) == None && h[a].proto.Some?
    requires FirstBinding(h, h[a].proto.value, id, v)
    ensures FirstBinding(h, a, id, v)
  {
    var p := h[a].proto.value;
    forall n: nat | n > 0
      ensures Binding(h, a, n, id) == Binding(h, p, n - 1, id)
    {
      UpStep(h, a, n);
    }
    if v.Some? {
      var n: nat :| Binding(h, p, n, id) == v && forall m: nat :: m < n ==> Binding(h, p, m, id) == None;
      assert Binding(h, a, n + 1, id) == v;
      forall m: nat | m < n + 1
        ensures Binding(h, a, m, id) == None
      {
        if m > 0 {
          assert Binding(h, p, m - 1, id) == None;
        }
      }
    }
  }

  /** The walk of `val_field`, object after object. */
  method Find<V>(h: seq<Object<V>>, ghost rank: seq<nat>, a: nat, id: int) returns (v: Option<V>)
    requires Acyclic(h, rank) && a < |h|
    ensures FirstBinding(h, a, id, v)
  {
    var o: nat := a;
    while true
      invariant o < |h|
      invariant forall w: Option<V> :: FirstBinding(h, o, id, w) ==> FirstBinding(h, a, id, w)
      decreases rank[o]
    {
      v := Lookup(h[o].table, id);
      if v.Some? {
        assert Binding(h, o, 0, id) == v;
        return;
      }
      if h[o].proto.None? {
        assert forall n: nat :: n > 0 ==> Up(h, o, n) == None;
        assert Binding(h, o, 0, id) == None;
        return;
      }
      forall w: Option<V> | FirstBinding(h, h[o].proto.value, id, w)
        ensures FirstBinding(h, o, id, w)
      {
        FirstStep(h, o, id, w);
      }
      o := h[o].proto.value;
    }
  }
}
