/** The search tree in which the writer finds the numbers of the addresses it has met. */
module RefTree {
  import opened MachineInt
  import opened ObjTable
  import opened SerialFormat

  datatype Tree = Leaf | Node(data: nat, k: nat, left: Tree, right: Tree)

  /** The search: larger addresses are to the left. */
  function Number(t: Tree, a: nat): Option<nat> {
    if t.Leaf? then None
    else if t.data < a then Number(t.left, a)
    else if t.data == a then Some(t.k)
    else Number(t.right, a)
  }

  /** A new leaf where the search for `a` fell out of the tree. */
  function Grown(t: Tree, a: nat, k: nat): Tree {
    if t.Leaf? then Node(a, k, Leaf, Leaf)
    else if t.data < a then t.(left := Grown(t.left, a, k))
    else if t.data == a then t
    else t.(right := Grown(t.right, a, k))
  }

  lemma {:induction false} GrownNumbers(t: Tree, a: nat, k: nat, x: nat)
    requires Number(t, a).None?
    ensures Number(Grown(t, a, k), x) == if x == a then Some(k) else Number(t, x)
  {
    if t.Node? {
      if t.data < a {
        GrownNumbers(t.left, a, k, x);
      } else {
        GrownNumbers(t.right, a, k, x);
      }
    }
  }

  /** The tree answers as a scan of the addresses in numbering order would. */
  ghost predicate Holds(t: Tree, refs: seq<nat>) {
    forall a: nat :: Number(t, a) == Find(refs, a)
  }

  lemma FindAppend(refs: seq<nat>, a: nat, x: nat)
    requires a !in refs
    ensures Find(refs + [a], x) == if x == a then Some(|refs|) else Find(refs, x)
  {
    var more := refs + [a];
    assert more[..|more| - 1] == refs && more[|refs|] == a;
  }

  lemma GrownHolds(t: Tree, refs: seq<nat>, a: nat)
    requires Holds(t, refs) && a !in refs
    ensures Holds(Grown(t, a, |refs|), refs + [a])
  {
    forall x: nat
      ensures Number(Grown(t, a, |refs|), x) == Find(refs + [a], x)
    {
      assert Number(t, a) == Find(refs, a) && Number(t, x) == Find(refs, x);
      GrownNumbers(t, a, |refs|, x);
      FindAppend(refs, a, x);
    }
  }
}
