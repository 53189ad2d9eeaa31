/** Chained hash tables, in which a new binding of a key masks the older ones. Keys are equal when the
    comparison says so, and equal keys have equal hash keys. */
module HashTable {
  import opened ObjTable

  datatype HashCell<K, V> = HashCell(hkey: nat, key: K, val: V)
  datatype Hashed<K, V> = Hashed(cells: seq<seq<HashCell<K, V>>>, nitems: int)

  const DEFAULT_SIZE: nat := 7

  /** What a requested number of slots becomes. */
  function Slots(size: int): (n: nat)
    ensures n > 0
  {
    if size <= 0 then DEFAULT_SIZE else size
  }

  // ------------------------------------------------------------------- chains

  /** The first cell of the chain with key `k`, or the chain's length. */
  function FirstAt<K(==), V>(chain: seq<HashCell<K, V>>, k: K): (j: nat)
    ensures j <= |chain|
    ensures j < |chain| ==> chain[j].key == k
    ensures forall i :: 0 <= i < j ==> chain[i].key != k
  {
    if chain == [] || chain[0].key == k then 0 else 1 + FirstAt(chain[1..], k)
  }

  /** The values bound to `k`, the one that masks the others first. */
  function Values<K(==), V>(chain: seq<HashCell<K, V>>, k: K): seq<V> {
    if chain == [] then [] else Own(chain[0], k) + Values(chain[1..], k)
  }

  function Own<K(==), V>(c: HashCell<K, V>, k: K): seq<V> {
    if c.key == k then [c.val] else []
  }

  lemma {:induction false} ValuesConcat<K, V>(x: seq<HashCell<K, V>>, y: seq<HashCell<K, V>>, k: K)
    ensures Values(x + y, k) == Values(x, k) + Values(y, k)
  {
    if x == [] {
      assert x + y == y;
    } else {
      assert (x + y)[1..] == x[1..] + y;
      ValuesConcat(x[1..], y, k);
      assert Own(x[0], k) + (Values(x[1..], k) + Values(y, k)) == Own(x[0], k) + Values(x[1..], k) + Values(y, k);
    }
  }

  lemma {:induction false} ValuesNone<K, V>(chain: seq<HashCell<K, V>>, k: K)
    requires forall c <- chain :: c.key != k
    ensures Values(chain, k) == []
  {
    if chain != [] {
      ValuesNone(chain[1..], k);
    }
  }

  /** The values of `x`, seen from one cell. */
  lemma ValuesAround<K, V>(p: seq<HashCell<K, V>>, c: HashCell<K, V>, q: seq<HashCell<K, V>>, x: K)
    ensures Values(p + [c] + q, x) == Values(p, x) + (Own(c, x) + Values(q, x))
  {
    assert p + [c] + q == p + ([c] + q);
    ValuesConcat(p, [c] + q, x);
    assert ([c] + q)[1..] == q;
  }

  /** What the first cell with key `k` contributes, and what changing or dropping it does. */
  lemma AroundFirst<K, V>(p: seq<HashCell<K, V>>, c: HashCell<K, V>, q: seq<HashCell<K, V>>, v: V, x: K)
    requires forall d <- p :: d.key != c.key
    ensures Values(p + [c] + q, c.key) != [] && Values(p + [c] + q, c.key)[1..] == Values(q, c.key)
    ensures Values(p + [c.(val := v)] + q, x) == if x == c.key then [v] + Values(q, x) else Values(p + [c] + q, x)
    ensures Values(p + q, x) == if x == c.key then Values(q, x) else Values(p + [c] + q, x)
  {
    assert ([c.val] + Values(q, c.key))[1..] == Values(q, c.key);
    assert [] + ([c.val] + Values(q, c.key)) == [c.val] + Values(q, c.key);
    ValuesNone(p, c.key);
    ValuesAround(p, c, q, c.key);
    ValuesAround(p, c, q, x);
    ValuesAround(p, c.(val := v), q, x);
    ValuesConcat(p, q, x);
    if x == c.key {
      assert [] + ([v] + Values(q, x)) == [v] + Values(q, x);
      assert [] + Values(q, x) == Values(q, x);
    } else {
      assert [] + Values(q, x) == Values(q, x);
    }
  }

  lemma FirstSplit<K, V>(chain: seq<HashCell<K, V>>, k: K) returns (p: seq<HashCell<K, V>>, c: HashCell<K, V>,
                         q: seq<HashCell<K, V>>)
    requires FirstAt(chain, k) < |chain|
    ensures var j := FirstAt(chain, k); p == chain[..j] && c == chain[j] && q == chain[j + 1..]
    ensures chain == p + [c] + q && c.key == k && forall d <- p :: d.key != k
  {
    var j := FirstAt(chain, k);
    p, c, q := chain[..j], chain[j], chain[j + 1..];
  }

  /** Replacing the value in the first cell with key `k`. */
  lemma FirstReplaced<K, V>(chain: seq<HashCell<K, V>>, k: K, v: V, x: K)
    requires FirstAt(chain, k) < |chain|
    ensures Values(chain, k) != []
    ensures var j := FirstAt(chain, k);
            Values(chain[j := chain[j].(val := v)], x) == if x == k then [v] + Values(chain, k)[1..]
              else Values(chain, x)
  {
    var p, c, q := FirstSplit(chain, k);
    AroundFirst(p, c, q, v, x);
    Replaced(chain, FirstAt(chain, k), c.(val := v));
  }

  lemma Replaced<K, V>(chain: seq<HashCell<K, V>>, j: nat, c: HashCell<K, V>)
    requires j < |chain|
    ensures chain[j := c] == chain[..j] + [c] + chain[j + 1..]
  {
  }

  /** Dropping that cell. */
  lemma FirstDropped<K, V>(chain: seq<HashCell<K, V>>, k: K, x: K)
    requires FirstAt(chain, k) < |chain|
    ensures Values(chain, k) != []
    ensures var j := FirstAt(chain, k);
            Values(chain[..j] + chain[j + 1..], x) == if x == k then Values(chain, k)[1..] else Values(chain, x)
  {
    var p, c, q := FirstSplit(chain, k);
    AroundFirst(p, c, q, c.val, x);
  }

  // ------------------------------------------------------------------- the operations as functions

  function Total<K, V>(cells: seq<seq<HashCell<K, V>>>): nat {
    if cells == [] then 0 else |cells[0]| + Total(cells[1..])
  }

  ghost predicate Ok<K(!new), V>(t: Hashed<K, V>, hash: K -> nat) {
    |t.cells| > 0 && Placed(t.cells, hash) && t.nitems == Total(t.cells)
  }

  /** Every cell carries its key's hash and sits in the bucket that this selects. */
  ghost predicate Placed<K(!new), V>(cells: seq<seq<HashCell<K, V>>>, hash: K -> nat) {
    forall i, c :: 0 <= i < |cells| && c in cells[i] ==> InPlace(c, i, |cells|, hash)
  }

  predicate InPlace<K, V>(c: HashCell<K, V>, i: nat, n: nat, hash: K -> nat)
    requires n > 0
  {
    c.hkey == hash(c.key) && c.hkey % n == i
  }

  /** The abstraction: each key has a stack of values. */
  function Stack<K(==), V>(t: Hashed<K, V>, hash: K -> nat, k: K): seq<V>
    requires |t.cells| > 0
  {
    Values(t.cells[hash(k) % |t.cells|], k)
  }

  function Pushed<K, V>(cells: seq<seq<HashCell<K, V>>>, c: HashCell<K, V>): (r: seq<seq<HashCell<K, V>>>)
    requires |cells| > 0
    ensures |r| == |cells|
  {
    var i := c.hkey % |cells|;
    cells[i := [c] + cells[i]]
  }

  /** `add_rec`: the chain's cells are pushed from the last to the first. */
  function AddAll<K, V>(cells: seq<seq<HashCell<K, V>>>, chain: seq<HashCell<K, V>>): (r: seq<seq<HashCell<K, V>>>)
    requires |cells| > 0
    ensures |r| == |cells|
    decreases |chain|
  {
    if chain == [] then cells else Pushed(AddAll(cells, chain[1..]), chain[0])
  }

  function Rehashed<K, V>(cells: seq<seq<HashCell<K, V>>>,
                          into: seq<seq<HashCell<K, V>>>): (r: seq<seq<HashCell<K, V>>>)
    requires |into| > 0
    ensures |r| == |into|
    decreases |cells|
  {
    if cells == [] then into else Rehashed(cells[1..], AddAll(into, cells[0]))
  }

  function Empties<K, V>(n: nat): (cells: seq<seq<HashCell<K, V>>>)
    ensures |cells| == n
  {
    seq(n, _ => [])
  }

  function Resized<K, V>(t: Hashed<K, V>, size: int): (r: Hashed<K, V>)
    ensures |r.cells| == Slots(size)
  {
    Hashed(Rehashed(t.cells, Empties(Slots(size))), t.nitems)
  }

  function Grown<K, V>(t: Hashed<K, V>): (r: Hashed<K, V>)
    requires |t.cells| > 0
    ensures |r.cells| > 0
  {
    if t.nitems >= 2 * |t.cells| then Resized(t, 2 * |t.cells|) else t
  }

  function Added<K, V>(t: Hashed<K, V>, hash: K -> nat, k: K, v: V): (r: Hashed<K, V>)
    requires |t.cells| > 0
    ensures |r.cells| > 0
  {
    var g := Grown(t);
    Hashed(Pushed(g.cells, HashCell(hash(k), k, v)), g.nitems + 1)
  }

  function SetIn<K(==), V>(t: Hashed<K, V>, hash: K -> nat, k: K, v: V): (r: Hashed<K, V>)
    requires |t.cells| > 0
    ensures |r.cells| > 0
  {
    var i := hash(k) % |t.cells|;
    var j := FirstAt(t.cells[i], k);
    if j < |t.cells[i]| then t.(cells := t.cells[i := t.cells[i][j := t.cells[i][j].(val := v)]])
    else Added(t, hash, k, v)
  }

  function Removed<K(==), V>(t: Hashed<K, V>, hash: K -> nat, k: K): (r: Hashed<K, V>)
    requires |t.cells| > 0
    ensures |r.cells| > 0
  {
    var i := hash(k) % |t.cells|;
    var j := FirstAt(t.cells[i], k);
    if j < |t.cells[i]| then Hashed(t.cells[i := t.cells[i][..j] + t.cells[i][j + 1..]], t.nitems - 1) else t
  }

  // ------------------------------------------------------------------- cells are neither lost nor moved

  lemma {:induction false} TotalUpdate<K, V>(cells: seq<seq<HashCell<K, V>>>, i: nat, chain: seq<HashCell<K, V>>)
    requires i < |cells|
    ensures Total(cells[i := chain]) == Total(cells) - |cells[i]| + |chain|
  {
    if i > 0 {
      assert cells[i := chain][1..] == cells[1..][i - 1 := chain];
      TotalUpdate(cells[1..], i - 1, chain);
    } else {
      assert cells[0 := chain][1..] == cells[1..];
    }
  }

  lemma PushedOk<K(!new), V>(cells: seq<seq<HashCell<K, V>>>, c: HashCell<K, V>, hash: K -> nat)
    requires |cells| > 0 && Placed(cells, hash) && c.hkey == hash(c.key)
    ensures Placed(Pushed(cells, c), hash) && Total(Pushed(cells, c)) == Total(cells) + 1
  {
    var i := c.hkey % |cells|;
    TotalUpdate(cells, i, [c] + cells[i]);
    forall k, d | 0 <= k < |cells| && d in Pushed(cells, c)[k]
      ensures InPlace(d, k, |cells|, hash)
    {
      if d !in cells[k] {
        assert k == i && d == c;
      }
    }
  }

  ghost predicate Tagged<K(!new), V>(chain: seq<HashCell<K, V>>, hash: K -> nat) {
    forall c <- chain :: c.hkey == hash(c.key)
  }

  lemma {:induction false} AddAllOk<K(!new), V>(cells: seq<seq<HashCell<K, V>>>, chain: seq<HashCell<K, V>>,
                                      hash: K -> nat)
    requires |cells| > 0 && Placed(cells, hash) && Tagged(chain, hash)
    ensures Placed(AddAll(cells, chain), hash) && Total(AddAll(cells, chain)) == Total(cells) + |chain|
    decreases |chain|
  {
    if chain != [] {
      AddAllOk(cells, chain[1..], hash);
      PushedOk(AddAll(cells, chain[1..]), chain[0], hash);
    }
  }

  lemma {:induction false} RehashedOk<K(!new), V>(cells: seq<seq<HashCell<K, V>>>, into: seq<seq<HashCell<K, V>>>,
                                        hash: K -> nat)
    requires |into| > 0 && Placed(into, hash) && forall chain <- cells :: Tagged(chain, hash)
    ensures Placed(Rehashed(cells, into), hash) && Total(Rehashed(cells, into)) == Total(into) + Total(cells)
    decreases |cells|
  {
    if cells != [] {
      AddAllOk(into, cells[0], hash);
      RehashedOk(cells[1..], AddAll(into, cells[0]), hash);
    }
  }

  lemma {:induction false} EmptiesTotal<K, V>(n: nat)
    ensures Total(Empties<K, V>(n)) == 0
    decreases n
  {
    if n > 0 {
      assert Empties<K, V>(n)[1..] == Empties(n - 1);
      EmptiesTotal<K, V>(n - 1);
    }
  }

  lemma PlacedTagged<K(!new), V>(cells: seq<seq<HashCell<K, V>>>, hash: K -> nat)
    requires Placed(cells, hash)
    ensures forall chain <- cells :: Tagged(chain, hash)
  {
    forall chain | chain in cells
      ensures Tagged(chain, hash)
    {
      var i :| 0 <= i < |cells| && cells[i] == chain;
      forall c | c in chain
        ensures c.hkey == hash(c.key)
      {
        assert InPlace(c, i, |cells|, hash);
      }
    }
  }

  lemma ResizedOk<K(!new), V>(t: Hashed<K, V>, hash: K -> nat, size: int)
    requires Ok(t, hash)
    ensures Ok(Resized(t, size), hash)
  {
    PlacedTagged(t.cells, hash);
    EmptiesTotal<K, V>(Slots(size));
    RehashedOk(t.cells, Empties(Slots(size)), hash);
  }

  lemma AddedOk<K(!new), V>(t: Hashed<K, V>, hash: K -> nat, k: K, v: V)
    requires Ok(t, hash)
    ensures Ok(Added(t, hash, k, v), hash)
  {
    ResizedOk(t, hash, 2 * |t.cells|);
    PushedOk(Grown(t).cells, HashCell(hash(k), k, v), hash);
  }

  lemma ChangedOk<K(!new), V>(t: Hashed<K, V>, hash: K -> nat, i: nat, chain: seq<HashCell<K, V>>)
    requires Ok(t, hash) && i < |t.cells|
    requires forall c <- chain :: InPlace(c, i, |t.cells|, hash)
    ensures Ok(Hashed(t.cells[i := chain], t.nitems - |t.cells[i]| + |chain|), hash)
  {
    TotalUpdate(t.cells, i, chain);
  }

  lemma SetOk<K(!new), V>(t: Hashed<K, V>, hash: K -> nat, k: K, v: V)
    requires Ok(t, hash)
    ensures Ok(SetIn(t, hash, k, v), hash)
  {
    var i := hash(k) % |t.cells|;
    var chain := t.cells[i];
    var j := FirstAt(chain, k);
    if j < |chain| {
      var next := chain[j := chain[j].(val := v)];
      forall c | c in next
        ensures InPlace(c, i, |t.cells|, hash)
      {
        assert InPlace(chain[j], i, |t.cells|, hash);
      }
      ChangedOk(t, hash, i, next);
    } else {
      AddedOk(t, hash, k, v);
    }
  }

  lemma RemovedOk<K(!new), V>(t: Hashed<K, V>, hash: K -> nat, k: K)
    requires Ok(t, hash)
    ensures Ok(Removed(t, hash, k), hash)
  {
    var i := hash(k) % |t.cells|;
    var j := FirstAt(t.cells[i], k);
    if j < |t.cells[i]| {
      ChangedOk(t, hash, i, t.cells[i][..j] + t.cells[i][j + 1..]);
    }
  }

  // ------------------------------------------------------------------- what the operations mean

  /** The cells with one hash key, in order. */
  function Sharing<K, V>(chain: seq<HashCell<K, V>>, hkey: nat): seq<HashCell<K, V>> {
    if chain == [] then []
    else (if chain[0].hkey == hkey then [chain[0]] else []) + Sharing(chain[1..], hkey)
  }

  lemma {:induction false} AddAllShares<K, V>(cells: seq<seq<HashCell<K, V>>>, chain: seq<HashCell<K, V>>, hkey: nat)
    requires |cells| > 0
    ensures Sharing(AddAll(cells, chain)[hkey % |cells|], hkey) ==
            Sharing(chain, hkey) + Sharing(cells[hkey % |cells|], hkey)
    decreases |chain|
  {
    if chain != [] {
      AddAllShares(cells, chain[1..], hkey);
      PushedShares(AddAll(cells, chain[1..]), chain[0], hkey);
      var one := if chain[0].hkey == hkey then [chain[0]] else [];
      var was := Sharing(cells[hkey % |cells|], hkey);
      assert one + (Sharing(chain[1..], hkey) + was) == one + Sharing(chain[1..], hkey) + was;
    }
  }

  lemma PushedShares<K, V>(cells: seq<seq<HashCell<K, V>>>, c: HashCell<K, V>, hkey: nat)
    requires |cells| > 0
    ensures Sharing(Pushed(cells, c)[hkey % |cells|], hkey) ==
            (if c.hkey == hkey then [c] else []) + Sharing(cells[hkey % |cells|], hkey)
  {
    var i := hkey % |cells|;
    if c.hkey % |cells| == i {
      assert ([c] + cells[i])[1..] == cells[i];
    }
  }

  /** The cells with one hash key in all buckets, later buckets first. */
  function Shares<K, V>(cells: seq<seq<HashCell<K, V>>>, hkey: nat): seq<HashCell<K, V>> {
    if cells == [] then [] else Shares(cells[1..], hkey) + Sharing(cells[0], hkey)
  }

  lemma {:induction false} RehashedShares<K, V>(cells: seq<seq<HashCell<K, V>>>, into: seq<seq<HashCell<K, V>>>,
                                                hkey: nat)
    requires |into| > 0
    ensures Sharing(Rehashed(cells, into)[hkey % |into|], hkey) ==
            Shares(cells, hkey) + Sharing(into[hkey % |into|], hkey)
    decreases |cells|
  {
    if cells != [] {
      var into1 := AddAll(into, cells[0]);
      AddAllShares(into, cells[0], hkey);
      RehashedShares(cells[1..], into1, hkey);
      var x, y, z := Shares(cells[1..], hkey), Sharing(cells[0], hkey), Sharing(into[hkey % |into|], hkey);
      assert x + (y + z) == x + y + z;
    }
  }

  /** They all come from one bucket. */
  lemma {:induction false} SharesOne<K, V>(cells: seq<seq<HashCell<K, V>>>, hkey: nat, at: nat)
    requires forall i :: 0 <= i < |cells| && i != at ==> Sharing(cells[i], hkey) == []
    ensures Shares(cells, hkey) == if at < |cells| then Sharing(cells[at], hkey) else []
    decreases |cells|
  {
    hide Sharing;
    if cells != [] {
      assert forall i :: 0 <= i < |cells[1..]| ==> cells[1..][i] == cells[i + 1];
      SharesOne(cells[1..], hkey, if at == 0 then |cells| else at - 1);
    }
  }

  lemma {:induction false} SharesNone<K, V>(chain: seq<HashCell<K, V>>, hkey: nat)
    requires forall c <- chain :: c.hkey != hkey
    ensures Sharing(chain, hkey) == []
  {
    if chain != [] {
      SharesNone(chain[1..], hkey);
    }
  }

  /** Resizing keeps, for every hash key, the cells that share it, in their order. */
  lemma ResizeKeepsOrder<K(!new), V>(t: Hashed<K, V>, hash: K -> nat, size: int, hkey: nat)
    requires Ok(t, hash)
    ensures var r := Resized(t, size);
            Sharing(r.cells[hkey % |r.cells|], hkey) == Sharing(t.cells[hkey % |t.cells|], hkey)
  {
    var at := hkey % |t.cells|;
    forall i | 0 <= i < |t.cells| && i != at
      ensures Sharing(t.cells[i], hkey) == []
    {
      forall c | c in t.cells[i]
        ensures c.hkey != hkey
      {
        assert InPlace(c, i, |t.cells|, hash);
      }
      SharesNone(t.cells[i], hkey);
    }
    SharesOne(t.cells, hkey, at);
    RehashedShares(t.cells, Empties(Slots(size)), hkey);
  }

  lemma {:induction false} ValuesShared<K, V>(chain: seq<HashCell<K, V>>, k: K, hkey: nat)
    requires forall c <- chain :: c.key == k ==> c.hkey == hkey
    ensures Values(chain, k) == Values(Sharing(chain, hkey), k)
  {
    if chain != [] {
      ValuesShared(chain[1..], k, hkey);
      if chain[0].hkey == hkey {
        assert ([chain[0]] + Sharing(chain[1..], hkey))[1..] == Sharing(chain[1..], hkey);
      } else {
        assert [] + Values(chain[1..], k) == Values(chain[1..], k)
          && [] + Sharing(chain[1..], hkey) == Sharing(chain[1..], hkey);
      }
    }
  }

  lemma StackShared<K(!new), V>(t: Hashed<K, V>, hash: K -> nat, k: K)
    requires |t.cells| > 0 && Placed(t.cells, hash)
    ensures Stack(t, hash, k) == Values(Sharing(t.cells[hash(k) % |t.cells|], hash(k)), k)
  {
    var i := hash(k) % |t.cells|;
    forall c | c in t.cells[i] && c.key == k
      ensures c.hkey == hash(k)
    {
      assert InPlace(c, i, |t.cells|, hash);
    }
    ValuesShared(t.cells[i], k, hash(k));
  }

  lemma ResizedStack<K(!new), V>(t: Hashed<K, V>, hash: K -> nat, size: int, x: K)
    requires Ok(t, hash)
    ensures Stack(Resized(t, size), hash, x) == Stack(t, hash, x)
  {
    ResizedOk(t, hash, size);
    ResizeKeepsOrder(t, hash, size, hash(x));
    StackShared(t, hash, x);
    StackShared(Resized(t, size), hash, x);
  }

  lemma AddedStack<K(!new), V>(t: Hashed<K, V>, hash: K -> nat, k: K, v: V, x: K)
    requires Ok(t, hash)
    ensures Stack(Added(t, hash, k, v), hash, x) == (if x == k then [v] else []) + Stack(t, hash, x)
  {
    ResizedStack(t, hash, 2 * |t.cells|, x);
    var g := Grown(t);
    var i := hash(k) % |g.cells|;
    var c := HashCell(hash(k), k, v);
    assert ([c] + g.cells[i])[1..] == g.cells[i];
  }

  lemma SetStack<K(!new), V>(t: Hashed<K, V>, hash: K -> nat, k: K, v: V, x: K)
    requires Ok(t, hash)
    ensures Stack(SetIn(t, hash, k, v), hash, x) ==
            if x != k then Stack(t, hash, x) else if Stack(t, hash, k) == [] then [v] else [v] + Stack(t, hash, k)[1..]
  {
    var i := hash(k) % |t.cells|;
    if FirstAt(t.cells[i], k) < |t.cells[i]| {
      FirstReplaced(t.cells[i], k, v, x);
    } else {
      ValuesNone(t.cells[i], k);
      AddedStack(t, hash, k, v, x);
    }
  }

  lemma RemovedStack<K(!new), V>(t: Hashed<K, V>, hash: K -> nat, k: K, x: K)
    requires Ok(t, hash)
    ensures Stack(Removed(t, hash, k), hash, x) ==
            if x != k || Stack(t, hash, k) == [] then Stack(t, hash, x) else Stack(t, hash, k)[1..]
  {
    var i := hash(k) % |t.cells|;
    if FirstAt(t.cells[i], k) < |t.cells[i]| {
      FirstDropped(t.cells[i], k, x);
    } else {
      ValuesNone(t.cells[i], k);
    }
  }

  // ------------------------------------------------------------------- whole runs

  datatype Op<K, V> = Set(k: K, v: V) | Add(k: K, v: V) | Remove(k: K) | Resize(size: int)

  function Apply<K(==), V>(t: Hashed<K, V>, hash: K -> nat, op: Op<K, V>): (r: Hashed<K, V>)
    requires |t.cells| > 0
    ensures |r.cells| > 0
  {
    match op
    case Set(k, v) => SetIn(t, hash, k, v)
    case Add(k, v) => Added(t, hash, k, v)
    case Remove(k) => Removed(t, hash, k)
    case Resize(size) => Resized(t, size)
  }

  /** What an operation does to the stack of values of one key. */
  function OnStack<K(==), V>(stack: seq<V>, op: Op<K, V>, x: K): seq<V> {
    match op
    case Set(k, v) => if x != k then stack else if stack == [] then [v] else [v] + stack[1..]
    case Add(k, v) => if x == k then [v] + stack else stack
    case Remove(k) => if x != k || stack == [] then stack else stack[1..]
    case Resize(_) => stack
  }

  lemma ApplyMeans<K(!new), V>(t: Hashed<K, V>, hash: K -> nat, op: Op<K, V>, x: K)
    requires Ok(t, hash)
    ensures Ok(Apply(t, hash, op), hash)
    ensures Stack(Apply(t, hash, op), hash, x) == OnStack(Stack(t, hash, x), op, x)
    ensures !op.Resize? && t.nitems <= 2 * |t.cells| ==> Apply(t, hash, op).nitems <= 2 * |Apply(t, hash, op).cells|
  {
    match op
    case Set(k, v) => SetOk(t, hash, k, v); SetStack(t, hash, k, v, x);
    case Add(k, v) => AddedOk(t, hash, k, v); AddedStack(t, hash, k, v, x);
    case Remove(k) => RemovedOk(t, hash, k); RemovedStack(t, hash, k, x);
    case Resize(size) => ResizedOk(t, hash, size); ResizedStack(t, hash, size, x);
  }

  function Run<K(==), V>(t: Hashed<K, V>, hash: K -> nat, ops: seq<Op<K, V>>): (r: Hashed<K, V>)
    requires |t.cells| > 0
    ensures |r.cells| > 0
    decreases |ops|
  {
    if ops == [] then t else Run(Apply(t, hash, ops[0]), hash, ops[1..])
  }

  function RunOnStack<K(==), V>(stack: seq<V>, ops: seq<Op<K, V>>, x: K): seq<V>
    decreases |ops|
  {
    if ops == [] then stack else RunOnStack(OnStack(stack, ops[0], x), ops[1..], x)
  }

  /** Any sequence of operations keeps the table well formed and acts on each key's stack of values as
      if the other keys were not there; unless a resize is asked for, the load stays at most two. */
  lemma {:induction false} RunRefines<K(!new), V>(t: Hashed<K, V>, hash: K -> nat, ops: seq<Op<K, V>>, x: K)
    requires Ok(t, hash)
    ensures Ok(Run(t, hash, ops), hash)
    ensures Stack(Run(t, hash, ops), hash, x) == RunOnStack(Stack(t, hash, x), ops, x)
    ensures (forall op <- ops :: !op.Resize?) && t.nitems <= 2 * |t.cells| ==>
              Run(t, hash, ops).nitems <= 2 * |Run(t, hash, ops).cells|
    decreases |ops|
  {
    if ops != [] {
      ApplyMeans(t, hash, ops[0], x);
      RunRefines(Apply(t, hash, ops[0]), hash, ops[1..], x);
      assert forall op <- ops[1..] :: op in ops;
    }
  }

  // ------------------------------------------------------------------- the table as the machine keeps it

  class Table<K(==,!new), V> {
    const hash: K -> nat
    var cells: array<seq<HashCell<K, V>>>
    var nitems: int

    ghost function Abs(): Hashed<K, V>
      reads this, cells
    {
      Hashed(cells[..], nitems)
    }

    ghost predicate Valid()
      reads this, cells
    {
      Ok(Abs(), hash)
    }

    /** `$hnew`. */
    constructor (hash: K -> nat, size: int)
      ensures this.hash == hash && Valid() && fresh(cells) && cells.Length == if size <= 0 then 7 else size
      ensures forall k :: Stack(Abs(), hash, k) == []
    {
      this.hash, nitems := hash, 0;
      cells := new seq<HashCell<K, V>>[Slots(size)](_ => []);
      new;
      assert cells[..] == Empties(cells.Length);
      EmptiesTotal<K, V>(cells.Length);
    }

    /** The walk along a chain that most operations begin with. */
    method Walk(i: nat, k: K) returns (j: nat)
      requires i < cells.Length
      ensures j == FirstAt(cells[i], k)
    {
      j := 0;
      while j < |cells[i]| && cells[i][j].key != k
        invariant j <= |cells[i]| && FirstAt(cells[i], k) == j + FirstAt(cells[i][j..], k)
      {
        assert cells[i][j..][1..] == cells[i][j + 1..];
        j := j + 1;
      }
    }

    /** `$hget`. */
    method Get(k: K) returns (v: Option<V>)
      requires Valid()
      ensures v == if Stack(Abs(), hash, k) == [] then None else Some(Stack(Abs(), hash, k)[0])
    {
      var i := hash(k) % cells.Length;
      var j := Walk(i, k);
      ghost var chain := cells[i];
      if j == |cells[i]| {
        ValuesNone(chain, k);
        return None;
      }
      assert chain == chain[..j] + [chain[j]] + chain[j + 1..];
      ValuesNone(chain[..j], k);
      ValuesAround(chain[..j], chain[j], chain[j + 1..], k);
      v := Some(cells[i][j].val);
    }

    /** `$hset`: true if the key was new. */
    method Put(k: K, v: V) returns (isNew: bool)
      requires Valid()
      modifies this`cells, this`nitems, cells
      ensures Valid() && Abs() == SetIn(old(Abs()), hash, k, v) && (cells == old(cells) || fresh(cells))
      ensures isNew <==> Stack(old(Abs()), hash, k) == []
    {
      var i := hash(k) % cells.Length;
      var j := Walk(i, k);
      SetOk(Abs(), hash, k, v);
      if j < |cells[i]| {
        FirstDropped(cells[i], k, k);
        SetCell(i, cells[i][j := cells[i][j].(val := v)]);
        return false;
      }
      ValuesNone(cells[i], k);
      Push(k, v);
      return true;
    }

    method SetCell(i: nat, chain: seq<HashCell<K, V>>)
      requires i < cells.Length
      modifies cells
      ensures cells[..] == old(cells[..])[i := chain]
    {
      cells[i] := chain;
    }

    /** `$hadd`. */
    method Push(k: K, v: V)
      requires Valid()
      modifies this`cells, this`nitems, cells
      ensures Valid() && Abs() == Added(old(Abs()), hash, k, v) && (cells == old(cells) || fresh(cells))
    {
      AddedOk(Abs(), hash, k, v);
      if nitems >= 2 * cells.Length {
        Resize(2 * cells.Length);
      }
      var i := hash(k) % cells.Length;
      SetCell(i, [HashCell(hash(k), k, v)] + cells[i]);
      nitems := nitems + 1;
    }

    /** `$hremove`: true if the key was bound. */
    method Delete(k: K) returns (found: bool)
      requires Valid()
      modifies this`nitems, cells
      ensures Valid() && Abs() == Removed(old(Abs()), hash, k)
      ensures found <==> Stack(old(Abs()), hash, k) != []
    {
      var i := hash(k) % cells.Length;
      var j := Walk(i, k);
      RemovedOk(Abs(), hash, k);
      found := j < |cells[i]|;
      if found {
        FirstDropped(cells[i], k, k);
        SetCell(i, cells[i][..j] + cells[i][j + 1..]);
        nitems := nitems - 1;
      } else {
        ValuesNone(cells[i], k);
      }
    }

    /** `$hresize`: every chain is pushed cell by cell into a new array. */
    method Resize(size: int)
      requires Valid()
      modifies this`cells
      ensures Valid() && Abs() == Resized(old(Abs()), size) && fresh(cells)
    {
      ResizedOk(Abs(), hash, size);
      var cc := new seq<HashCell<K, V>>[Slots(size)](_ => []);
      assert cc[..] == Empties(Slots(size));
      var n := cells.Length;
      assert cells[0..] == cells[..];
      for i := 0 to n
        invariant cells == old(cells) && nitems == old(nitems) && cells[..] == old(cells[..])
        invariant Rehashed(cells[i..], cc[..]) == Resized(old(Abs()), size).cells
      {
        assert cells[i..][1..] == cells[i + 1..];
        AddRec(cc, cells[i]);
      }
      cells := cc;
    }

    static method AddRec(cc: array<seq<HashCell<K, V>>>, chain: seq<HashCell<K, V>>)
      requires cc.Length > 0
      modifies cc
      ensures cc[..] == AddAll(old(cc[..]), chain)
      decreases |chain|
    {
      if chain != [] {
        AddRec(cc, chain[1..]);
        var k := chain[0].hkey % cc.Length;
        cc[k] := [chain[0]] + cc[k];
      }
    }
  }
}
