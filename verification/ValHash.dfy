/** Hash keys of values: independent of addresses, and finite on cyclic values. */
module ValHash {
  import opened AddressSet
  import opened MachineInt
  import opened ObjTable
  import opened SerialFormat
  import opened SerialReach
  import opened SerialRenaming
  import opened SerialRoundTrip

  /** A C `int` after an overflowing computation. */
  function Wrap32(n: int): (r: int)
    ensures IsInt32(r)
  {
    (n + 0x8000_0000) % 0x1_0000_0000 - 0x8000_0000
  }

  function Big(h: int, x: int): int {
    Wrap32(h * 65599 + x)
  }

  function Small(h: int, x: int): int {
    Wrap32(h * 19 + x)
  }

  /** A byte read through a signed `char`. */
  function Signed(b: Byte): int {
    if b < 128 then b else b - 256
  }

  /** The first `k` bytes, from the last of them to the first. */
  function HashBytes(acc: int, bytes: seq<Byte>, k: nat): int
    requires k <= |bytes|
    decreases k
  {
    if k == 0 then acc else HashBytes(Small(acc, Signed(bytes[k - 1])), bytes, k - 1)
  }

  /** How many ancestors up `a` is, the innermost first. */
  function Depth(l: seq<nat>, a: nat): (k: nat)
    requires a in l
    ensures k < |l| && l[k] == a && a !in l[..k]
  {
    if l[0] == a then 0 else 1 + Depth(l[1..], a)
  }

  /** The nodes that are not being hashed already. */
  function Free(h: Heap, l: seq<nat>): set<nat> {
    set a <- Below(|h|) | a !in l
  }

  lemma FreeShrinks(h: Heap, l: seq<nat>, a: nat)
    requires a < |h| && a !in l
    ensures Free(h, [a] + l) < Free(h, l)
  {
    assert a in Free(h, l) && a !in Free(h, [a] + l);
  }

  /** `hash_rec`: an array or object met again below itself counts as its distance upwards. */
  function HashRec(h: Heap, v: Value, acc: int, l: seq<nat>): int
    decreases Free(h, l), 2, 0
  {
    match v
    case Int(n) => Big(acc, n)
    case Null => Small(acc, 0)
    case Float(bits) => HashBytes(acc, bits, |bits|)
    case Bool(flag) => Small(acc, if flag then 1 else 0)
    case Int32(_) => acc
    case Hash(_) => acc
    case Ref(a) =>
      if a >= |h| then acc
      else
        match h[a]
        case Str(bytes) => HashBytes(acc, bytes, |bytes|)
        case _ =>
          if a in l then Small(acc, Depth(l, a))
          else
            FreeShrinks(h, l, a);
            HashNode(h, h[a], acc, [a] + l)
  }

  function HashNode(h: Heap, node: Node, acc: int, l: seq<nat>): int
    decreases Free(h, l), 4, 0
  {
    match node
    case Str(_) => acc
    case Arr(items) => HashItems(h, items, |items|, acc, l)
    case Obj(fields, proto) =>
      var acc1 := HashFields(h, fields, acc, l);
      match proto
      case None => acc1
      case Some(p) => HashRec(h, Ref(p), acc1, l)
  }

  /** The first `k` elements, from the last of them to the first. */
  function HashItems(h: Heap, items: seq<Value>, k: nat, acc: int, l: seq<nat>): int
    requires k <= |items|
    decreases Free(h, l), 3, k
  {
    if k == 0 then acc else HashItems(h, items, k - 1, HashRec(h, items[k - 1], acc, l), l)
  }

  function HashFields(h: Heap, fields: seq<Cell<Value>>, acc: int, l: seq<nat>): int
    decreases Free(h, l), 3, |fields|
  {
    if fields == [] then acc
    else HashFields(h, fields[1..], HashRec(h, fields[0].v, Big(acc, fields[0].id), l), l)
  }

  /** `val_hash`: the low 30 bits, which is what bucket selection needs. */
  function ValHash(h: Heap, v: Value): (r: nat)
    ensures r < 0x4000_0000
  {
    HashRec(h, v, 0, []) % 0x4000_0000
  }

  // ------------------------------------------------------------------- addresses do not matter

  /** The nodes `refs` of one heap and `trefs` of the other mirror each other: corresponding nodes hold
      corresponding values, and only empty strings and arrays may be one in the other heap. */
  ghost predicate Mirror(h: Heap, refs: seq<nat>, h': Heap, trefs: seq<nat>) {
    && |refs| == |trefs|
    && (forall k :: 0 <= k < |refs| ==> Image(h, refs, h', trefs, k))
    && (forall j, k :: 0 <= j < k < |refs| && trefs[j] == trefs[k] ==> !IsOwn(h, refs[j]) && !IsOwn(h, refs[k]))
  }

  ghost predicate Image(h: Heap, refs: seq<nat>, h': Heap, trefs: seq<nat>, k: nat)
    requires k < |refs| == |trefs|
  {
    && refs[k] < |h| && trefs[k] < |h'|
    && h'[trefs[k]] == RenameNode(h[refs[k]], refs, trefs) && NodeCovered(h[refs[k]], refs)
  }

  /** The address in the other heap. */
  function Twin(refs: seq<nat>, trefs: seq<nat>, a: nat): nat
    requires a in refs && |refs| == |trefs|
  {
    trefs[Find(refs, a).value]
  }

  ghost predicate Ancestors(h: Heap, refs: seq<nat>, trefs: seq<nat>, l: seq<nat>, l': seq<nat>) {
    && |refs| == |trefs| && |l| == |l'|
    && forall i :: 0 <= i < |l| ==> l[i] in refs && l[i] < |h| && l'[i] == Twin(refs, trefs, l[i]) && !Shared(h[l[i]])
  }

  lemma {:induction false} DepthSame(h: Heap, refs: seq<nat>, h': Heap, trefs: seq<nat>, l: seq<nat>, l': seq<nat>,
                                     a: nat)
    requires Mirror(h, refs, h', trefs) && Ancestors(h, refs, trefs, l, l')
    requires a in refs && a < |h| && !Shared(h[a])
    ensures a in l <==> Twin(refs, trefs, a) in l'
    ensures a in l ==> Depth(l, a) == Depth(l', Twin(refs, trefs, a))
    decreases |l|
  {
    if l != [] {
      DepthSame(h, refs, h', trefs, l[1..], l'[1..], a);
      var j, k := Find(refs, a).value, Find(refs, l[0]).value;
      assert trefs[j] == trefs[k] ==> j == k;
    }
  }

  /** Corresponding values hash alike, whatever the addresses. */
  lemma {:induction false} HashSame(h: Heap, refs: seq<nat>, h': Heap, trefs: seq<nat>, v: Value, acc: int,
                                    l: seq<nat>, l': seq<nat>)
    requires Mirror(h, refs, h', trefs) && Ancestors(h, refs, trefs, l, l') && Covered(v, refs)
    ensures HashRec(h, v, acc, l) == HashRec(h', Rename(v, refs, trefs), acc, l')
    decreases Free(h, l), 2, 0
  {
    match v
    case Ref(a) =>
      var k := Find(refs, a).value;
      assert Image(h, refs, h', trefs, k);
      if !h[a].Str? {
        if Shared(h[a]) {
          SharedHash(h, a, acc, l);
          SharedHash(h', trefs[k], acc, l');
        } else {
          DepthSame(h, refs, h', trefs, l, l', a);
          if a !in l {
            FreeShrinks(h, l, a);
            NodeSame(h, refs, h', trefs, h[a], acc, [a] + l, [trefs[k]] + l');
          }
        }
      }
    case _ =>
  }

  lemma SharedHash(h: Heap, a: nat, acc: int, l: seq<nat>)
    requires a < |h| && h[a] == Arr([]) && a !in l
    ensures HashRec(h, Ref(a), acc, l) == acc
  {
    FreeShrinks(h, l, a);
    assert HashNode(h, h[a], acc, [a] + l) == HashItems(h, [], 0, acc, [a] + l);
  }

  lemma {:induction false} NodeSame(h: Heap, refs: seq<nat>, h': Heap, trefs: seq<nat>, node: Node, acc: int,
                                    l: seq<nat>, l': seq<nat>)
    requires Mirror(h, refs, h', trefs) && Ancestors(h, refs, trefs, l, l') && NodeCovered(node, refs) && !node.Str?
    ensures HashNode(h, node, acc, l) == HashNode(h', RenameNode(node, refs, trefs), acc, l')
    decreases Free(h, l), 4, 0
  {
    match node
    case Arr(items) => ItemsSame(h, refs, h', trefs, items, RenameNode(node, refs, trefs).items, |items|, acc, l, l');
    case Obj(fields, proto) =>
      FieldsSame(h, refs, h', trefs, fields, RenameNode(node, refs, trefs).fields, acc, l, l');
      if proto.Some? {
        HashSame(h, refs, h', trefs, Ref(proto.value), HashFields(h, fields, acc, l), l, l');
      }
  }

  lemma {:induction false} ItemsSame(h: Heap, refs: seq<nat>, h': Heap, trefs: seq<nat>, items: seq<Value>,
                                     items': seq<Value>, k: nat, acc: int, l: seq<nat>, l': seq<nat>)
    requires Mirror(h, refs, h', trefs) && Ancestors(h, refs, trefs, l, l') && k <= |items| == |items'|
    requires forall v <- items :: Covered(v, refs)
    requires forall i :: 0 <= i < |items| ==> items'[i] == Rename(items[i], refs, trefs)
    ensures HashItems(h, items, k, acc, l) == HashItems(h', items', k, acc, l')
    decreases Free(h, l), 3, k
  {
    if k > 0 {
      HashSame(h, refs, h', trefs, items[k - 1], acc, l, l');
      ItemsSame(h, refs, h', trefs, items, items', k - 1, HashRec(h, items[k - 1], acc, l), l, l');
    }
  }

  lemma {:induction false} FieldsSame(h: Heap, refs: seq<nat>, h': Heap, trefs: seq<nat>, fields: seq<Cell<Value>>,
                                      fields': seq<Cell<Value>>, acc: int, l: seq<nat>, l': seq<nat>)
    requires Mirror(h, refs, h', trefs) && Ancestors(h, refs, trefs, l, l') && |fields| == |fields'|
    requires forall c <- fields :: Covered(c.v, refs)
    requires forall i :: 0 <= i < |fields| ==> fields'[i] == Cell(fields[i].id, Rename(fields[i].v, refs, trefs))
    ensures HashFields(h, fields, acc, l) == HashFields(h', fields', acc, l')
    decreases Free(h, l), 3, |fields|
  {
    if fields != [] {
      var acc1 := Big(acc, fields[0].id);
      HashSame(h, refs, h', trefs, fields[0].v, acc1, l, l');
      assert forall c <- fields[1..] :: c in fields;
      FieldsSame(h, refs, h', trefs, fields[1..], fields'[1..], HashRec(h, fields[0].v, acc1, l), l, l');
    }
  }

  /** Equal hash keys on mirrored heaps. */
  lemma AddressIndependent(h: Heap, refs: seq<nat>, h': Heap, trefs: seq<nat>, v: Value)
    requires Mirror(h, refs, h', trefs) && Covered(v, refs)
    ensures ValHash(h, v) == ValHash(h', Rename(v, refs, trefs))
  {
    HashSame(h, refs, h', trefs, v, 0, [], []);
  }

  /** A value read back has the hash key of the value written, so that a table's stored hash keys, which
      the reader takes as they are, stay those of its keys. */
  lemma HashSurvivesSerialization(h: Heap, v: Value, before: Heap)
    requires HeapOk(h) && ValueOk(v, h) && HasConstants(before)
    requires Ser(h, v, [], 0).Wrote? && IsInt32(|Ser(h, v, [], 0).refs|) && NoZeroReached(h, v)
    ensures var r := Unser(Ser(h, v, [], 0).bytes, 0, State(before, []));
            r.Read? && ValHash(h, v) == ValHash(r.st.heap, r.v)
  {
    var w := Ser(h, v, [], 0);
    RoundTrip(h, v, before);
    var r := Unser(w.bytes, 0, State(before, []));
    CopyMirrors(h, w.refs, before, r.st);
    AddressIndependent(h, w.refs, r.st.heap, r.st.trefs, v);
  }

  lemma CopyMirrors(h: Heap, refs: seq<nat>, before: Heap, st: State)
    requires Isomorphic(h, refs, before, st)
    ensures Mirror(h, refs, st.heap, st.trefs)
  {
    forall k | 0 <= k < |refs|
      ensures Image(h, refs, st.heap, st.trefs, k)
    {
      assert Rebuilt(h, refs, st, k, |before|);
    }
  }

  // ------------------------------------------------------------------- the traversal as it runs

  /** `hash_rec`. */
  method Hash(h: Heap, v: Value, acc: int, l: seq<nat>) returns (r: int)
    ensures r == HashRec(h, v, acc, l)
    decreases Free(h, l), 2, 0
  {
    match v
    case Int(n) => r := Big(acc, n);
    case Null => r := Small(acc, 0);
    case Float(bits) => r := HashChars(acc, bits);
    case Bool(flag) => r := Small(acc, if flag then 1 else 0);
    case Int32(_) => r := acc;
    case Hash(_) => r := acc;
    case Ref(a) =>
      if a >= |h| {
        r := acc;
      } else if h[a].Str? {
        r := HashChars(acc, h[a].bytes);
      } else {
        var k := Climb(l, a);
        if k < |l| {
          r := Small(acc, k);
        } else {
          FreeShrinks(h, l, a);
          r := HashContents(h, h[a], acc, [a] + l);
        }
      }
  }

  method HashChars(acc: int, bytes: seq<Byte>) returns (r: int)
    ensures r == HashBytes(acc, bytes, |bytes|)
  {
    r := acc;
    var k := |bytes|;
    while k > 0
      invariant 0 <= k <= |bytes| && HashBytes(r, bytes, k) == HashBytes(acc, bytes, |bytes|)
    {
      k := k - 1;
      r := Small(r, Signed(bytes[k]));
    }
  }

  /** The walk up the list of ancestors. */
  method Climb(l: seq<nat>, a: nat) returns (k: nat)
    ensures k <= |l| && (k < |l| <==> a in l) && (a in l ==> k == Depth(l, a))
  {
    k := 0;
    while k < |l| && l[k] != a
      invariant k <= |l| && (a in l <==> a in l[k..]) && (a in l ==> Depth(l, a) == k + Depth(l[k..], a))
    {
      assert l[k..][1..] == l[k + 1..] && l[k..] == [l[k]] + l[k + 1..];
      k := k + 1;
    }
  }

  method HashContents(h: Heap, node: Node, acc: int, l: seq<nat>) returns (r: int)
    ensures r == HashNode(h, node, acc, l)
    decreases Free(h, l), 4, 0
  {
    r := acc;
    match node
    case Str(_) =>
    case Arr(items) =>
      var k := |items|;
      while k > 0
        invariant 0 <= k <= |items| && HashItems(h, items, k, r, l) == HashItems(h, items, |items|, acc, l)
      {
        k := k - 1;
        r := Hash(h, items[k], r, l);
      }
    case Obj(fields, proto) =>
      assert fields[0..] == fields;
      for i := 0 to |fields|
        invariant HashFields(h, fields[i..], r, l) == HashFields(h, fields, acc, l)
      {
        assert fields[i..][1..] == fields[i + 1..];
        r := Hash(h, fields[i].v, Big(r, fields[i].id), l);
      }
      if proto.Some? {
        r := Hash(h, Ref(proto.value), r, l);
      }
  }

  method ComputeHash(h: Heap, v: Value) returns (r: nat)
    ensures r == ValHash(h, v)
  {
    var acc := Hash(h, v, 0, []);
    r := acc % 0x4000_0000;
  }
}
