/** The serializer as the library runs it: a chunked buffer, a search tree of numbered addresses, and a
    nesting counter, all updated in place. */
module SerialWriter {
  import opened MachineInt
  import opened ObjTable
  import opened SerialFormat
  import opened RefTree
  import SerialDepth

  const BUF_SIZE: nat := 4096

  function Joined(chunks: seq<seq<Byte>>): seq<Byte> {
    if chunks == [] then [] else Joined(chunks[..|chunks| - 1]) + chunks[|chunks| - 1]
  }

  lemma JoinedOne(chunks: seq<seq<Byte>>, last: seq<Byte>)
    ensures Joined(chunks + [last]) == Joined(chunks) + last
  {
    assert (chunks + [last])[..|chunks|] == chunks;
  }

  lemma Longer(now: seq<Byte>, was: seq<Byte>, before: seq<Byte>, s: seq<Byte>, i: nat)
    requires i < |s| && was == before + s[..i] && |now| == |was| + 1
    requires now[..|was|] == was && now[|was|] == s[i]
    ensures now == before + s[..i + 1]
  {
    assert now == was + [s[i]] && s[..i + 1] == s[..i] + [s[i]];
  }

  lemma Joint(olds: seq<seq<Byte>>, before: seq<Byte>, s: seq<Byte>)
    ensures Joined(olds) + (before + s[..|s|]) == Joined(olds) + before + s
  {
    assert s[..|s|] == s;
  }

  /** What a result amounts to when `bytes` were written before it. */
  function Onto(bytes: seq<Byte>, w: Wrote): Wrote {
    match w
    case Failed => Failed
    case Wrote(more, refs) => Wrote(bytes + more, refs)
  }

  lemma OntoOnto(x: seq<Byte>, y: seq<Byte>, w: Wrote)
    ensures Onto(x, Onto(y, w)) == Onto(x + y, w)
  {
    if w.Wrote? {
      assert x + (y + w.bytes) == x + y + w.bytes;
    }
  }

  lemma SerRef(h: Heap, a: nat, refs: seq<nat>, depth: nat)
    requires depth < MAX_DEPTH
    ensures Ser(h, Ref(a), refs, depth) ==
            if Find(refs, a).Some? then Wrote([REFERENCE] + Int4(|refs| - 1 - Find(refs, a).value), refs)
            else if a < |h| && !Hooked(h[a])
            then SerBody(h, NodeHead(h[a]), NodeItems(h[a]), NodeTail(h[a]), refs + [a], depth + 1)
            else Failed
  {
  }

  /** Writing the first of several items, after `written`. */
  lemma ItemStep(written: seq<Byte>, h: Heap, items: seq<Item>, refs: seq<nat>, depth: nat)
    requires depth <= MAX_DEPTH && items != []
    ensures Onto(written, SerItems(h, items, refs, depth)) ==
            var w := Ser(h, items[0].v, refs, depth);
            if w.Failed? then Failed
            else Onto(written + items[0].lead + w.bytes, SerItems(h, items[1..], w.refs, depth))
  {
    var w := Ser(h, items[0].v, refs, depth);
    if w.Wrote? {
      var rest := SerItems(h, items[1..], w.refs, depth);
      if rest.Wrote? {
        assert written + (items[0].lead + w.bytes + rest.bytes) == written + items[0].lead + w.bytes + rest.bytes;
      }
    }
  }

  lemma BodyDone(written: seq<Byte>, h: Heap, head: seq<Byte>, items: seq<Item>, tail: seq<Byte>, refs: seq<nat>,
                 depth: nat)
    requires depth <= MAX_DEPTH
    ensures Onto(written, SerBody(h, head, items, tail, refs, depth)) ==
            var w := Onto(written + head, SerItems(h, items, refs, depth));
            if w.Failed? then Failed else Wrote(w.bytes + tail, w.refs)
  {
    var w := SerItems(h, items, refs, depth);
    if w.Wrote? {
      assert written + (head + w.bytes + tail) == written + head + w.bytes + tail;
    }
  }

  lemma ArrayItemsOf(vs: seq<Value>, i: nat)
    requires i < |vs|
    ensures ArrayItems(vs[i..]) == [Item([], vs[i])] + ArrayItems(vs[i + 1..])
  {
    assert vs[i..][1..] == vs[i + 1..];
  }

  lemma CellItemsOf(c: HCell, rest: seq<HCell>)
    ensures CellItems([c] + rest) == [Item(Int4(c.hkey), c.key)] + ([Item([], c.val)] + CellItems(rest))
    ensures CellItems([c] + rest)[1..] == [Item([], c.val)] + CellItems(rest)
    ensures ([Item([], c.val)] + CellItems(rest))[1..] == CellItems(rest)
  {
    assert ([c] + rest)[1..] == rest;
  }

  /** The bytes of a value that holds no other. */
  function AtomBytes(v: Value): seq<Byte>
    requires !v.Ref? && !v.Hash?
  {
    match v
    case Null => [N]
    case Bool(flag) => [if flag then T else F]
    case Int(n) => [SMALL] + Int4(n)
    case Int32(n) => [LARGE] + Int4(n)
    case Float(bits) => [FLOAT] + bits
  }

  class Writer {
    var olds: seq<seq<Byte>>
    var cur: array<Byte>
    var pos: nat
    var totlen: nat
    var refs: Tree
    var nrefs: nat
    var nrec: nat
    /** The numbered addresses, in order: what the tree and the counter stand for. */
    ghost var order: seq<nat>

    ghost predicate Valid()
      reads this
    {
      pos <= cur.Length && totlen == |Joined(olds)|
    }

    ghost predicate Numbering()
      reads this
    {
      nrefs == |order| && Holds(refs, order)
    }

    /** Everything written so far. */
    ghost function Written(): seq<Byte>
      requires Valid()
      reads this, cur
    {
      Joined(olds) + cur[..pos]
    }

    constructor ()
      ensures Valid() && Written() == [] && fresh(cur)
      ensures Numbering() && order == [] && nrec == 0
    {
      olds, pos, totlen := [], 0, 0;
      refs, nrefs, nrec, order := Leaf, 0, 0, [];
      cur := new Byte[BUF_SIZE](_ => 0);
    }

    /** `buffer_alloc`: the current chunk is put aside and a new one taken. */
    method Alloc(size: nat)
      requires Valid()
      modifies `olds, `cur, `pos, `totlen
      ensures Valid() && Written() == old(Written()) && fresh(cur)
      ensures pos == 0 && cur.Length == size
    {
      JoinedOne(olds, cur[..pos]);
      olds, totlen := olds + [cur[..pos]], totlen + pos;
      pos := 0;
      cur := new Byte[size](_ => 0);
    }

    method WriteChar(c: Byte)
      requires Valid()
      modifies `olds, `cur, `pos, `totlen, cur
      ensures Valid() && Written() == old(Written()) + [c]
      ensures cur == old(cur) || fresh(cur)
    {
      if pos == cur.Length {
        Alloc(BUF_SIZE);
      }
      Put(c);
    }

    method Put(c: Byte)
      requires Valid() && pos < cur.Length
      modifies this`pos, cur
      ensures Valid() && Written() == old(Written()) + [c]
    {
      ghost var before := cur[..pos];
      cur[pos] := c;
      pos := pos + 1;
      assert cur[..pos] == before + [c];
    }

    /** `memcpy` into the current chunk. */
    method Copy(s: seq<Byte>)
      requires Valid() && pos + |s| <= cur.Length
      modifies this`pos, cur
      ensures Valid() && Written() == old(Written()) + s && pos == old(pos) + |s|
    {
      ghost var before := cur[..pos];
      for i := 0 to |s|
        invariant pos == |before| && Valid() && cur[..pos + i] == before + s[..i]
      {
        cur[pos + i] := s[i];
        Longer(cur[..pos + i + 1], cur[..pos + i], before, s, i);
      }
      pos := pos + |s|;
      Joint(olds, before, s);
    }

    /** `write_str`: as much as fits goes into the current chunk, the rest into new ones. */
    method WriteStr(s: seq<Byte>)
      requires Valid()
      modifies `olds, `cur, `pos, `totlen, cur
      ensures Valid() && Written() == old(Written()) + s
      ensures cur == old(cur) || fresh(cur)
      decreases |s|, if pos == cur.Length then 1 else 0
    {
      if pos == cur.Length {
        Alloc(BUF_SIZE);
      }
      var left := cur.Length - pos;
      if left >= |s| {
        Copy(s);
      } else {
        Copy(s[..left]);
        WriteStr(s[left..]);
        assert s[..left] + s[left..] == s;
      }
    }

    /** `write_ref`: an address met before is written as how many numbers ago it was; a new one is numbered. */
    method WriteRef(a: nat, hooked: bool) returns (known: bool)
      requires Valid() && Numbering()
      modifies `olds, `cur, `pos, `totlen, `refs, `nrefs, `order, cur
      ensures Valid() && Numbering() && (cur == old(cur) || fresh(cur))
      ensures known <==> Find(old(order), a).Some?
      ensures known ==> order == old(order)
      ensures known ==> Written() == old(Written()) + [REFERENCE] + Int4(|order| - 1 - Find(order, a).value)
      ensures !known ==> order == old(order) + (if hooked then [] else [a]) && Written() == old(Written())
    {
      assert Number(refs, a) == Find(order, a);
      var d := Searched(refs, a);
      if d.Node? {
        WriteChar(REFERENCE);
        WriteStr(Int4(nrefs - 1 - d.k));
        return true;
      }
      if !hooked {
        GrownHolds(refs, order, a);
        refs := Grown(refs, a, nrefs);
        nrefs, order := nrefs + 1, order + [a];
      }
      return false;
    }

    method WriteInt(n: int)
      requires Valid()
      modifies `olds, `cur, `pos, `totlen, cur
      ensures Valid() && Written() == old(Written()) + Int4(n)
      ensures cur == old(cur) || fresh(cur)
    {
      WriteStr(Int4(n));
    }

    /** What has been written and numbered, if nothing has failed. */
    ghost function Outcome(ok: bool): Wrote
      requires Valid()
      reads this, cur
    {
      if ok then Wrote(Written(), order) else Failed
    }

    method SerializeAtom(v: Value)
      requires Valid() && !v.Ref? && !v.Hash?
      modifies `olds, `cur, `pos, `totlen, cur
      ensures Valid() && (cur == old(cur) || fresh(cur))
      ensures Written() == old(Written()) + AtomBytes(v)
    {
      match v
      case Null => WriteChar(N);
      case Bool(flag) => WriteChar(if flag then T else F);
      case Int(n) => WriteTagged(SMALL, Int4(n));
      case Int32(n) => WriteTagged(LARGE, Int4(n));
      case Float(bits) => WriteTagged(FLOAT, bits);
    }

    method WriteTagged(tag: Byte, s: seq<Byte>)
      requires Valid()
      modifies `olds, `cur, `pos, `totlen, cur
      ensures Valid() && (cur == old(cur) || fresh(cur))
      ensures Written() == old(Written()) + ([tag] + s)
    {
      WriteChar(tag);
      WriteStr(s);
    }

    /** `serialize_rec`. It gives up, as the library does, when values nest too deep. */
    method Serialize(h: Heap, v: Value) returns (ok: bool)
      requires Valid() && Numbering() && nrec <= MAX_DEPTH
      modifies this, cur
      ensures Valid() && Numbering() && (cur == old(cur) || fresh(cur))
      ensures Outcome(ok) == Onto(old(Written()), Ser(h, v, old(order), old(nrec))) && nrec == old(nrec)
      decreases MAX_DEPTH - nrec, 0, 0
    {
      ok := nrec < MAX_DEPTH;
      if ok {
        nrec := nrec + 1;
        if v.Ref? {
          ok := SerializeRef(h, v.at);
        } else if v.Hash? {
          ok := SerializeHash(h, v.buckets);
        } else {
          SerializeAtom(v);
        }
        nrec := nrec - 1;
      }
    }

    method SerializeRef(h: Heap, a: nat) returns (ok: bool)
      requires Valid() && Numbering() && 0 < nrec <= MAX_DEPTH
      modifies this, cur
      ensures Valid() && Numbering() && (cur == old(cur) || fresh(cur))
      ensures Outcome(ok) == Onto(old(Written()), Ser(h, Ref(a), old(order), old(nrec) - 1)) && nrec == old(nrec)
      decreases MAX_DEPTH - nrec, 4
    {
      SerRef(h, a, order, nrec - 1);
      hide Ser;
      var hooked := a < |h| && h[a].Obj?;
      if hooked {
        hooked := HasSerialize(h[a].fields);
      }
      var known := WriteRef(a, hooked);
      ok := known || (a < |h| && !hooked);
      if !known && ok {
        ok := SerializeNode(h, h[a]);
      }
    }

    method SerializeNode(h: Heap, node: Node) returns (ok: bool)
      requires Valid() && Numbering() && nrec <= MAX_DEPTH
      modifies this, cur
      ensures Valid() && Numbering() && (cur == old(cur) || fresh(cur))
      ensures Outcome(ok)
        == Onto(old(Written()), SerBody(h, NodeHead(node), NodeItems(node), NodeTail(node), old(order), old(nrec)))
      ensures nrec == old(nrec)
      decreases MAX_DEPTH - nrec, 3
    {
      ghost var before := Written();
      BodyDone(before, h, NodeHead(node), NodeItems(node), NodeTail(node), order, nrec);
      WriteHead(node);
      ok := WriteContents(h, node);
      if ok {
        WriteTail(node);
      }
    }

    method WriteContents(h: Heap, node: Node) returns (ok: bool)
      requires Valid() && Numbering() && nrec <= MAX_DEPTH
      modifies this, cur
      ensures Valid() && Numbering() && (cur == old(cur) || fresh(cur)) && nrec == old(nrec)
      ensures Outcome(ok) == Onto(old(Written()), SerItems(h, NodeItems(node), old(order), old(nrec)))
      decreases MAX_DEPTH - nrec, 2, 1
    {
      match node
      case Str(s) => ok := true;
      case Arr(vs) => ok := WriteItems(h, vs);
      case Obj(fields, proto) => ok := WriteFields(h, fields, proto);
    }

    method WriteTail(node: Node)
      requires Valid()
      modifies `olds, `cur, `pos, `totlen, cur
      ensures Valid() && (cur == old(cur) || fresh(cur))
      ensures Written() == old(Written()) + NodeTail(node)
    {
      if node.Obj? && node.proto.None? {
        WriteInt(0);
        WriteChar(NO_PROTO);
      }
    }

    method WriteHead(node: Node)
      requires Valid()
      modifies `olds, `cur, `pos, `totlen, cur
      ensures Valid() && (cur == old(cur) || fresh(cur))
      ensures Written() == old(Written()) + NodeHead(node)
    {
      match node
      case Str(s) => WriteChar(STRING); WriteInt(|s|); WriteStr(s);
      case Arr(vs) => WriteChar(ARRAY); WriteInt(|vs|);
      case Obj(_, _) => WriteChar(OBJECT);
    }

    method WriteItems(h: Heap, vs: seq<Value>) returns (ok: bool)
      requires Valid() && Numbering() && nrec <= MAX_DEPTH
      modifies this, cur
      ensures Valid() && Numbering() && (cur == old(cur) || fresh(cur)) && nrec == old(nrec)
      ensures Outcome(ok) == Onto(old(Written()), SerItems(h, ArrayItems(vs), old(order), old(nrec)))
      decreases MAX_DEPTH - nrec, 1
    {
      ghost var target := Onto(Written(), SerItems(h, ArrayItems(vs), order, nrec));
      ok := true;
      var i := 0;
      assert vs[0..] == vs;
      while ok && i < |vs|
        invariant 0 <= i <= |vs| && Valid() && Numbering() && (cur == old(cur) || fresh(cur)) && nrec == old(nrec)
        invariant target == if ok then Onto(Written(), SerItems(h, ArrayItems(vs[i..]), order, nrec)) else Failed
      {
        ArrayItemsOf(vs, i);
        ok := WriteItem(h, vs[i], ArrayItems(vs[i + 1..]));
        i := i + 1;
      }
    }

    method WriteItem(h: Heap, v: Value, ghost rest: seq<Item>) returns (ok: bool)
      requires Valid() && Numbering() && nrec <= MAX_DEPTH
      modifies this, cur
      ensures Valid() && Numbering() && (cur == old(cur) || fresh(cur)) && nrec == old(nrec)
      ensures Onto(old(Written()), SerItems(h, [Item([], v)] + rest, old(order), old(nrec))) ==
              if ok then Onto(Written(), SerItems(h, rest, order, nrec)) else Failed
      decreases MAX_DEPTH - nrec, 0, 1
    {
      ghost var items := [Item([], v)] + rest;
      ItemStep(Written(), h, items, order, nrec);
      assert items[1..] == rest && Written() + [] == Written();
      ok := Serialize(h, v);
    }

    /** A value with an integer before it: a field and its id, or a cell and its hash key. */
    method WriteKeyed(h: Heap, n: int, v: Value) returns (ok: bool)
      requires Valid() && Numbering() && nrec <= MAX_DEPTH
      modifies this, cur
      ensures Valid() && Numbering() && (cur == old(cur) || fresh(cur)) && nrec == old(nrec)
      ensures Outcome(ok) == Onto(old(Written()) + Int4(n), Ser(h, v, old(order), old(nrec)))
      decreases MAX_DEPTH - nrec, 0, 1
    {
      WriteInt(n);
      ok := Serialize(h, v);
    }

    method WriteFields(h: Heap, fields: seq<Cell<Value>>, proto: Option<nat>) returns (ok: bool)
      requires Valid() && Numbering() && nrec <= MAX_DEPTH
      modifies this, cur
      ensures Valid() && Numbering() && (cur == old(cur) || fresh(cur)) && nrec == old(nrec)
      ensures Outcome(ok) == Onto(old(Written()), SerItems(h, ObjectItems(fields, proto), old(order), old(nrec)))
      decreases MAX_DEPTH - nrec, 2, 0
    {
      ghost var target := Onto(Written(), SerItems(h, ObjectItems(fields, proto), order, nrec));
      ok := true;
      var i := 0;
      assert fields[0..] == fields;
      while ok && i < |fields|
        invariant 0 <= i <= |fields| && Valid() && Numbering() && (cur == old(cur) || fresh(cur)) && nrec == old(nrec)
        invariant target == if ok then Onto(Written(), SerItems(h, ObjectItems(fields[i..], proto), order, nrec))
          else Failed
      {
        ItemStep(Written(), h, ObjectItems(fields[i..], proto), order, nrec);
        ok := WriteKeyed(h, fields[i].id, fields[i].v);
        i := i + 1;
      }
      if ok && proto.Some? {
        ok := WriteProto(h, proto.value);
      }
    }

    method WriteProto(h: Heap, p: nat) returns (ok: bool)
      requires Valid() && Numbering() && nrec <= MAX_DEPTH
      modifies this, cur
      ensures Valid() && Numbering() && (cur == old(cur) || fresh(cur)) && nrec == old(nrec)
      ensures Outcome(ok) == Onto(old(Written()), SerItems(h, ObjectItems([], Some(p)), old(order), old(nrec)))
      decreases MAX_DEPTH - nrec, 1
    {
      ItemStep(Written(), h, ObjectItems([], Some(p)), order, nrec);
      ghost var before := Written();
      WriteInt(0);
      WriteChar(PROTO);
      assert Written() == before + (Int4(0) + [PROTO]);
      ok := Serialize(h, Ref(p));
    }

    method SerializeHash(h: Heap, buckets: seq<Bucket>) returns (ok: bool)
      requires Valid() && Numbering() && 0 < nrec <= MAX_DEPTH
      modifies this, cur
      ensures Valid() && Numbering() && (cur == old(cur) || fresh(cur)) && nrec == old(nrec)
      ensures Outcome(ok) == Onto(old(Written()), Ser(h, Hash(buckets), old(order), old(nrec) - 1))
      decreases MAX_DEPTH - nrec, 4
    {
      ghost var head := [HASH] + Int4(|buckets|) + Int4(|Flatten(buckets)|);
      ghost var before := Written();
      BodyDone(before, h, head, CellItems(Flatten(buckets)), [], order, nrec);
      WriteHashHead(buckets);
      ok := WriteBuckets(h, buckets);
      if ok {
        assert Written() + [] == Written();
      }
    }

    method WriteHashHead(buckets: seq<Bucket>)
      requires Valid()
      modifies `olds, `cur, `pos, `totlen, cur
      ensures Valid() && (cur == old(cur) || fresh(cur))
      ensures Written() == old(Written()) + ([HASH] + Int4(|buckets|) + Int4(|Flatten(buckets)|))
    {
      WriteChar(HASH);
      WriteInt(|buckets|);
      WriteInt(|Flatten(buckets)|);
    }

    /** Bucket after bucket, and each chain in order. */
    method WriteBuckets(h: Heap, buckets: seq<Bucket>) returns (ok: bool)
      requires Valid() && Numbering() && nrec <= MAX_DEPTH
      modifies this, cur
      ensures Valid() && Numbering() && (cur == old(cur) || fresh(cur)) && nrec == old(nrec)
      ensures Outcome(ok) == Onto(old(Written()), SerItems(h, CellItems(Flatten(buckets)), old(order), old(nrec)))
      decreases MAX_DEPTH - nrec, 3
    {
      ghost var target := Onto(Written(), SerItems(h, CellItems(Flatten(buckets)), order, nrec));
      ok := true;
      var i := 0;
      assert buckets[0..] == buckets;
      while ok && i < |buckets|
        invariant 0 <= i <= |buckets| && Valid() && Numbering() && (cur == old(cur) || fresh(cur)) && nrec == old(nrec)
        invariant target == if ok then Onto(Written(), SerItems(h, CellItems(Flatten(buckets[i..])), order, nrec))
          else Failed
      {
        ok := WriteChain(h, buckets[i].cells, Flatten(buckets[i + 1..]));
        i := i + 1;
      }
    }

    method WriteChain(h: Heap, cells: seq<HCell>, ghost rest: seq<HCell>) returns (ok: bool)
      requires Valid() && Numbering() && nrec <= MAX_DEPTH
      modifies this, cur
      ensures Valid() && Numbering() && (cur == old(cur) || fresh(cur)) && nrec == old(nrec)
      ensures Onto(old(Written()), SerItems(h, CellItems(cells + rest), old(order), old(nrec))) ==
              if ok then Onto(Written(), SerItems(h, CellItems(rest), order, nrec)) else Failed
      decreases MAX_DEPTH - nrec, 2
    {
      hide Onto, SerItems, CellItems;
      ghost var target := Onto(Written(), SerItems(h, CellItems(cells + rest), order, nrec));
      ok := true;
      var j := 0;
      assert cells[0..] == cells;
      while ok && j < |cells|
        invariant 0 <= j <= |cells| && Valid() && Numbering() && (cur == old(cur) || fresh(cur)) && nrec == old(nrec)
        invariant target == if ok then Onto(Written(), SerItems(h, CellItems(cells[j..] + rest), order, nrec))
          else Failed
      {
        assert cells[j..] + rest == [cells[j]] + (cells[j + 1..] + rest);
        ok := WriteCell(h, cells[j], cells[j + 1..] + rest);
        j := j + 1;
      }
      assert ok ==> cells[j..] + rest == rest;
    }

    method WriteCell(h: Heap, c: HCell, ghost rest: seq<HCell>) returns (ok: bool)
      requires Valid() && Numbering() && nrec <= MAX_DEPTH
      modifies this, cur
      ensures Valid() && Numbering() && (cur == old(cur) || fresh(cur)) && nrec == old(nrec)
      ensures Onto(old(Written()), SerItems(h, CellItems([c] + rest), old(order), old(nrec))) ==
              if ok then Onto(Written(), SerItems(h, CellItems(rest), order, nrec)) else Failed
      decreases MAX_DEPTH - nrec, 1
    {
      CellItemsOf(c, rest);
      ItemStep(Written(), h, CellItems([c] + rest), order, nrec);
      ok := WriteKeyed(h, c.hkey, c.key);
      if ok {
        ok := WriteItem(h, c.val, CellItems(rest));
      }
    }

    /** The last part of `serialize`: the chunks are copied into one string from its end backwards. */
    method Contents() returns (s: array<Byte>)
      requires Valid()
      ensures fresh(s) && s[..] == Written()
    {
      s := new Byte[totlen + pos](_ => 0);
      CopyAt(s, totlen, cur[..pos]);
      var at, k := totlen, |olds|;
      ghost var whole := Written();
      assert olds[..k] == olds && s[at..] == cur[..pos];
      while k > 0
        invariant 0 <= k <= |olds| && at == |Joined(olds[..k])| <= s.Length
        invariant Joined(olds[..k]) + s[at..] == whole
      {
        k := k - 1;
        at := Prepend(s, at, olds, k);
      }
    }

    /** One chunk goes before what has been copied. */
    static method Prepend(s: array<Byte>, at: nat, olds: seq<seq<Byte>>, k: nat) returns (at': nat)
      requires k < |olds| && at == |Joined(olds[..k + 1])| <= s.Length
      modifies s
      ensures at' == |Joined(olds[..k])| <= at
      ensures Joined(olds[..k]) + s[at'..] == old(Joined(olds[..k + 1]) + s[at..])
    {
      ghost var tail := s[at..];
      assert olds[..k + 1] == olds[..k] + [olds[k]];
      JoinedOne(olds[..k], olds[k]);
      at' := at - |olds[k]|;
      CopyAt(s, at', olds[k]);
      assert s[at'..] == olds[k] + tail;
      assert Joined(olds[..k]) + (olds[k] + tail) == Joined(olds[..k]) + olds[k] + tail;
    }
  }

  /** `val_iter_fields` with `lookup_serialize_field`. */
  method HasSerialize(fields: seq<Cell<Value>>) returns (found: bool)
    ensures found <==> exists i :: 0 <= i < |fields| && fields[i].id == SERIALIZE
  {
    found := false;
    for i := 0 to |fields|
      invariant found <==> exists j :: 0 <= j < i && fields[j].id == SERIALIZE
    {
      found := found || fields[i].id == SERIALIZE;
    }
  }

  /** `serialize`: the whole string, or the failure of a value nested too deep or with a `__serialize`. */
  method SerializeAll(h: Heap, v: Value) returns (s: Option<array<Byte>>)
    ensures match Ser(h, v, [], 0)
            case Failed => s == None
            case Wrote(bytes, _) => s.Some? && fresh(s.value) && s.value[..] == bytes
    ensures s.Some? <==> SerialDepth.Writable(h, v)
  {
    hide Ser, SerialDepth.Writable;
    SerialDepth.WrittenIff(h, v);
    var w := new Writer();
    var ok := w.Serialize(h, v);
    if !ok {
      return None;
    }
    var chars := w.Contents();
    assert [] + w.Written() == w.Written();
    return Some(chars);
  }

  /** The descent of `write_ref`: the subtree at `a`, or a leaf. */
  method Searched(t: Tree, a: nat) returns (d: Tree)
    ensures d.Node? <==> Number(t, a).Some?
    ensures d.Node? ==> d.data == a && Number(t, a) == Some(d.k)
  {
    d := t;
    while d.Node? && d.data != a
      invariant Number(d, a) == Number(t, a)
      decreases d
    {
      d := if d.data < a then d.left else d.right;
    }
  }

  method CopyAt(s: array<Byte>, at: nat, x: seq<Byte>)
    requires at + |x| <= s.Length
    modifies s
    ensures s[..] == old(s[..at]) + x + old(s[at + |x|..])
  {
    ghost var before := s[..];
    for i := 0 to |x|
      invariant s[..at] == before[..at] && s[at + |x|..] == before[at + |x|..] && s[at..at + i] == x[..i]
    {
      s[at + i] := x[i];
      assert s[at..at + i + 1] == s[at..at + i] + [x[i]];
    }
    assert s[..] == s[..at] + s[at..at + |x|] + s[at + |x|..];
  }
}
