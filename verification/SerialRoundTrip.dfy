/** Reading back what was written rebuilds the heap that was written, up to addresses. */
module SerialRoundTrip {
  import opened MachineInt
  import opened ObjTable
  import opened SerialFormat
  import opened SerialReach
  import opened SerialRenaming

  // ------------------------------------------------------------------- bytes in place

  predicate At(b: seq<Byte>, pos: nat, bytes: seq<Byte>) {
    pos + |bytes| <= |b| && b[pos..pos + |bytes|] == bytes
  }

  lemma AtSplit(b: seq<Byte>, pos: nat, x: seq<Byte>, y: seq<Byte>)
    requires At(b, pos, x + y)
    ensures At(b, pos, x) && At(b, pos + |x|, y)
  {
    var all := b[pos..pos + |x + y|];
    assert b[pos..pos + |x|] == all[..|x|] && (x + y)[..|x|] == x;
    assert b[pos + |x|..pos + |x| + |y|] == all[|x|..] && (x + y)[|x|..] == y;
  }

  lemma AtByte(b: seq<Byte>, pos: nat, c: Byte, rest: seq<Byte>)
    requires At(b, pos, [c] + rest)
    ensures pos < |b| && b[pos] == c && At(b, pos + 1, rest)
  {
    AtSplit(b, pos, [c], rest);
    assert b[pos..pos + 1][0] == c;
  }

  lemma Digits(n: int)
    requires IsInt32(n)
    ensures var u := n % 256 + 256 * (n / 256 % 256) + 65536 * (n / 256 / 256 % 256)
                     + 16777216 * (n / 256 / 256 / 256 % 256);
            n == if u < 0x8000_0000 then u else u - 0x1_0000_0000
  {
    var q1 := n / 256;
    var q2 := q1 / 256;
    var q3 := q2 / 256;
    assert -0x80_0000 <= q1 < 0x80_0000 && -0x8000 <= q2 < 0x8000 && -0x80 <= q3 < 0x80;
    assert n == 256 * q1 + n % 256 && q1 == 256 * q2 + q1 % 256 && q2 == 256 * q3 + q2 % 256;
    assert q3 % 256 == if q3 < 0 then q3 + 256 else q3;
  }

  /** A 32-bit integer survives its four bytes. */
  lemma IntBack(b: seq<Byte>, pos: nat, n: int)
    requires At(b, pos, Int4(n)) && IsInt32(n)
    ensures pos + 4 <= |b| && IntAt(b, pos) == n
  {
    var s := b[pos..pos + 4];
    assert s[0] == b[pos] && s[1] == b[pos + 1] && s[2] == b[pos + 2] && s[3] == b[pos + 3];
    Digits(n);
  }

  // ------------------------------------------------------------------- the reader's state

  /** The reader's table gives each number a node of the right sort. */
  ghost predicate Numbers(h: Heap, refs: seq<nat>, st: State) {
    && HasConstants(st.heap) && |st.trefs| == |refs|
    && forall k :: 0 <= k < |refs| ==> SameSort(h, refs[k], st.heap, st.trefs[k])
  }

  predicate SameSort(h: Heap, a: nat, heap: Heap, a': nat) {
    a < |h| && a' < |heap| && (h[a].Obj? <==> heap[a'].Obj?)
  }

  predicate Shared(node: Node) {
    node == Str([]) || node == Arr([])
  }

  /** Node number `k` is finished: it is the written node renamed, and it is new unless it is one of the
      shared constants. */
  ghost predicate Rebuilt(h: Heap, refs: seq<nat>, st: State, k: nat, base: nat)
    requires k < |refs| && k < |st.trefs|
  {
    && refs[k] < |h| && st.trefs[k] < |st.heap|
    && st.heap[st.trefs[k]] == RenameNode(h[refs[k]], refs, st.trefs)
    && if Shared(h[refs[k]]) then st.trefs[k] <= EMPTY_ARRAY else base <= st.trefs[k]
  }

  /** Different nodes got different addresses. */
  ghost predicate Apart(h: Heap, refs: seq<nat>, trefs: seq<nat>, from: nat)
    requires |refs| == |trefs|
  {
    forall j, k :: from <= j < k < |refs| && IsOwn(h, refs[j]) && IsOwn(h, refs[k]) ==> trefs[j] < trefs[k]
  }

  predicate IsOwn(h: Heap, a: nat) {
    a < |h| && !Shared(h[a])
  }

  /** From `refs` to `refs'`: all nodes numbered on the way are finished, and the old heap is as it was,
      except at the node being filled. */
  ghost predicate Built(h: Heap, refs: seq<nat>, st: State, at: int, refs': seq<nat>, st': State) {
    && Numbers(h, refs', st')
    && refs <= refs' && st.trefs <= st'.trefs && |refs| == |st.trefs|
    && Keeps(st, at, st')
    && (forall k :: |refs| <= k < |refs'| ==> Rebuilt(h, refs', st', k, |st.heap|))
    && Apart(h, refs', st'.trefs, |refs|)
  }

  ghost predicate Returns(h: Heap, v: Value, refs: seq<nat>, w: Wrote, pos: nat, st: State, r: Read<Value>)
    requires w.Wrote?
  {
    if Clean(h, w.refs, |refs|) then
      r.Read? && r.pos == pos + |w.bytes| && r.v == Rename(v, w.refs, r.st.trefs)
        && Built(h, refs, st, -1, w.refs, r.st)
    else r == Bad
  }

  /** What a read that comes back has done. */
  lemma ReturnsWhat(h: Heap, v: Value, refs: seq<nat>, w: Wrote, pos: nat, st: State, r: Read<Value>)
    requires w.Wrote? && Returns(h, v, refs, w, pos, st, r)
    ensures r.Read? <==> Clean(h, w.refs, |refs|)
    ensures r.Read? ==> r.pos == pos + |w.bytes| && Numbers(h, w.refs, r.st)
  {
  }

  lemma CleanSplit(h: Heap, refs: seq<nat>, refs1: seq<nat>, refs2: seq<nat>)
    requires refs <= refs1 <= refs2
    ensures Clean(h, refs2, |refs|) <==> Clean(h, refs1, |refs|) && Clean(h, refs2, |refs1|)
  {
  }

  /** Filling one slot of an open node does not disturb what is built. */
  lemma NumbersStore(h: Heap, refs: seq<nat>, st: State, at: nat, node: Node)
    requires Numbers(h, refs, st) && EMPTY_ARRAY < at < |st.heap|
    requires node.Obj? == st.heap[at].Obj?
    ensures Numbers(h, refs, Store(st, at, node))
  {
    forall k | 0 <= k < |refs|
      ensures SameSort(h, refs[k], Store(st, at, node).heap, st.trefs[k])
    {
      assert SameSort(h, refs[k], st.heap, st.trefs[k]);
    }
  }

  lemma BuiltStay(h: Heap, refs: seq<nat>, st: State, at: int)
    requires Numbers(h, refs, st)
    ensures Built(h, refs, st, at, refs, st)
  {
  }

  /** Two stretches of building in a row, with at most a store into an open node between them. */
  lemma BuiltThen(h: Heap, refs: seq<nat>, st: State, at: int, refs1: seq<nat>, st1: State, mid: State,
                  refs2: seq<nat>, st2: State)
    requires at == -1 || EMPTY_ARRAY < at < |st.heap|
    requires Built(h, refs, st, -1, refs1, st1) && Seen(h, refs, |refs|, refs1)
    requires Keeps(st1, at, mid) && |mid.heap| == |st1.heap| && mid.trefs == st1.trefs
    requires Built(h, refs1, mid, at, refs2, st2)
    ensures Built(h, refs, st, at, refs2, st2)
  {
    forall k | |refs| <= k < |refs2|
      ensures Rebuilt(h, refs2, st2, k, |st.heap|)
    {
      if k < |refs1| {
        RebuiltLater(h, refs1, st1, k, |st.heap|, at, refs2, st2);
      } else {
        assert Rebuilt(h, refs2, st2, k, |st1.heap|);
      }
    }
    ApartThen(h, refs, st, refs1, st1, refs2, st2);
  }

  /** A finished node stays finished. */
  lemma RebuiltLater(h: Heap, refs1: seq<nat>, st1: State, k: nat, base: nat, at: int, refs2: seq<nat>, st2: State)
    requires k < |refs1| == |st1.trefs| && Rebuilt(h, refs1, st1, k, base) && at < base
    requires at > EMPTY_ARRAY || at == -1
    requires refs1 <= refs2 && st1.trefs <= st2.trefs && |refs2| == |st2.trefs|
    requires Keeps(st1, at, st2)
    requires NodeCovered(h[refs1[k]], refs1)
    ensures Rebuilt(h, refs2, st2, k, base)
  {
    RenameNodeStable(h[refs1[k]], refs1, st1.trefs, refs2, st2.trefs);
    assert st1.trefs[k] != at;
  }

  lemma ApartThen(h: Heap, refs: seq<nat>, st: State, refs1: seq<nat>, st1: State, refs2: seq<nat>, st2: State)
    requires refs <= refs1 <= refs2 && st1.trefs <= st2.trefs && |refs1| == |st1.trefs| && |refs2| == |st2.trefs|
    requires forall k :: |refs| <= k < |refs1| ==> Rebuilt(h, refs1, st1, k, |st.heap|)
    requires forall k :: |refs1| <= k < |refs2| ==> Rebuilt(h, refs2, st2, k, |st1.heap|)
    requires Apart(h, refs1, st1.trefs, |refs|) && Apart(h, refs2, st2.trefs, |refs1|)
    ensures Apart(h, refs2, st2.trefs, |refs|)
  {
    forall j, k | |refs| <= j < k < |refs2| && IsOwn(h, refs2[j]) && IsOwn(h, refs2[k])
      ensures st2.trefs[j] < st2.trefs[k]
    {
      if j < |refs1| <= k {
        assert Rebuilt(h, refs1, st1, j, |st.heap|) && Rebuilt(h, refs2, st2, k, |st1.heap|);
      } else if k < |refs1| {
        assert refs2[j] == refs1[j] && refs2[k] == refs1[k];
      }
    }
  }

  // ------------------------------------------------------------------- one value

  lemma Sized(b: seq<Byte>, pos: nat, tag: Byte, n: int, rest: seq<Byte>, st: State)
    requires tag in {SMALL, LARGE, STRING, REFERENCE, ARRAY, HASH} && IsInt32(n)
    requires At(b, pos, [tag] + Int4(n) + rest)
    ensures pos + 5 <= |b| && At(b, pos + 5, rest)
    ensures Unser(b, pos, st) == UnserSized(b, tag, n, pos + 5, st)
  {
    assert [tag] + Int4(n) + rest == [tag] + (Int4(n) + rest);
    AtByte(b, pos, tag, Int4(n) + rest);
    AtSplit(b, pos + 1, Int4(n), rest);
    IntBack(b, pos + 1, n);
  }

  /** The preconditions that all cases of the induction share. */
  ghost predicate Reading(h: Heap, refs: seq<nat>, st: State, w: Wrote, b: seq<Byte>, pos: nat) {
    && HeapOk(h) && Numbers(h, refs, st)
    && w.Wrote? && IsInt32(|w.refs|) && At(b, pos, w.bytes)
  }

  lemma AtomBack(h: Heap, v: Value, refs: seq<nat>, depth: nat, b: seq<Byte>, pos: nat, st: State)
    requires depth < MAX_DEPTH && ValueOk(v, h) && !v.Ref? && !v.Hash?
    requires Reading(h, refs, st, Ser(h, v, refs, depth), b, pos)
    ensures Returns(h, v, refs, Ser(h, v, refs, depth), pos, st, Unser(b, pos, st))
  {
    BuiltStay(h, refs, st, -1);
    match v
    case Int(n) => assert [SMALL] + Int4(n) == [SMALL] + Int4(n) + []; Sized(b, pos, SMALL, n, [], st);
    case Int32(n) => assert [LARGE] + Int4(n) == [LARGE] + Int4(n) + []; Sized(b, pos, LARGE, n, [], st);
    case Float(bits) => AtByte(b, pos, FLOAT, bits);
    case Bool(flag) => AtByte(b, pos, if flag then T else F, []);
    case Null => AtByte(b, pos, N, []);
  }

  lemma ReferenceBack(h: Heap, a: nat, refs: seq<nat>, depth: nat, b: seq<Byte>, pos: nat, st: State)
    requires depth < MAX_DEPTH && Find(refs, a).Some?
    requires Reading(h, refs, st, Ser(h, Ref(a), refs, depth), b, pos)
    ensures Returns(h, Ref(a), refs, Ser(h, Ref(a), refs, depth), pos, st, Unser(b, pos, st))
  {
    BuiltStay(h, refs, st, -1);
    var n := |refs| - 1 - Find(refs, a).value;
    assert [REFERENCE] + Int4(n) == [REFERENCE] + Int4(n) + [];
    Sized(b, pos, REFERENCE, n, [], st);
  }

  /** A node whose contents have been read is one more finished node. */
  lemma BuiltNode(h: Heap, a: nat, refs: seq<nat>, st: State, node: Node, refs2: seq<nat>, st2: State)
    requires Numbers(h, refs, st) && a < |h| && !Shared(h[a])
    requires node.Obj? == h[a].Obj?
    requires Built(h, refs + [a], Alloc(st, node), |st.heap|, refs2, st2)
    requires st2.heap[|st.heap|] == RenameNode(h[a], refs2, st2.trefs)
    ensures Built(h, refs, st, -1, refs2, st2)
  {
    var open := Alloc(st, node);
    assert refs2[|refs|] == (refs + [a])[|refs|] && st2.trefs[|refs|] == open.trefs[|refs|];
    forall k | |refs| <= k < |refs2|
      ensures Rebuilt(h, refs2, st2, k, |st.heap|)
    {
      if k > |refs| {
        assert Rebuilt(h, refs2, st2, k, |open.heap|);
      }
    }
    forall j, k | |refs| <= j < k < |refs2| && IsOwn(h, refs2[j]) && IsOwn(h, refs2[k])
      ensures st2.trefs[j] < st2.trefs[k]
    {
      assert Rebuilt(h, refs2, st2, k, |open.heap|);
    }
    forall j | 0 <= j < |st.heap|
      ensures st2.heap[j] == st.heap[j]
    {
      assert open.heap[j] == st.heap[j];
    }
  }

  lemma NumbersAlloc(h: Heap, a: nat, refs: seq<nat>, st: State, node: Node)
    requires Numbers(h, refs, st) && a < |h| && node.Obj? == h[a].Obj?
    ensures Numbers(h, refs + [a], Alloc(st, node))
  {
    forall k | 0 <= k < |refs| + 1
      ensures SameSort(h, (refs + [a])[k], Alloc(st, node).heap, Alloc(st, node).trefs[k])
    {
      if k < |refs| {
        assert SameSort(h, refs[k], st.heap, st.trefs[k]);
      }
    }
  }

  lemma SharedBack(h: Heap, a: nat, refs: seq<nat>, st: State)
    requires Numbers(h, refs, st) && a < |h| && Shared(h[a])
    ensures Built(h, refs, st, -1, refs + [a], AddRef(st, if h[a].Str? then EMPTY_STRING else EMPTY_ARRAY))
  {
    var st2 := AddRef(st, if h[a].Str? then EMPTY_STRING else EMPTY_ARRAY);
    forall k | 0 <= k < |refs| + 1
      ensures SameSort(h, (refs + [a])[k], st2.heap, st2.trefs[k])
    {
      if k < |refs| {
        assert SameSort(h, refs[k], st.heap, st.trefs[k]);
      }
    }
    assert RenameNode(Arr([]), refs + [a], st2.trefs) == Arr([]);
    assert Rebuilt(h, refs + [a], st2, |refs|, |st.heap|);
  }

  // ------------------------------------------------------------------- the writer, unfolded once

  lemma ItemsWrite(h: Heap, items: seq<Item>, refs: seq<nat>, depth: nat) returns (w1: Wrote, w2: Wrote)
    requires depth <= MAX_DEPTH && items != [] && SerItems(h, items, refs, depth).Wrote?
    ensures w1 == Ser(h, items[0].v, refs, depth) && w1.Wrote?
    ensures w2 == SerItems(h, items[1..], w1.refs, depth) && w2.Wrote?
    ensures SerItems(h, items, refs, depth) == Wrote(items[0].lead + (w1.bytes + w2.bytes), w2.refs)
  {
    w1 := Ser(h, items[0].v, refs, depth);
    w2 := SerItems(h, items[1..], w1.refs, depth);
    assert items[0].lead + w1.bytes + w2.bytes == items[0].lead + (w1.bytes + w2.bytes);
  }

  lemma NodeWrites(h: Heap, a: nat, refs: seq<nat>, depth: nat) returns (body: Wrote)
    requires depth < MAX_DEPTH && a < |h| && Find(refs, a).None?
    requires Ser(h, Ref(a), refs, depth).Wrote?
    ensures body == SerItems(h, NodeItems(h[a]), refs + [a], depth + 1) && body.Wrote?
    ensures Ser(h, Ref(a), refs, depth) == Wrote(NodeHead(h[a]) + body.bytes + NodeTail(h[a]), body.refs)
  {
    body := SerItems(h, NodeItems(h[a]), refs + [a], depth + 1);
    assert Ser(h, Ref(a), refs, depth)
      == SerBody(h, NodeHead(h[a]), NodeItems(h[a]), NodeTail(h[a]), refs + [a], depth + 1);
  }

  lemma HashWrites(h: Heap, buckets: seq<Bucket>, refs: seq<nat>, depth: nat) returns (body: Wrote)
    requires depth < MAX_DEPTH && Ser(h, Hash(buckets), refs, depth).Wrote?
    ensures body == SerItems(h, CellItems(Flatten(buckets)), refs, depth + 1) && body.Wrote?
    ensures Ser(h, Hash(buckets), refs, depth) ==
            Wrote([HASH] + Int4(|buckets|) + (Int4(|Flatten(buckets)|) + body.bytes), body.refs)
  {
    body := SerItems(h, CellItems(Flatten(buckets)), refs, depth + 1);
    var head := [HASH] + Int4(|buckets|) + Int4(|Flatten(buckets)|);
    assert Ser(h, Hash(buckets), refs, depth) == SerBody(h, head, CellItems(Flatten(buckets)), [], refs, depth + 1);
    assert head + body.bytes + [] == [HASH] + Int4(|buckets|) + (Int4(|Flatten(buckets)|) + body.bytes);
  }

  // ------------------------------------------------------------------- contents

  /** What filling an array from element `i` leaves in it. */
  ghost predicate ArrayFilled(vs: seq<Value>, i: nat, before: Node, refs: seq<nat>, trefs: seq<nat>, after: Node) {
    && before.Arr? && after.Arr? && |before.items| == |after.items| == |vs|
    && forall j :: 0 <= j < |vs| ==> after.items[j] == if j < i then before.items[j] else Rename(vs[j], refs, trefs)
  }

  ghost predicate ArrayReturns(h: Heap, vs: seq<Value>, i: nat, refs: seq<nat>, w: Wrote, at: nat, pos: nat, st: State,
                               r: Read<()>)
    requires w.Wrote? && at < |st.heap|
  {
    if Clean(h, w.refs, |refs|) then
      && r.Read? && r.pos == pos + |w.bytes| && Built(h, refs, st, at, w.refs, r.st)
      && ArrayFilled(vs, i, st.heap[at], w.refs, r.st.trefs, r.st.heap[at])
    else r == Bad
  }

  lemma {:induction false} ArrayBack(h: Heap, vs: seq<Value>, i: nat, refs: seq<nat>, depth: nat, b: seq<Byte>,
                                     at: nat, pos: nat, st: State)
    requires depth <= MAX_DEPTH && i <= |vs| && forall v <- vs :: ValueOk(v, h)
    requires EMPTY_ARRAY < at < |st.heap| && st.heap[at].Arr? && |st.heap[at].items| == |vs|
    requires Reading(h, refs, st, SerItems(h, ArrayItems(vs[i..]), refs, depth), b, pos)
    ensures ArrayReturns(h, vs, i, refs, SerItems(h, ArrayItems(vs[i..]), refs, depth), at, pos, st,
      ReadArray(b, at, i, pos, st))
    decreases MAX_DEPTH - depth, |vs| - i + 1
  {
    if i == |vs| {
      BuiltStay(h, refs, st, at);
    } else {
      var w1, w2 := ElementWrites(h, vs, i, refs, depth);
      AtSplit(b, pos, w1.bytes, w2.bytes);
      ValueBack(h, vs[i], refs, depth, b, pos, st);
      var r1 := Unser(b, pos, st);
      if r1.Read? {
        var mid := Store(r1.st, at, Arr(r1.st.heap[at].items[i := r1.v]));
        NumbersStore(h, w1.refs, r1.st, at, mid.heap[at]);
        ArrayBack(h, vs, i + 1, w1.refs, depth, b, at, r1.pos, mid);
        ArrayThen(h, vs, i, refs, depth, at, pos, st, w1, r1, mid, w2, ReadArray(b, at, i + 1, r1.pos, mid));
      } else {
        CleanSplit(h, refs, w1.refs, w2.refs);
      }
    }
  }

  lemma ElementWrites(h: Heap, vs: seq<Value>, i: nat, refs: seq<nat>, depth: nat) returns (w1: Wrote, w2: Wrote)
    requires depth <= MAX_DEPTH && i < |vs| && SerItems(h, ArrayItems(vs[i..]), refs, depth).Wrote?
    ensures w1 == Ser(h, vs[i], refs, depth) && w1.Wrote?
    ensures w2 == SerItems(h, ArrayItems(vs[i + 1..]), w1.refs, depth) && w2.Wrote?
    ensures SerItems(h, ArrayItems(vs[i..]), refs, depth) == Wrote(w1.bytes + w2.bytes, w2.refs)
  {
    var items := ArrayItems(vs[i..]);
    assert vs[i..][0] == vs[i] && vs[i..][1..] == vs[i + 1..];
    assert items == [Item([], vs[i])] + ArrayItems(vs[i + 1..]);
    assert items[1..] == ArrayItems(vs[i + 1..]);
    w1, w2 := ItemsWrite(h, items, refs, depth);
    assert [] + (w1.bytes + w2.bytes) == w1.bytes + w2.bytes;
  }

  lemma ArrayThen(h: Heap, vs: seq<Value>, i: nat, refs: seq<nat>, depth: nat, at: nat, pos: nat, st: State,
                  w1: Wrote, r1: Read<Value>, mid: State, w2: Wrote, r: Read<()>)
    requires depth <= MAX_DEPTH && i < |vs|
    requires EMPTY_ARRAY < at < |st.heap| && st.heap[at].Arr? && |st.heap[at].items| == |vs|
    requires w1 == Ser(h, vs[i], refs, depth) && w1.Wrote? && w2.Wrote? && w1.refs <= w2.refs
    requires r1.Read? && Returns(h, vs[i], refs, w1, pos, st, r1)
    requires mid == Store(r1.st, at, Arr(st.heap[at].items[i := r1.v]))
    requires ArrayReturns(h, vs, i + 1, w1.refs, w2, at, r1.pos, mid, r)
    ensures ArrayReturns(h, vs, i, refs, Wrote(w1.bytes + w2.bytes, w2.refs), at, pos, st, r)
  {
    CleanSplit(h, refs, w1.refs, w2.refs);
    if r.Read? {
      SerCovers(h, vs[i], refs, depth);
      BuiltThen(h, refs, st, at, w1.refs, r1.st, mid, w2.refs, r.st);
      RenameStable(vs[i], w1.refs, r1.st.trefs, w2.refs, r.st.trefs);
    }
  }

  /** What reading a table's cells adds to it. */
  ghost predicate CellsReturn(h: Heap, cells: seq<HCell>, refs: seq<nat>, w: Wrote, buckets: seq<Bucket>, pos: nat,
                              st: State, r: Read<seq<Bucket>>)
    requires w.Wrote? && (cells != [] ==> |buckets| > 0) && forall c <- cells :: c.hkey >= 0
  {
    if Clean(h, w.refs, |refs|) then
      && r.Read? && r.pos == pos + |w.bytes| && Built(h, refs, st, -1, w.refs, r.st)
      && (forall c <- RenameCells(cells, w.refs, r.st.trefs) :: c.hkey >= 0)
      && r.v == PlaceAll(buckets, RenameCells(cells, w.refs, r.st.trefs))
    else r == Bad
  }

  lemma {:induction false} CellsBack(h: Heap, cells: seq<HCell>, buckets: seq<Bucket>, refs: seq<nat>, depth: nat,
                                     b: seq<Byte>, pos: nat, st: State)
    requires depth <= MAX_DEPTH && CellsOk(cells, h)
    requires (cells != [] ==> |buckets| > 0) && forall c <- cells :: c.hkey >= 0
    requires Reading(h, refs, st, SerItems(h, CellItems(cells), refs, depth), b, pos)
    ensures CellsReturn(h, cells, refs, SerItems(h, CellItems(cells), refs, depth), buckets, pos, st,
      ReadCells(b, |cells|, buckets, pos, st))
    decreases MAX_DEPTH - depth, 2 * |cells| + 2
  {
    if cells == [] {
      BuiltStay(h, refs, st, -1);
    } else {
      var w1, w2, w3 := CellWrites(h, cells, refs, depth);
      CellsStep(h, cells[0], cells[1..], buckets, refs, depth, b, pos, st, w1, w2, w3);
      assert [cells[0]] + cells[1..] == cells;
    }
  }

  lemma CellsStep(h: Heap, c: HCell, cells: seq<HCell>, buckets: seq<Bucket>, refs: seq<nat>, depth: nat, b: seq<Byte>,
                  pos: nat, st: State, w1: Wrote, w2: Wrote, w3: Wrote)
    requires HeapOk(h) && depth <= MAX_DEPTH && CellOk(c, h) && CellsOk(cells, h) && Numbers(h, refs, st)
    requires |buckets| > 0 && c.hkey >= 0 && forall x <- cells :: x.hkey >= 0
    requires w1 == Ser(h, c.key, refs, depth) && w1.Wrote?
    requires w2 == Ser(h, c.val, w1.refs, depth) && w2.Wrote?
    requires w3 == SerItems(h, CellItems(cells), w2.refs, depth) && w3.Wrote? && IsInt32(|w3.refs|)
    requires At(b, pos, Int4(c.hkey) + (w1.bytes + (w2.bytes + w3.bytes)))
    ensures CellsReturn(h, [c] + cells, refs, Wrote(Int4(c.hkey) + (w1.bytes + (w2.bytes + w3.bytes)), w3.refs),
                        buckets, pos, st, ReadCells(b, |cells| + 1, buckets, pos, st))
    decreases MAX_DEPTH - depth, 2 * |cells| + 3
  {
    hide Ser, Unser, Returns, Clean;
    var r1, r2 := PairBack(h, c, refs, depth, b, pos, st, w1, w2, w3.bytes);
    ReadCell(b, |cells| + 1, buckets, pos, st, r1, r2);
    if r2.Read? {
      var placed := Place(buckets, HCell(c.hkey, r1.v, r2.v));
      CellsBack(h, cells, placed, w2.refs, depth, b, r2.pos, r2.st);
      CellsThen(h, c, cells, buckets, refs, depth, pos, st, w1, r1, w2, r2, w3,
        ReadCells(b, |cells|, placed, r2.pos, r2.st));
    } else {
      CleanSplit(h, refs, w2.refs, w3.refs);
    }
  }

  /** A hash key, a key and its value, read one after the other. */
  lemma PairBack(h: Heap, c: HCell, refs: seq<nat>, depth: nat, b: seq<Byte>, pos: nat, st: State, w1: Wrote,
                 w2: Wrote, rest: seq<Byte>)
    returns (r1: Read<Value>, r2: Read<Value>)
    requires HeapOk(h) && depth <= MAX_DEPTH && CellOk(c, h) && Numbers(h, refs, st)
    requires w1 == Ser(h, c.key, refs, depth) && w1.Wrote?
    requires w2 == Ser(h, c.val, w1.refs, depth) && w2.Wrote? && IsInt32(|w2.refs|)
    requires At(b, pos, Int4(c.hkey) + (w1.bytes + (w2.bytes + rest)))
    ensures pos + 4 <= |b| && IntAt(b, pos) == c.hkey
    ensures r1 == Unser(b, pos + 4, st)
    ensures r2 == if r1.Read? then Unser(b, r1.pos, r1.st) else Bad
    ensures r2.Read? <==> Clean(h, w2.refs, |refs|)
    ensures r2.Read?
      ==> r1.Read? && Returns(h, c.key, refs, w1, pos + 4, st, r1) && Returns(h, c.val, w1.refs, w2, r1.pos, r1.st, r2)
    ensures r2.Read? ==> At(b, r2.pos, rest) && Numbers(h, w2.refs, r2.st)
    decreases MAX_DEPTH - depth, 1
  {
    hide Ser, SerItems, Unser, Clean, Returns, Numbers, Int4;
    FieldAt(b, pos, c.hkey, w1.bytes, w2.bytes + rest);
    r1 := ValueRead(h, c.key, refs, depth, b, pos + 4, st, w1);
    r2 := Bad;
    ReturnsWhat(h, c.key, refs, w1, pos + 4, st, r1);
    if r1.Read? {
      r2 := SecondBack(h, c.key, c.val, refs, depth, b, pos + 4, st, w1, r1, w2, rest);
    } else {
      CleanSplit(h, refs, w1.refs, w2.refs);
    }
  }

  /** The second of two values. */
  lemma SecondBack(h: Heap, u: Value, v: Value, refs: seq<nat>, depth: nat, b: seq<Byte>, pos: nat, st: State,
                   w1: Wrote, r1: Read<Value>, w2: Wrote, rest: seq<Byte>)
    returns (r2: Read<Value>)
    requires HeapOk(h) && depth <= MAX_DEPTH && ValueOk(v, h)
    requires w1.Wrote? && refs <= w1.refs && r1.Read? && r1.pos <= |b| && Returns(h, u, refs, w1, pos, st, r1)
    requires w2 == Ser(h, v, w1.refs, depth) && w2.Wrote? && IsInt32(|w2.refs|)
    requires At(b, pos + |w1.bytes|, w2.bytes + rest)
    ensures r2 == Unser(b, r1.pos, r1.st) && (r2.Read? <==> Clean(h, w2.refs, |refs|))
    ensures r2.Read?
      ==> Returns(h, v, w1.refs, w2, r1.pos, r1.st, r2) && At(b, r2.pos, rest) && Numbers(h, w2.refs, r2.st)
    decreases MAX_DEPTH - depth, 0, 5
  {
    hide Ser, Unser, Returns, Clean;
    ReturnsWhat(h, u, refs, w1, pos, st, r1);
    CleanSplit(h, refs, w1.refs, w2.refs);
    AtSplit(b, r1.pos, w2.bytes, rest);
    r2 := ValueRead(h, v, w1.refs, depth, b, r1.pos, r1.st, w2);
    ReturnsWhat(h, v, w1.refs, w2, r1.pos, r1.st, r2);
  }

  lemma ReadCell(b: seq<Byte>, left: nat, buckets: seq<Bucket>, pos: nat, st: State, r1: Read<Value>, r2: Read<Value>)
    requires left > 0 && pos + 4 <= |b| && |buckets| > 0 && IntAt(b, pos) >= 0
    requires r1 == Unser(b, pos + 4, st)
    requires r2 == if r1.Read? then Unser(b, r1.pos, r1.st) else Bad
    ensures ReadCells(b, left, buckets, pos, st) ==
            if r1.Bad? || r2.Bad? then Bad
            else ReadCells(b, left - 1, Place(buckets, HCell(IntAt(b, pos), r1.v, r2.v)), r2.pos, r2.st)
  {
  }

  lemma ValueRead(h: Heap, v: Value, refs: seq<nat>, depth: nat, b: seq<Byte>, pos: nat, st: State, w: Wrote)
    returns (r: Read<Value>)
    requires HeapOk(h) && depth <= MAX_DEPTH && ValueOk(v, h) && Numbers(h, refs, st)
    requires w == Ser(h, v, refs, depth) && w.Wrote? && IsInt32(|w.refs|) && At(b, pos, w.bytes)
    ensures r == Unser(b, pos, st) && Returns(h, v, refs, w, pos, st, r)
    decreases MAX_DEPTH - depth, 0, 4
  {
    r := Unser(b, pos, st);
    ValueBack(h, v, refs, depth, b, pos, st);
  }

  lemma CellsThen(h: Heap, c: HCell, cells: seq<HCell>, buckets: seq<Bucket>, refs: seq<nat>, depth: nat, pos: nat,
                  st: State,
                  w1: Wrote, r1: Read<Value>, w2: Wrote, r2: Read<Value>, w3: Wrote, r: Read<seq<Bucket>>)
    requires depth <= MAX_DEPTH && |buckets| > 0 && c.hkey >= 0 && forall x <- cells :: x.hkey >= 0
    requires w1 == Ser(h, c.key, refs, depth) && w1.Wrote?
    requires w2 == Ser(h, c.val, w1.refs, depth) && w2.Wrote?
    requires w3.Wrote? && w2.refs <= w3.refs
    requires r1.Read? && Returns(h, c.key, refs, w1, pos + 4, st, r1)
    requires r2.Read? && Returns(h, c.val, w1.refs, w2, r1.pos, r1.st, r2)
    requires CellsReturn(h, cells, w2.refs, w3, Place(buckets, HCell(c.hkey, r1.v, r2.v)), r2.pos, r2.st, r)
    ensures CellsReturn(h, [c] + cells, refs, Wrote(Int4(c.hkey) + (w1.bytes + (w2.bytes + w3.bytes)), w3.refs),
      buckets, pos, st, r)
  {
    CleanSplit(h, refs, w1.refs, w3.refs);
    CleanSplit(h, w1.refs, w2.refs, w3.refs);
    if r.Read? {
      CellBuilt(h, c, refs, st, depth, r1, r2, w3.refs, r.st);
      assert ([c] + cells)[1..] == cells;
      assert RenameCells([c] + cells, w3.refs, r.st.trefs)[1..] == RenameCells(cells, w3.refs, r.st.trefs);
    }
  }

  /** How the bytes of a table's cells begin. */
  lemma CellWrites(h: Heap, cells: seq<HCell>, refs: seq<nat>, depth: nat) returns (w1: Wrote, w2: Wrote, w3: Wrote)
    requires depth <= MAX_DEPTH && cells != [] && SerItems(h, CellItems(cells), refs, depth).Wrote?
    ensures w1 == Ser(h, cells[0].key, refs, depth) && w1.Wrote?
    ensures w2 == Ser(h, cells[0].val, w1.refs, depth) && w2.Wrote?
    ensures w3 == SerItems(h, CellItems(cells[1..]), w2.refs, depth) && w3.Wrote?
    ensures SerItems(h, CellItems(cells), refs, depth) ==
            Wrote(Int4(cells[0].hkey) + (w1.bytes + (w2.bytes + w3.bytes)), w3.refs)
  {
    hide Ser;
    var items := CellItems(cells);
    assert items[1..] == [Item([], cells[0].val)] + CellItems(cells[1..]);
    assert items[1..][1..] == CellItems(cells[1..]);
    var rest;
    w1, rest := ItemsWrite(h, items, refs, depth);
    w2, w3 := ItemsWrite(h, items[1..], w1.refs, depth);
    assert [] + (w2.bytes + w3.bytes) == w2.bytes + w3.bytes;
  }

  lemma CellBuilt(h: Heap, c: HCell, refs: seq<nat>, st: State, depth: nat, r1: Read<Value>, r2: Read<Value>,
                  refs3: seq<nat>, st3: State)
    requires depth <= MAX_DEPTH && Ser(h, c.key, refs, depth).Wrote?
    requires Ser(h, c.val, Ser(h, c.key, refs, depth).refs, depth).Wrote?
    requires r1.Read? && r2.Read?
    requires var refs1 := Ser(h, c.key, refs, depth).refs; var refs2 := Ser(h, c.val, refs1, depth).refs;
      && Built(h, refs, st, -1, refs1, r1.st) && Built(h, refs1, r1.st, -1, refs2, r2.st)
      && Built(h, refs2, r2.st, -1, refs3, st3)
      && r1.v == Rename(c.key, refs1, r1.st.trefs) && r2.v == Rename(c.val, refs2, r2.st.trefs)
    ensures Built(h, refs, st, -1, refs3, st3)
    ensures HCell(c.hkey, r1.v, r2.v) == RenameCell(c, refs3, st3.trefs)
  {
    var refs1 := Ser(h, c.key, refs, depth).refs;
    var refs2 := Ser(h, c.val, refs1, depth).refs;
    SerCovers(h, c.key, refs, depth);
    SerCovers(h, c.val, refs1, depth);
    SeenThen(h, refs, refs1, refs2);
    BuiltThen(h, refs, st, -1, refs1, r1.st, r1.st, refs2, r2.st);
    BuiltThen(h, refs, st, -1, refs2, r2.st, r2.st, refs3, st3);
    RenameStable(c.key, refs1, r1.st.trefs, refs3, st3.trefs);
    RenameStable(c.val, refs2, r2.st.trefs, refs3, st3.trefs);
  }

  // ------------------------------------------------------------------- objects

  ghost predicate NoZeroFrom(fields: seq<Cell<Value>>, i: nat) {
    forall j :: i <= j < |fields| ==> fields[j].id != 0
  }

  /** The first fields of the object being read are those of the object written. */
  ghost predicate FieldsStarted(fields: seq<Cell<Value>>, i: nat, node: Node) {
    node.Obj? && |node.fields| == i <= |fields| && forall j :: 0 <= j < i ==> node.fields[j].id == fields[j].id
  }

  ghost predicate ObjectFilled(fields: seq<Cell<Value>>, proto: Option<nat>, i: nat, before: Node, refs: seq<nat>,
                               trefs: seq<nat>, after: Node) {
    && before.Obj? && |before.fields| == i && after.Obj? && |after.fields| == |fields|
    && (forall j :: 0 <= j < |fields| ==>
          after.fields[j] == if j < i then before.fields[j] else Cell(fields[j].id, Rename(fields[j].v, refs, trefs)))
    && after.proto == RenameNode(Obj([], proto), refs, trefs).proto
  }

  ghost predicate ObjectReturns(h: Heap, fields: seq<Cell<Value>>, proto: Option<nat>, i: nat, refs: seq<nat>,
                                w: Wrote, at: nat, pos: nat, st: State, r: Read<()>)
    requires w.Wrote? && at < |st.heap|
  {
    if Clean(h, w.refs, |refs|) && NoZeroFrom(fields, i) then
      && r.Read? && r.pos == pos + |w.bytes| && Built(h, refs, st, at, w.refs, r.st)
      && ObjectFilled(fields, proto, i, st.heap[at], w.refs, r.st.trefs, r.st.heap[at])
    else r == Bad
  }

  function Tailed(w: Wrote, tail: seq<Byte>): Wrote {
    match w
    case Failed => Failed
    case Wrote(bytes, refs) => Wrote(bytes + tail, refs)
  }

  function ObjectTail(proto: Option<nat>): seq<Byte> {
    if proto.None? then Int4(0) + [NO_PROTO] else []
  }

  lemma {:induction false} ObjectBack(h: Heap, fields: seq<Cell<Value>>, proto: Option<nat>, i: nat, refs: seq<nat>,
                                      depth: nat, b: seq<Byte>, at: nat, pos: nat, st: State)
    requires depth <= MAX_DEPTH && NodeOk(Obj(fields, proto), h)
    requires EMPTY_ARRAY < at < |st.heap| && FieldsStarted(fields, i, st.heap[at]) && st.heap[at].proto == None
    requires Reading(h, refs, st,
      Tailed(SerItems(h, ObjectItems(fields[i..], proto), refs, depth), ObjectTail(proto)), b, pos)
    ensures ObjectReturns(h, fields, proto, i, refs,
      Tailed(SerItems(h, ObjectItems(fields[i..], proto), refs, depth), ObjectTail(proto)),
                          at, pos, st, ReadObject(b, at, pos, st))
    decreases MAX_DEPTH - depth, 4 * (|fields| - i) + 4
  {
    if i == |fields| {
      ProtoBack(h, fields, proto, refs, depth, b, at, pos, st);
    } else {
      FieldBack(h, fields, proto, i, refs, depth, b, at, pos, st);
    }
  }

  lemma ProtoBack(h: Heap, fields: seq<Cell<Value>>, proto: Option<nat>, refs: seq<nat>, depth: nat, b: seq<Byte>,
                  at: nat, pos: nat, st: State)
    requires depth <= MAX_DEPTH && NodeOk(Obj(fields, proto), h)
    requires EMPTY_ARRAY < at < |st.heap| && FieldsStarted(fields, |fields|, st.heap[at]) && st.heap[at].proto == None
    requires Reading(h, refs, st, Tailed(SerItems(h, ObjectItems([], proto), refs, depth), ObjectTail(proto)), b, pos)
    ensures ObjectReturns(h, fields, proto, |fields|, refs,
      Tailed(SerItems(h, ObjectItems([], proto), refs, depth), ObjectTail(proto)),
                          at, pos, st, ReadObject(b, at, pos, st))
    decreases MAX_DEPTH - depth, 1
  {
    match proto
    case None =>
      NoProtoWrites(h, refs, depth);
      NoProtoStep(h, fields, refs, b, at, pos, st);
    case Some(p) =>
      var w1 := ProtoWrites(h, p, refs, depth);
      ProtoStep(h, fields, p, refs, depth, b, at, pos, st, w1);
  }

  lemma NoProtoStep(h: Heap, fields: seq<Cell<Value>>, refs: seq<nat>, b: seq<Byte>, at: nat, pos: nat, st: State)
    requires Numbers(h, refs, st) && EMPTY_ARRAY < at < |st.heap|
    requires FieldsStarted(fields, |fields|, st.heap[at]) && st.heap[at].proto == None
    requires At(b, pos, Int4(0) + [NO_PROTO])
    ensures ObjectReturns(h, fields, None, |fields|, refs, Wrote(Int4(0) + [NO_PROTO], refs), at, pos, st,
      ReadObject(b, at, pos, st))
  {
    AtSplit(b, pos, Int4(0), [NO_PROTO]);
    IntBack(b, pos, 0);
    AtByte(b, pos + 4, NO_PROTO, []);
    BuiltStay(h, refs, st, at);
  }

  lemma NoProtoWrites(h: Heap, refs: seq<nat>, depth: nat)
    requires depth <= MAX_DEPTH
    ensures Tailed(SerItems(h, ObjectItems([], None), refs, depth), ObjectTail(None))
      == Wrote(Int4(0) + [NO_PROTO], refs)
  {
    assert [] + (Int4(0) + [NO_PROTO]) == Int4(0) + [NO_PROTO];
  }

  lemma ProtoWrites(h: Heap, p: nat, refs: seq<nat>, depth: nat) returns (w1: Wrote)
    requires depth <= MAX_DEPTH && SerItems(h, ObjectItems([], Some(p)), refs, depth).Wrote?
    ensures w1 == Ser(h, Ref(p), refs, depth) && w1.Wrote?
    ensures Tailed(SerItems(h, ObjectItems([], Some(p)), refs, depth), ObjectTail(Some(p))) ==
            Wrote(Int4(0) + ([PROTO] + w1.bytes), w1.refs)
  {
    var items := ObjectItems([], Some(p));
    var rest;
    w1, rest := ItemsWrite(h, items, refs, depth);
    assert items[1..] == [];
    assert rest == Wrote([], w1.refs);
    LastProto(Int4(0), w1.bytes);
  }

  lemma LastProto(x: seq<Byte>, y: seq<Byte>)
    ensures x + [PROTO] + (y + []) + [] == x + ([PROTO] + y)
  {
  }

  lemma ProtoStep(h: Heap, fields: seq<Cell<Value>>, p: nat, refs: seq<nat>, depth: nat, b: seq<Byte>, at: nat,
                  pos: nat, st: State, w1: Wrote)
    requires HeapOk(h) && Numbers(h, refs, st) && depth <= MAX_DEPTH && NodeOk(Obj(fields, Some(p)), h)
    requires EMPTY_ARRAY < at < |st.heap| && FieldsStarted(fields, |fields|, st.heap[at])
    requires w1 == Ser(h, Ref(p), refs, depth) && w1.Wrote? && IsInt32(|w1.refs|)
    requires At(b, pos, Int4(0) + ([PROTO] + w1.bytes))
    ensures ObjectReturns(h, fields, Some(p), |fields|, refs, Wrote(Int4(0) + ([PROTO] + w1.bytes), w1.refs),
      at, pos, st, ReadObject(b, at, pos, st))
    decreases MAX_DEPTH - depth, 0, 5
  {
    AtSplit(b, pos, Int4(0), [PROTO] + w1.bytes);
    IntBack(b, pos, 0);
    AtByte(b, pos + 4, PROTO, w1.bytes);
    ValueBack(h, Ref(p), refs, depth, b, pos + 5, st);
    ReadProto(b, at, pos, st);
    if Clean(h, w1.refs, |refs|) {
      ProtoSet(h, p, refs, depth, at, st, Unser(b, pos + 5, st));
    }
  }

  lemma ReadProto(b: seq<Byte>, at: nat, pos: nat, st: State)
    requires pos + 4 < |b| && at < |st.heap| && st.heap[at].Obj? && IntAt(b, pos) == 0 && b[pos + 4] == PROTO
    ensures var r := Unser(b, pos + 5, st);
            ReadObject(b, at, pos, st) ==
            if r.Read? && r.v.Ref? && r.v.at < |r.st.heap| && r.st.heap[r.v.at].Obj?
            then Read((), r.pos, Store(r.st, at, Obj(r.st.heap[at].fields, Some(r.v.at))))
            else Bad
  {
  }

  lemma ProtoSet(h: Heap, p: nat, refs: seq<nat>, depth: nat, at: nat, st: State, r1: Read<Value>)
    requires depth <= MAX_DEPTH && p < |h| && h[p].Obj?
    requires EMPTY_ARRAY < at < |st.heap| && st.heap[at].Obj?
    requires Ser(h, Ref(p), refs, depth).Wrote? && r1.Read?
    requires var refs1 := Ser(h, Ref(p), refs, depth).refs;
      Built(h, refs, st, -1, refs1, r1.st) && r1.v == Rename(Ref(p), refs1, r1.st.trefs)
    ensures r1.v.Ref? && r1.v.at < |r1.st.heap| && r1.st.heap[r1.v.at].Obj?
    ensures Built(h, refs, st, at, Ser(h, Ref(p), refs, depth).refs,
      Store(r1.st, at, Obj(r1.st.heap[at].fields, Some(r1.v.at))))
  {
    var refs1 := Ser(h, Ref(p), refs, depth).refs;
    SerCovers(h, Ref(p), refs, depth);
    var k := Find(refs1, p).value;
    assert SameSort(h, refs1[k], r1.st.heap, r1.st.trefs[k]);
    var mid := Store(r1.st, at, Obj(r1.st.heap[at].fields, Some(r1.v.at)));
    NumbersStore(h, refs1, r1.st, at, mid.heap[at]);
    BuiltStay(h, refs1, mid, at);
    BuiltThen(h, refs, st, at, refs1, r1.st, mid, refs1, mid);
  }

  lemma FieldWrites(h: Heap, fields: seq<Cell<Value>>, proto: Option<nat>, refs: seq<nat>, depth: nat)
    returns (w1: Wrote, w2: Wrote)
    requires depth <= MAX_DEPTH && fields != []
    requires Tailed(SerItems(h, ObjectItems(fields, proto), refs, depth), ObjectTail(proto)).Wrote?
    ensures w1 == Ser(h, fields[0].v, refs, depth) && w1.Wrote?
    ensures w2 == Tailed(SerItems(h, ObjectItems(fields[1..], proto), w1.refs, depth), ObjectTail(proto)) && w2.Wrote?
    ensures Tailed(SerItems(h, ObjectItems(fields, proto), refs, depth), ObjectTail(proto)) ==
            Wrote(Int4(fields[0].id) + (w1.bytes + w2.bytes), w2.refs)
  {
    var items := ObjectItems(fields, proto);
    var rest;
    w1, rest := ItemsWrite(h, items, refs, depth);
    assert items[1..] == ObjectItems(fields[1..], proto);
    w2 := Tailed(SerItems(h, ObjectItems(fields[1..], proto), w1.refs, depth), ObjectTail(proto));
    var lead, tail := Int4(fields[0].id), ObjectTail(proto);
    assert lead + (w1.bytes + rest.bytes) + tail == lead + (w1.bytes + (rest.bytes + tail));
  }

  lemma FieldBack(h: Heap, fields: seq<Cell<Value>>, proto: Option<nat>, i: nat, refs: seq<nat>, depth: nat,
                  b: seq<Byte>, at: nat, pos: nat, st: State)
    requires depth <= MAX_DEPTH && NodeOk(Obj(fields, proto), h) && i < |fields|
    requires EMPTY_ARRAY < at < |st.heap| && FieldsStarted(fields, i, st.heap[at]) && st.heap[at].proto == None
    requires Reading(h, refs, st,
      Tailed(SerItems(h, ObjectItems(fields[i..], proto), refs, depth), ObjectTail(proto)), b, pos)
    ensures ObjectReturns(h, fields, proto, i, refs,
      Tailed(SerItems(h, ObjectItems(fields[i..], proto), refs, depth), ObjectTail(proto)),
                          at, pos, st, ReadObject(b, at, pos, st))
    decreases MAX_DEPTH - depth, 4 * (|fields| - i) + 3
  {
    assert fields[i..][0] == fields[i] && fields[i..][1..] == fields[i + 1..];
    var w1, w2 := FieldWrites(h, fields[i..], proto, refs, depth);
    FieldStep(h, fields, proto, i, refs, depth, b, at, pos, st, w1, w2);
  }

  lemma FieldStep(h: Heap, fields: seq<Cell<Value>>, proto: Option<nat>, i: nat, refs: seq<nat>, depth: nat,
                  b: seq<Byte>, at: nat, pos: nat, st: State,
                  w1: Wrote, w2: Wrote)
    requires HeapOk(h) && Numbers(h, refs, st) && depth <= MAX_DEPTH && NodeOk(Obj(fields, proto), h) && i < |fields|
    requires EMPTY_ARRAY < at < |st.heap| && FieldsStarted(fields, i, st.heap[at]) && st.heap[at].proto == None
    requires w1 == Ser(h, fields[i].v, refs, depth) && w1.Wrote?
    requires w2 == Tailed(SerItems(h, ObjectItems(fields[i + 1..], proto), w1.refs, depth), ObjectTail(proto))
    requires w2.Wrote? && IsInt32(|w2.refs|) && At(b, pos, Int4(fields[i].id) + (w1.bytes + w2.bytes))
    ensures ObjectReturns(h, fields, proto, i, refs, Wrote(Int4(fields[i].id) + (w1.bytes + w2.bytes), w2.refs),
      at, pos, st, ReadObject(b, at, pos, st))
    decreases MAX_DEPTH - depth, 4 * (|fields| - i) + 2
  {
    hide Ser, SerItems, Unser, ReadObject, Returns, Clean, ObjectItems;
    FieldAt(b, pos, fields[i].id, w1.bytes, w2.bytes);
    if fields[i].id == 0 {
      ReadNoField(b, at, pos, st);
    } else {
      var r1 := ValueRead(h, fields[i].v, refs, depth, b, pos + 4, st, w1);
      ReturnsWhat(h, fields[i].v, refs, w1, pos + 4, st, r1);
      ReadField(b, at, pos, st);
      if r1.Read? {
        FieldRest(h, fields, proto, i, refs, depth, b, at, pos, st, w1, r1, w2);
      } else {
        CleanSplit(h, refs, w1.refs, w2.refs);
      }
    }
  }

  lemma FieldAt(b: seq<Byte>, pos: nat, id: int, x: seq<Byte>, y: seq<Byte>)
    requires At(b, pos, Int4(id) + (x + y)) && IsInt32(id) && x != []
    ensures pos + 4 < |b| && IntAt(b, pos) == id && b[pos + 4] == x[0]
    ensures At(b, pos + 4, x) && At(b, pos + 4 + |x|, y)
  {
    AtSplit(b, pos, Int4(id), x + y);
    IntBack(b, pos, id);
    AtSplit(b, pos + 4, x, y);
    assert b[pos + 4] == b[pos + 4..pos + 4 + |x|][0];
  }

  /** The store of the field just read, and the fields after it. */
  lemma FieldRest(h: Heap, fields: seq<Cell<Value>>, proto: Option<nat>, i: nat, refs: seq<nat>, depth: nat,
                  b: seq<Byte>, at: nat, pos: nat, st: State,
                  w1: Wrote, r1: Read<Value>, w2: Wrote)
    requires HeapOk(h) && depth <= MAX_DEPTH && NodeOk(Obj(fields, proto), h) && i < |fields| && fields[i].id != 0
    requires EMPTY_ARRAY < at < |st.heap| && FieldsStarted(fields, i, st.heap[at]) && st.heap[at].proto == None
    requires w1 == Ser(h, fields[i].v, refs, depth) && w1.Wrote?
    requires w2 == Tailed(SerItems(h, ObjectItems(fields[i + 1..], proto), w1.refs, depth), ObjectTail(proto))
    requires w2.Wrote? && IsInt32(|w2.refs|)
    requires r1.Read? && Returns(h, fields[i].v, refs, w1, pos + 4, st, r1)
    requires r1.pos <= |b| && At(b, r1.pos, w2.bytes) && Keeps(st, -1, r1.st)
    ensures ObjectReturns(h, fields, proto, i, refs, Wrote(Int4(fields[i].id) + (w1.bytes + w2.bytes), w2.refs),
      at, pos, st, ReadObject(b, at, r1.pos,
                            Store(r1.st, at, Obj(Put(st.heap[at].fields, fields[i].id, r1.v), None))))
    decreases MAX_DEPTH - depth, 4 * (|fields| - i) + 1
  {
    PutLast(st.heap[at].fields, fields[i].id, r1.v);
    var mid := Store(r1.st, at, Obj(st.heap[at].fields + [Cell(fields[i].id, r1.v)], None));
    NumbersStore(h, w1.refs, r1.st, at, mid.heap[at]);
    ObjectBack(h, fields, proto, i + 1, w1.refs, depth, b, at, r1.pos, mid);
    FieldThen(h, fields, proto, i, refs, depth, at, pos, st, w1, r1, mid, w2, ReadObject(b, at, r1.pos, mid));
  }

  lemma ReadField(b: seq<Byte>, at: nat, pos: nat, st: State)
    requires pos + 4 <= |b| && at < |st.heap| && st.heap[at].Obj? && IntAt(b, pos) != 0
    ensures ReadObject(b, at, pos, st) ==
            match Unser(b, pos + 4, st)
            case Bad => Bad
            case Read(v, p1, st1) =>
              ReadObject(b, at, p1, Store(st1, at, Obj(Put(st.heap[at].fields, IntAt(b, pos), v), st.heap[at].proto)))
  {
  }

  /** After a zero id, only a prototype mark is accepted. */
  lemma ReadNoField(b: seq<Byte>, at: nat, pos: nat, st: State)
    requires pos + 4 < |b| && at < |st.heap| && st.heap[at].Obj? && IntAt(b, pos) == 0
    requires b[pos + 4] != PROTO && b[pos + 4] != NO_PROTO
    ensures ReadObject(b, at, pos, st) == Bad
  {
  }

  lemma FieldThen(h: Heap, fields: seq<Cell<Value>>, proto: Option<nat>, i: nat, refs: seq<nat>, depth: nat, at: nat,
                  pos: nat, st: State,
                  w1: Wrote, r1: Read<Value>, mid: State, w2: Wrote, r: Read<()>)
    requires depth <= MAX_DEPTH && i < |fields| && fields[i].id != 0
    requires EMPTY_ARRAY < at < |st.heap| && FieldsStarted(fields, i, st.heap[at])
    requires w1 == Ser(h, fields[i].v, refs, depth) && w1.Wrote? && w2.Wrote? && w1.refs <= w2.refs
    requires r1.Read? && Returns(h, fields[i].v, refs, w1, pos + 4, st, r1)
    requires mid == Store(r1.st, at, Obj(st.heap[at].fields + [Cell(fields[i].id, r1.v)], None))
    requires ObjectReturns(h, fields, proto, i + 1, w1.refs, w2, at, r1.pos, mid, r)
    ensures ObjectReturns(h, fields, proto, i, refs, Wrote(Int4(fields[i].id) + (w1.bytes + w2.bytes), w2.refs), at,
      pos, st, r)
  {
    CleanSplit(h, refs, w1.refs, w2.refs);
    if r.Read? {
      SerCovers(h, fields[i].v, refs, depth);
      BuiltThen(h, refs, st, at, w1.refs, r1.st, mid, w2.refs, r.st);
      RenameStable(fields[i].v, w1.refs, r1.st.trefs, w2.refs, r.st.trefs);
    }
  }

  // ------------------------------------------------------------------- any value

  lemma {:induction false} ValueBack(h: Heap, v: Value, refs: seq<nat>, depth: nat, b: seq<Byte>, pos: nat, st: State)
    requires depth <= MAX_DEPTH && ValueOk(v, h)
    requires Reading(h, refs, st, Ser(h, v, refs, depth), b, pos)
    ensures Returns(h, v, refs, Ser(h, v, refs, depth), pos, st, Unser(b, pos, st))
    decreases MAX_DEPTH - depth, 0, 3
  {
    if v.Hash? {
      HashBack(h, v.buckets, refs, depth, b, pos, st);
    } else if !v.Ref? {
      AtomBack(h, v, refs, depth, b, pos, st);
    } else if Find(refs, v.at).Some? {
      ReferenceBack(h, v.at, refs, depth, b, pos, st);
    } else {
      NodeBack(h, v.at, refs, depth, b, pos, st);
    }
  }

  lemma HashBack(h: Heap, buckets: seq<Bucket>, refs: seq<nat>, depth: nat, b: seq<Byte>, pos: nat, st: State)
    requires depth < MAX_DEPTH && ValueOk(Hash(buckets), h)
    requires Reading(h, refs, st, Ser(h, Hash(buckets), refs, depth), b, pos)
    ensures Returns(h, Hash(buckets), refs, Ser(h, Hash(buckets), refs, depth), pos, st, Unser(b, pos, st))
    decreases MAX_DEPTH - depth, 0, 1
  {
    var body := HashWrites(h, buckets, refs, depth);
    HashStep(h, buckets, refs, depth, b, pos, st, body);
  }

  lemma HashStep(h: Heap, buckets: seq<Bucket>, refs: seq<nat>, depth: nat, b: seq<Byte>, pos: nat, st: State,
                 body: Wrote)
    requires depth < MAX_DEPTH && ValueOk(Hash(buckets), h) && HeapOk(h) && Numbers(h, refs, st)
    requires body == SerItems(h, CellItems(Flatten(buckets)), refs, depth + 1) && body.Wrote? && IsInt32(|body.refs|)
    requires At(b, pos, [HASH] + Int4(|buckets|) + (Int4(|Flatten(buckets)|) + body.bytes))
    ensures Returns(h, Hash(buckets), refs,
      Wrote([HASH] + Int4(|buckets|) + (Int4(|Flatten(buckets)|) + body.bytes), body.refs),
                    pos, st, Unser(b, pos, st))
    decreases MAX_DEPTH - depth, 0, 0
  {
    hide Unser, ReadCells, SerItems, Returns, CellsReturn, Numbers, HeapOk, CellsOk, CellItems;
    var cells := Flatten(buckets);
    HashAt(b, pos, |buckets|, |cells|, body.bytes, st);
    HashCells(h, buckets);
    CellsBack(h, cells, Chains(|buckets|), refs, depth + 1, b, pos + 9, st);
    HashThen(h, buckets, refs, body, pos, st, ReadCells(b, |cells|, Chains(|buckets|), pos + 9, st));
  }

  lemma HashAt(b: seq<Byte>, pos: nat, n: nat, m: nat, rest: seq<Byte>, st: State)
    requires IsInt32(n) && IsInt32(m) && At(b, pos, [HASH] + Int4(n) + (Int4(m) + rest))
    ensures pos + 9 <= |b| && At(b, pos + 9, rest)
    ensures Unser(b, pos, st) == AsHash(ReadCells(b, m, Chains(n), pos + 9, st))
  {
    Sized(b, pos, HASH, n, Int4(m) + rest, st);
    AtSplit(b, pos + 5, Int4(m), rest);
    IntBack(b, pos + 5, m);
  }

  lemma HashCells(h: Heap, buckets: seq<Bucket>)
    requires Placed(buckets) && BucketsOk(buckets, h)
    ensures CellsOk(Flatten(buckets), h) && (buckets == [] ==> Flatten(buckets) == [])
    ensures forall c <- Flatten(buckets) :: c.hkey >= 0
  {
    TableRebuilt(buckets, [], []);
    RenamedKeys(Flatten(buckets));
    FlattenOk(buckets, h);
  }

  lemma HashThen(h: Heap, buckets: seq<Bucket>, refs: seq<nat>, w: Wrote, pos: nat, st: State, r: Read<seq<Bucket>>)
    requires Placed(buckets) && w.Wrote? && (Flatten(buckets) != [] ==> buckets != [])
      && forall c <- Flatten(buckets) :: c.hkey >= 0
    requires CellsReturn(h, Flatten(buckets), refs, w, Chains(|buckets|), pos + 9, st, r)
    ensures Returns(h, Hash(buckets), refs,
      Wrote([HASH] + Int4(|buckets|) + (Int4(|Flatten(buckets)|) + w.bytes), w.refs),
                    pos, st, AsHash(r))
  {
    if r.Read? {
      TableRebuilt(buckets, w.refs, r.st.trefs);
    }
  }

  lemma RenamedKeys(cells: seq<HCell>)
    requires forall c <- RenameCells(cells, [], []) :: c.hkey >= 0
    ensures forall c <- cells :: c.hkey >= 0
  {
    forall c | c in cells
      ensures c.hkey >= 0
    {
      var j :| 0 <= j < |cells| && cells[j] == c;
      assert RenameCells(cells, [], [])[j].hkey >= 0;
    }
  }

  lemma {:induction false} CellsOkConcat(x: seq<HCell>, y: seq<HCell>, h: Heap)
    ensures CellsOk(x + y, h) <==> CellsOk(x, h) && CellsOk(y, h)
  {
    if x == [] {
      assert x + y == y;
    } else {
      assert (x + y)[1..] == x[1..] + y;
      CellsOkConcat(x[1..], y, h);
    }
  }

  lemma {:induction false} FlattenOk(buckets: seq<Bucket>, h: Heap)
    requires BucketsOk(buckets, h)
    ensures CellsOk(Flatten(buckets), h)
  {
    if buckets != [] {
      FlattenOk(buckets[1..], h);
      CellsOkConcat(buckets[0].cells, Flatten(buckets[1..]), h);
    }
  }

  lemma NodeBack(h: Heap, a: nat, refs: seq<nat>, depth: nat, b: seq<Byte>, pos: nat, st: State)
    requires depth < MAX_DEPTH && a < |h| && Find(refs, a).None?
    requires Reading(h, refs, st, Ser(h, Ref(a), refs, depth), b, pos)
    ensures Returns(h, Ref(a), refs, Ser(h, Ref(a), refs, depth), pos, st, Unser(b, pos, st))
    decreases MAX_DEPTH - depth, 0, 2
  {
    assert NodeOk(h[a], h);
    match h[a]
    case Str(s) => StringNodeBack(h, a, refs, depth, b, pos, st);
    case Arr(vs) => ArrayNodeBack(h, a, refs, depth, b, pos, st);
    case Obj(fields, proto) => ObjectNodeBack(h, a, refs, depth, b, pos, st);
  }

  lemma NumberedLast(refs: seq<nat>, a: nat, refs2: seq<nat>)
    requires Find(refs, a).None? && refs + [a] <= refs2
    ensures Find(refs2, a) == Some(|refs|)
  {
    var more := refs + [a];
    assert more[..|more| - 1] == refs && more[|refs|] == a;
    FindStable(more, refs2, a);
  }

  lemma StringNodeBack(h: Heap, a: nat, refs: seq<nat>, depth: nat, b: seq<Byte>, pos: nat, st: State)
    requires depth < MAX_DEPTH && a < |h| && Find(refs, a).None? && h[a].Str? && NodeOk(h[a], h)
    requires Reading(h, refs, st, Ser(h, Ref(a), refs, depth), b, pos)
    ensures Returns(h, Ref(a), refs, Ser(h, Ref(a), refs, depth), pos, st, Unser(b, pos, st))
  {
    var s := h[a].bytes;
    var body := NodeWrites(h, a, refs, depth);
    assert NodeHead(h[a]) + body.bytes + NodeTail(h[a]) == [STRING] + Int4(|s|) + s;
    Sized(b, pos, STRING, |s|, s, st);
    StringThen(h, a, refs, b, pos, st);
  }

  lemma StringThen(h: Heap, a: nat, refs: seq<nat>, b: seq<Byte>, pos: nat, st: State)
    requires a < |h| && Find(refs, a).None? && h[a].Str? && NodeOk(h[a], h) && Numbers(h, refs, st)
    requires At(b, pos + 5, h[a].bytes)
    ensures Returns(h, Ref(a), refs, Wrote([STRING] + Int4(|h[a].bytes|) + h[a].bytes, refs + [a]),
                    pos, st, UnserSized(b, STRING, |h[a].bytes|, pos + 5, st))
  {
    var s := h[a].bytes;
    NumberedLast(refs, a, refs + [a]);
    if s == [] {
      SharedBack(h, a, refs, st);
    } else {
      var st2 := Alloc(st, Str(s));
      NumbersAlloc(h, a, refs, st, Str(s));
      BuiltStay(h, refs + [a], st2, |st.heap|);
      BuiltNode(h, a, refs, st, Str(s), refs + [a], st2);
    }
  }

  /** A node that has been read is referred to by its own, new, address. */
  lemma NodeReturns(h: Heap, a: nat, refs: seq<nat>, w: Wrote, pos: nat, st: State, r: Read<()>)
    requires w.Wrote? && Find(refs, a).None? && refs + [a] <= w.refs
    requires if Clean(h, w.refs, |refs|) then
               && r.Read? && r.pos == pos + |w.bytes| && Built(h, refs, st, -1, w.refs, r.st)
               && |refs| < |r.st.trefs| && r.st.trefs[|refs|] == |st.heap|
             else r == Bad
    ensures Returns(h, Ref(a), refs, w, pos, st, AsRef(r, |st.heap|))
  {
    NumberedLast(refs, a, w.refs);
  }

  lemma ArrayNodeBack(h: Heap, a: nat, refs: seq<nat>, depth: nat, b: seq<Byte>, pos: nat, st: State)
    requires depth < MAX_DEPTH && a < |h| && Find(refs, a).None? && h[a].Arr? && NodeOk(h[a], h)
    requires Reading(h, refs, st, Ser(h, Ref(a), refs, depth), b, pos)
    ensures Returns(h, Ref(a), refs, Ser(h, Ref(a), refs, depth), pos, st, Unser(b, pos, st))
    decreases MAX_DEPTH - depth, 0, 1
  {
    var body := NodeWrites(h, a, refs, depth);
    assert NodeHead(h[a]) + body.bytes + NodeTail(h[a]) == [ARRAY] + Int4(|h[a].items|) + body.bytes;
    Sized(b, pos, ARRAY, |h[a].items|, body.bytes, st);
    if h[a].items == [] {
      EmptyArrayThen(h, a, refs, b, pos, st);
    } else {
      UnserArray(b, |h[a].items|, pos + 5, st);
      ArrayNodeStep(h, a, refs, depth, b, pos, st, body);
    }
  }

  lemma UnserArray(b: seq<Byte>, n: nat, pos: nat, st: State)
    requires pos <= |b| && 0 < n < MAX_SIZE
    ensures UnserSized(b, ARRAY, n, pos, st)
      == AsRef(ReadArray(b, |st.heap|, 0, pos, Alloc(st, Arr(Nulls(n)))), |st.heap|)
  {
  }

  lemma ArrayWhole(h: Heap, vs: seq<Value>, refs: seq<nat>, depth: nat, b: seq<Byte>, at: nat, pos: nat, st: State,
                   w: Wrote)
    requires depth <= MAX_DEPTH && forall v <- vs :: ValueOk(v, h)
    requires EMPTY_ARRAY < at < |st.heap| && st.heap[at].Arr? && |st.heap[at].items| == |vs|
    requires w == SerItems(h, ArrayItems(vs), refs, depth) && Reading(h, refs, st, w, b, pos)
    ensures ArrayReturns(h, vs, 0, refs, w, at, pos, st, ReadArray(b, at, 0, pos, st))
    decreases MAX_DEPTH - depth, |vs| + 2
  {
    assert vs[0..] == vs;
    ArrayBack(h, vs, 0, refs, depth, b, at, pos, st);
  }

  lemma ArrayNodeStep(h: Heap, a: nat, refs: seq<nat>, depth: nat, b: seq<Byte>, pos: nat, st: State, body: Wrote)
    requires depth < MAX_DEPTH && a < |h| && Find(refs, a).None? && h[a].Arr? && h[a].items != [] && HeapOk(h)
      && Numbers(h, refs, st)
    requires body == SerItems(h, ArrayItems(h[a].items), refs + [a], depth + 1) && body.Wrote? && IsInt32(|body.refs|)
    requires At(b, pos + 5, body.bytes)
    ensures Returns(h, Ref(a), refs, Wrote([ARRAY] + Int4(|h[a].items|) + body.bytes, body.refs), pos, st,
                    AsRef(ReadArray(b, |st.heap|, 0, pos + 5, Alloc(st, Arr(Nulls(|h[a].items|)))), |st.heap|))
    decreases MAX_DEPTH - depth, 0, 0
  {
    hide Ser, Unser, Returns, Clean;
    var vs := h[a].items;
    var open := Arr(Nulls(|vs|));
    assert NodeOk(h[a], h);
    NumbersAlloc(h, a, refs, st, open);
    ArrayWhole(h, vs, refs + [a], depth + 1, b, |st.heap|, pos + 5, Alloc(st, open), body);
    ArrayNodeThen(h, a, refs, body, pos, st, ReadArray(b, |st.heap|, 0, pos + 5, Alloc(st, open)));
  }

  lemma EmptyArrayThen(h: Heap, a: nat, refs: seq<nat>, b: seq<Byte>, pos: nat, st: State)
    requires a < |h| && Find(refs, a).None? && h[a] == Arr([]) && Numbers(h, refs, st) && pos + 5 <= |b|
    ensures Returns(h, Ref(a), refs, Wrote([ARRAY] + Int4(0) + [], refs + [a]), pos, st,
      UnserSized(b, ARRAY, 0, pos + 5, st))
  {
    assert UnserSized(b, ARRAY, 0, pos + 5, st) == Read(Ref(EMPTY_ARRAY), pos + 5, AddRef(st, EMPTY_ARRAY));
    EmptyReturns(h, a, refs, pos, st);
  }

  lemma EmptyReturns(h: Heap, a: nat, refs: seq<nat>, pos: nat, st: State)
    requires a < |h| && Find(refs, a).None? && h[a] == Arr([]) && Numbers(h, refs, st)
    ensures Returns(h, Ref(a), refs, Wrote([ARRAY] + Int4(0) + [], refs + [a]), pos, st,
                    Read(Ref(EMPTY_ARRAY), pos + 5, AddRef(st, EMPTY_ARRAY)))
  {
    hide Find;
    NumberedLast(refs, a, refs + [a]);
    SharedBack(h, a, refs, st);
  }

  lemma ArrayNodeThen(h: Heap, a: nat, refs: seq<nat>, w: Wrote, pos: nat, st: State, r: Read<()>)
    requires Numbers(h, refs, st) && a < |h| && h[a].Arr? && !Shared(h[a]) && Find(refs, a).None?
    requires w.Wrote? && refs + [a] <= w.refs
    requires ArrayReturns(h, h[a].items, 0, refs + [a], w, |st.heap|, pos + 5, Alloc(st, Arr(Nulls(|h[a].items|))), r)
    ensures Returns(h, Ref(a), refs, Wrote([ARRAY] + Int4(|h[a].items|) + w.bytes, w.refs), pos, st,
      AsRef(r, |st.heap|))
  {
    CleanSplit(h, refs, refs + [a], w.refs);
    if r.Read? {
      var node := r.st.heap[|st.heap|];
      assert node.items == RenameNode(h[a], w.refs, r.st.trefs).items;
      BuiltNode(h, a, refs, st, Arr(Nulls(|h[a].items|)), w.refs, r.st);
    }
    NodeReturns(h, a, refs, Wrote([ARRAY] + Int4(|h[a].items|) + w.bytes, w.refs), pos, st, r);
  }

  lemma ObjectNodeBack(h: Heap, a: nat, refs: seq<nat>, depth: nat, b: seq<Byte>, pos: nat, st: State)
    requires depth < MAX_DEPTH && a < |h| && Find(refs, a).None? && h[a].Obj? && NodeOk(h[a], h)
    requires Reading(h, refs, st, Ser(h, Ref(a), refs, depth), b, pos)
    ensures Returns(h, Ref(a), refs, Ser(h, Ref(a), refs, depth), pos, st, Unser(b, pos, st))
    decreases MAX_DEPTH - depth, 0, 0
  {
    hide Ser, Unser, ReadObject, Returns;
    var fields, proto := h[a].fields, h[a].proto;
    var body := ObjectWrites(h, a, refs, depth);
    AtByte(b, pos, OBJECT, body.bytes);
    NumbersAlloc(h, a, refs, st, Obj([], None));
    assert fields[0..] == fields;
    ObjectBack(h, fields, proto, 0, refs + [a], depth + 1, b, |st.heap|, pos + 1, Alloc(st, Obj([], None)));
    var r := ReadObject(b, |st.heap|, pos + 1, Alloc(st, Obj([], None)));
    UnserObject(b, pos, st);
    ObjectNodeThen(h, a, refs, body, pos, st, r);
  }

  lemma ObjectWrites(h: Heap, a: nat, refs: seq<nat>, depth: nat) returns (body: Wrote)
    requires depth < MAX_DEPTH && a < |h| && Find(refs, a).None? && h[a].Obj?
    requires Ser(h, Ref(a), refs, depth).Wrote?
    ensures body
      == Tailed(SerItems(h, ObjectItems(h[a].fields, h[a].proto), refs + [a], depth + 1), ObjectTail(h[a].proto))
    ensures body.Wrote? && Ser(h, Ref(a), refs, depth) == Wrote([OBJECT] + body.bytes, body.refs)
  {
    var items := NodeWrites(h, a, refs, depth);
    body := Tailed(SerItems(h, ObjectItems(h[a].fields, h[a].proto), refs + [a], depth + 1), ObjectTail(h[a].proto));
    assert [OBJECT] + items.bytes + ObjectTail(h[a].proto) == [OBJECT] + (items.bytes + ObjectTail(h[a].proto));
  }

  lemma UnserObject(b: seq<Byte>, pos: nat, st: State)
    requires pos < |b| && b[pos] == OBJECT
    ensures Unser(b, pos, st) == AsRef(ReadObject(b, |st.heap|, pos + 1, Alloc(st, Obj([], None))), |st.heap|)
  {
  }

  lemma ObjectNodeThen(h: Heap, a: nat, refs: seq<nat>, w: Wrote, pos: nat, st: State, r: Read<()>)
    requires Numbers(h, refs, st) && a < |h| && h[a].Obj? && Find(refs, a).None?
    requires w.Wrote? && refs + [a] <= w.refs
    requires ObjectReturns(h, h[a].fields, h[a].proto, 0, refs + [a], w, |st.heap|, pos + 1, Alloc(st, Obj([], None)),
      r)
    ensures Returns(h, Ref(a), refs, Wrote([OBJECT] + w.bytes, w.refs), pos, st, AsRef(r, |st.heap|))
  {
    CleanSplit(h, refs, refs + [a], w.refs);
    assert w.refs[|refs|] == (refs + [a])[|refs|];
    assert Clean(h, refs + [a], |refs|) <==> NoZeroFrom(h[a].fields, 0);
    if r.Read? {
      var node := r.st.heap[|st.heap|];
      assert node.fields == RenameNode(h[a], w.refs, r.st.trefs).fields;
      BuiltNode(h, a, refs, st, Obj([], None), w.refs, r.st);
    }
    NodeReturns(h, a, refs, Wrote([OBJECT] + w.bytes, w.refs), pos, st, r);
  }

  // ------------------------------------------------------------------- whole strings

  /** Addresses are numbered once. */
  predicate Distinct(refs: seq<nat>) {
    forall j, k :: 0 <= j < k < |refs| ==> refs[j] != refs[k]
  }

  lemma DistinctThen(refs: seq<nat>, a: nat)
    requires Distinct(refs) && a !in refs
    ensures Distinct(refs + [a])
  {
  }

  lemma {:induction false} SerDistinct(h: Heap, v: Value, refs: seq<nat>, depth: nat)
    requires depth <= MAX_DEPTH && Distinct(refs) && Ser(h, v, refs, depth).Wrote?
    ensures Distinct(Ser(h, v, refs, depth).refs)
    decreases MAX_DEPTH - depth, 0
  {
    hide Distinct, Find;
    match v
    case Ref(a) =>
      if Find(refs, a).None? {
        DistinctThen(refs, a);
        SerItemsDistinct(h, NodeItems(h[a]), refs + [a], depth + 1);
      }
    case Hash(buckets) =>
      SerItemsDistinct(h, CellItems(Flatten(buckets)), refs, depth + 1);
    case _ =>
  }

  lemma {:induction false} SerItemsDistinct(h: Heap, items: seq<Item>, refs: seq<nat>, depth: nat)
    requires depth <= MAX_DEPTH && Distinct(refs) && SerItems(h, items, refs, depth).Wrote?
    ensures Distinct(SerItems(h, items, refs, depth).refs)
    decreases MAX_DEPTH - depth, |items| + 1
  {
    if items != [] {
      var w1, w2 := ItemsWrite(h, items, refs, depth);
      SerDistinct(h, items[0].v, refs, depth);
      SerItemsDistinct(h, items[1..], w1.refs, depth);
    }
  }

  /** The reader gave `k`-th place in its table to a copy of the `k`-th node the writer numbered: the same
      contents, with every reference to a numbered node led to that node's copy; and the copies of
      different nodes are different nodes, none of which existed before, except that all empty strings
      are one, and all empty arrays. */
  ghost predicate Isomorphic(h: Heap, refs: seq<nat>, before: Heap, st: State) {
    && |st.trefs| == |refs| && Distinct(refs)
    && before <= st.heap
    && (forall k :: 0 <= k < |refs| ==> Rebuilt(h, refs, st, k, |before|) && NodeCovered(h[refs[k]], refs))
    && (forall j, k :: 0 <= j < k < |refs| ==>
          (st.trefs[j] == st.trefs[k] <==> Shared(h[refs[j]]) && h[refs[j]] == h[refs[k]]))
  }

  /** `unserialize(serialize(v))`: on every heap within the machine's limits, the reader consumes exactly
      the bytes written and rebuilds what `v` reaches, if and only if no object reached has a field
      named by the empty string; otherwise it refuses the bytes. */
  lemma RoundTrip(h: Heap, v: Value, before: Heap)
    requires HeapOk(h) && ValueOk(v, h) && HasConstants(before)
    requires Ser(h, v, [], 0).Wrote? && IsInt32(|Ser(h, v, [], 0).refs|)
    ensures var w := Ser(h, v, [], 0);
            var r := Unser(w.bytes, 0, State(before, []));
            if NoZeroReached(h, v) then
              && r.Read? && r.pos == |w.bytes| && r.v == Rename(v, w.refs, r.st.trefs)
              && Covered(v, w.refs) && Isomorphic(h, w.refs, before, r.st)
            else r == Bad
    ensures forall a: nat :: a in Ser(h, v, [], 0).refs <==> Reached(h, v, a)
  {
    var w := Ser(h, v, [], 0);
    var st := State(before, []);
    CleanIsNoZeroReached(h, v);
    forall a: nat
      ensures a in w.refs <==> Reached(h, v, a)
    {
      NumberedIsReached(h, v, a);
    }
    assert w.bytes[0..] == w.bytes;
    ValueBack(h, v, [], 0, w.bytes, 0, st);
    if Clean(h, w.refs, 0) {
      var r := Unser(w.bytes, 0, st);
      SerCovers(h, v, [], 0);
      SerDistinct(h, v, [], 0);
      CopiesApart(h, w.refs, before, r.st);
    }
  }

  lemma CopiesApart(h: Heap, refs: seq<nat>, before: Heap, st: State)
    requires HasConstants(before) && Built(h, [], State(before, []), -1, refs, st)
    ensures forall j, k :: 0 <= j < k < |refs| ==>
              (st.trefs[j] == st.trefs[k] <==> Shared(h[refs[j]]) && h[refs[j]] == h[refs[k]])
  {
    forall j, k | 0 <= j < k < |refs|
      ensures st.trefs[j] == st.trefs[k] <==> Shared(h[refs[j]]) && h[refs[j]] == h[refs[k]]
    {
      assert Rebuilt(h, refs, st, j, |before|) && Rebuilt(h, refs, st, k, |before|);
      assert IsOwn(h, refs[j]) <==> !Shared(h[refs[j]]);
      assert IsOwn(h, refs[k]) <==> !Shared(h[refs[k]]);
      assert forall node: Node :: node == Arr([]) ==> RenameNode(node, refs, st.trefs) == Arr([]);
    }
  }
}
