/** The reader as the library runs it: a cursor in the bytes, a heap that grows, and a table of numbered
    nodes that doubles when it is full. */
module SerialReader {
  import opened MachineInt
  import opened ObjTable
  import opened SerialFormat

  class Reader {
    const data: seq<Byte>
    var pos: nat
    var heap: Heap
    var trefs: array<nat>
    var nrefs: nat

    ghost predicate Valid()
      reads this
    {
      pos <= |data| && nrefs <= trefs.Length
    }

    /** The state that the format's reader speaks of. */
    ghost function St(): State
      requires Valid()
      reads this, trefs
    {
      State(heap, trefs[..nrefs])
    }

    constructor (data: seq<Byte>, heap: Heap)
      ensures Valid() && this.data == data && pos == 0 && St() == State(heap, []) && fresh(trefs)
    {
      this.data, this.heap, pos, nrefs := data, heap, 0, 0;
      trefs := new nat[0];
    }

    /** `add_ref`. */
    method AddNumber(at: nat)
      requires Valid()
      modifies `trefs, `nrefs, trefs
      ensures Valid() && St() == AddRef(old(St()), at) && (trefs == old(trefs) || fresh(trefs))
    {
      if nrefs == trefs.Length {
        Grow(if nrefs > 0 then 2 * nrefs else 16);
      }
      SetNumber(at);
    }

    method Grow(size: nat)
      requires Valid() && size > trefs.Length
      modifies `trefs
      ensures Valid() && St() == old(St()) && fresh(trefs) && trefs.Length == size
    {
      var wider, n := new nat[size](_ => 0), nrefs;
      for i := 0 to n
        invariant unchanged(`trefs) && wider[..i] == trefs[..i]
      {
        wider[i] := trefs[i];
      }
      trefs := wider;
    }

    method SetNumber(at: nat)
      requires Valid() && nrefs < trefs.Length
      modifies `nrefs, trefs
      ensures Valid() && St() == AddRef(old(St()), at)
    {
      ghost var before := trefs[..nrefs];
      trefs[nrefs] := at;
      nrefs := nrefs + 1;
      assert trefs[..nrefs] == before + [at];
    }

    method AllocNumbered(node: Node) returns (at: nat)
      requires Valid()
      modifies `heap, `trefs, `nrefs, trefs
      ensures Valid() && at == |old(heap)| && St() == Alloc(old(St()), node) && (trefs == old(trefs) || fresh(trefs))
    {
      at := |heap|;
      heap := heap + [node];
      AddNumber(at);
    }

    method Fill(at: nat, node: Node)
      requires Valid() && at < |heap|
      modifies `heap
      ensures Valid() && St() == Store(old(St()), at, node)
    {
      heap := heap[at := node];
    }

    method ReadInt() returns (n: Option<int>)
      requires Valid()
      modifies `pos
      ensures Valid() && n == if old(pos) + 4 <= |data| then Some(IntAt(data, old(pos))) else None
      ensures pos == if n.Some? then old(pos) + 4 else old(pos)
    {
      if pos + 4 > |data| {
        return None;
      }
      n := Some(IntAt(data, pos));
      pos := pos + 4;
    }

    /** Where the reader is after reading `v`, or that it has refused the bytes. */
    ghost function Outcome<A>(v: Option<A>): Read<A>
      requires Valid()
      reads this, trefs
    {
      match v
      case None => Bad
      case Some(x) => Read(x, pos, St())
    }

    /** `unserialize_rec`. */
    method Unserialize() returns (v: Option<Value>)
      requires Valid()
      modifies this, trefs
      ensures Valid() && (trefs == old(trefs) || fresh(trefs))
      ensures Outcome(v) == Unser(data, old(pos), old(St()))
      decreases |data| - pos, 0
    {
      if pos == |data| {
        return None;
      }
      var tag := data[pos];
      pos := pos + 1;
      if tag == N {
        v := Some(Null);
      } else if tag == T || tag == F {
        v := Some(Bool(tag == T));
      } else if tag == FLOAT {
        v := ReadFloat();
      } else if tag == OBJECT {
        v := ReadObjectNode();
      } else if tag in {SMALL, LARGE, STRING, REFERENCE, ARRAY, HASH} {
        var n := ReadInt();
        v := None;
        if n.Some? {
          v := UnserializeSized(tag, n.value);
        }
      } else {
        v := None;
      }
    }

    method ReadFloat() returns (v: Option<Value>)
      requires Valid()
      modifies `pos
      ensures Valid()
      ensures Outcome(v) == if old(pos) + 8 > |data| then Bad
        else Read(Float(data[old(pos)..old(pos) + 8]), old(pos) + 8, old(St()))
    {
      if pos + 8 > |data| {
        return None;
      }
      v := Some(Float(data[pos..pos + 8]));
      pos := pos + 8;
    }

    method ReadObjectNode() returns (v: Option<Value>)
      requires Valid()
      modifies this, trefs
      ensures Valid() && (trefs == old(trefs) || fresh(trefs))
      ensures Outcome(v) == AsRef(ReadObject(data, |old(heap)|, old(pos), Alloc(old(St()), Obj([], None))), |old(heap)|)
      decreases |data| - pos, 4
    {
      var at := AllocNumbered(Obj([], None));
      var done := ReadFields(at);
      v := if done.Some? then Some(Ref(at)) else None;
    }

    /** The tags that a number follows. */
    method UnserializeSized(tag: Byte, n: int) returns (v: Option<Value>)
      requires Valid() && tag in {SMALL, LARGE, STRING, REFERENCE, ARRAY, HASH}
      modifies this, trefs
      ensures Valid() && (trefs == old(trefs) || fresh(trefs))
      ensures Outcome(v) == UnserSized(data, tag, n, old(pos), old(St()))
      decreases |data| - pos, 5
    {
      v := None;
      if tag == SMALL {
        v := Some(Int(Wrap31(n)));
      } else if tag == LARGE {
        v := Some(Int32(n));
      } else if tag == REFERENCE {
        if 0 <= n < nrefs {
          v := Some(Ref(trefs[nrefs - n - 1]));
        }
      } else if tag == STRING {
        v := ReadString(n);
      } else if tag == ARRAY {
        v := ReadArrayNode(n);
      } else {
        v := ReadHash(n);
      }
    }

    method ReadString(n: int) returns (v: Option<Value>)
      requires Valid()
      modifies this, trefs
      ensures Valid() && (trefs == old(trefs) || fresh(trefs))
      ensures Outcome(v) == UnserSized(data, STRING, n, old(pos), old(St()))
    {
      if n < 0 || n >= MAX_SIZE || pos + n > |data| {
        return None;
      }
      if n == 0 {
        AddNumber(EMPTY_STRING);
        return Some(Ref(EMPTY_STRING));
      }
      var at := AllocNumbered(Str(data[pos..pos + n]));
      pos := pos + n;
      v := Some(Ref(at));
    }

    method ReadArrayNode(n: int) returns (v: Option<Value>)
      requires Valid()
      modifies this, trefs
      ensures Valid() && (trefs == old(trefs) || fresh(trefs))
      ensures Outcome(v) == UnserSized(data, ARRAY, n, old(pos), old(St()))
      decreases |data| - pos, 4
    {
      if n < 0 || n >= MAX_SIZE {
        return None;
      }
      if n == 0 {
        AddNumber(EMPTY_ARRAY);
        return Some(Ref(EMPTY_ARRAY));
      }
      var at := AllocNumbered(Arr(Nulls(n)));
      var done := ReadElements(at, n);
      v := if done.Some? then Some(Ref(at)) else None;
    }

    method ReadElements(at: nat, n: nat) returns (done: Option<()>)
      requires Valid() && at < |heap| && heap[at].Arr? && |heap[at].items| == n
      modifies this, trefs
      ensures Valid() && (trefs == old(trefs) || fresh(trefs))
      ensures Outcome(done) == ReadArray(data, at, 0, old(pos), old(St()))
      decreases |data| - pos, 3
    {
      done := Some(());
      var i := 0;
      while done.Some? && i < n
        invariant Valid() && (trefs == old(trefs) || fresh(trefs)) && (done.Some? ==> old(pos) <= pos)
        invariant 0 <= i <= n && (done.Some? ==> at < |heap| && heap[at].Arr? && |heap[at].items| == n)
        invariant ReadArray(data, at, 0, old(pos), old(St())) ==
                  if done.Some? then ReadArray(data, at, i, pos, St()) else Bad
        decreases n - i, done.Some?
      {
        done := ReadElement(at, i);
        i := if done.Some? then i + 1 else i;
      }
      if done.Some? {
        done := Some(());
      }
    }

    method ReadElement(at: nat, i: nat) returns (done: Option<()>)
      requires Valid() && at < |heap| && heap[at].Arr? && i < |heap[at].items|
      modifies this, trefs
      ensures Valid() && (trefs == old(trefs) || fresh(trefs))
      ensures done.Some?
        ==> old(pos) <= pos && at < |heap| && heap[at].Arr? && |heap[at].items| == |old(heap[at].items)|
      ensures ReadArray(data, at, i, old(pos), old(St())) == if done.Some?
        then ReadArray(data, at, i + 1, pos, St()) else Bad
      decreases |data| - pos, 2
    {
      var v := Unserialize();
      if v.None? {
        return None;
      }
      Fill(at, Arr(heap[at].items[i := v.value]));
      done := Some(());
    }

    method ReadFields(at: nat) returns (done: Option<()>)
      requires Valid() && at < |heap| && heap[at].Obj?
      modifies this, trefs
      ensures Valid() && (trefs == old(trefs) || fresh(trefs))
      ensures Outcome(done) == ReadObject(data, at, old(pos), old(St()))
      decreases |data| - pos, 3
    {
      var f := ReadInt();
      while f.Some? && f.value != 0
        invariant Valid() && (trefs == old(trefs) || fresh(trefs))
        invariant f.Some? ==> old(pos) + 4 <= pos && f.value == IntAt(data, pos - 4) && at < |heap| && heap[at].Obj?
        invariant ReadObject(data, at, old(pos), old(St())) == if f.Some? then ReadObject(data, at, pos - 4, St())
          else Bad
        decreases if f.Some? then |data| - pos + 1 else 0
      {
        f := ReadField(at, f.value);
      }
      if f.None? {
        return None;
      }
      done := ReadProto(at);
    }

    /** One field's value, and the id of the next one. */
    method ReadField(at: nat, id: int) returns (f: Option<int>)
      requires Valid() && at < |heap| && heap[at].Obj?
      requires pos >= 4 && id == IntAt(data, pos - 4) && id != 0
      modifies this, trefs
      ensures Valid() && (trefs == old(trefs) || fresh(trefs))
      ensures f.Some? ==> old(pos) + 4 < pos && f.value == IntAt(data, pos - 4) && at < |heap| && heap[at].Obj?
      ensures ReadObject(data, at, old(pos) - 4, old(St())) == if f.Some? then ReadObject(data, at, pos - 4, St())
        else Bad
      decreases |data| - pos, 1
    {
      var v := Unserialize();
      if v.None? {
        return None;
      }
      Fill(at, Obj(Put(heap[at].fields, id, v.value), heap[at].proto));
      f := ReadInt();
    }

    method ReadProto(at: nat) returns (done: Option<()>)
      requires Valid() && at < |heap| && heap[at].Obj?
      requires pos >= 4 && IntAt(data, pos - 4) == 0
      modifies this, trefs
      ensures Valid() && (trefs == old(trefs) || fresh(trefs))
      ensures Outcome(done) == ReadObject(data, at, old(pos) - 4, old(St()))
      decreases |data| - pos, 1
    {
      if pos == |data| {
        return None;
      }
      var tag := data[pos];
      pos := pos + 1;
      if tag == NO_PROTO {
        return Some(());
      }
      if tag != PROTO {
        return None;
      }
      var v := Unserialize();
      if v.None? || !v.value.Ref? || v.value.at >= |heap| || !heap[v.value.at].Obj? {
        return None;
      }
      Fill(at, Obj(heap[at].fields, Some(v.value.at)));
      done := Some(());
    }

    method ReadHash(n: int) returns (v: Option<Value>)
      requires Valid()
      modifies this, trefs
      ensures Valid() && (trefs == old(trefs) || fresh(trefs))
      ensures Outcome(v) == UnserSized(data, HASH, n, old(pos), old(St()))
      decreases |data| - pos, 4
    {
      var m := ReadInt();
      if m.None? || n < 0 || m.value < 0 {
        return None;
      }
      var cells := ReadAllCells(m.value, n);
      v := if cells.Some? then Some(Hash(cells.value)) else None;
    }

    method ReadAllCells(m: nat, n: nat) returns (table: Option<seq<Bucket>>)
      requires Valid()
      modifies this, trefs
      ensures Valid() && (trefs == old(trefs) || fresh(trefs))
      ensures Outcome(table) == ReadCells(data, m, Chains(n), old(pos), old(St()))
      decreases |data| - pos, 3
    {
      table := Some(Chains(n));
      var i := 0;
      while table.Some? && i < m
        invariant Valid() && (trefs == old(trefs) || fresh(trefs)) && (table.Some? ==> old(pos) <= pos)
        invariant 0 <= i <= m
        invariant ReadCells(data, m, Chains(n), old(pos), old(St())) ==
                  if table.Some? then ReadCells(data, m - i, table.value, pos, St()) else Bad
        decreases m - i, table.Some?
      {
        table := ReadCell(table.value, m - i);
        i := if table.Some? then i + 1 else i;
      }
    }

    method ReadCell(buckets: seq<Bucket>, ghost left: nat) returns (table: Option<seq<Bucket>>)
      requires Valid() && left > 0
      modifies this, trefs
      ensures Valid() && (trefs == old(trefs) || fresh(trefs))
      ensures table.Some? ==> old(pos) <= pos
      ensures ReadCells(data, left, buckets, old(pos), old(St())) ==
              if table.Some? then ReadCells(data, left - 1, table.value, pos, St()) else Bad
      decreases |data| - pos, 2
    {
      var hkey := ReadInt();
      if hkey.None? {
        return None;
      }
      var key := Unserialize();
      if key.None? {
        return None;
      }
      var val := Unserialize();
      if val.None? || |buckets| == 0 || hkey.value < 0 {
        return None;
      }
      table := Some(Place(buckets, HCell(hkey.value, key.value, val.value)));
    }
  }
}
