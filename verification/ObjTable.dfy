/** Object tables: cells in ascending order of field id, searched by bisection. */
module ObjTable {
  datatype Cell<V> = Cell(id: int, v: V)
  datatype Option<+T> = None | Some(value: T)

  /** Strictly ascending ids. */
  predicate Ascending<V>(cells: seq<Cell<V>>) {
    forall j, k :: 0 <= j < k < |cells| ==> cells[j].id < cells[k].id
  }

  /** The finite map that a table stands for. */
  function Lookup<V>(cells: seq<Cell<V>>, id: int): Option<V> {
    if cells == [] then None
    else if cells[0].id == id then Some(cells[0].v)
    else Lookup(cells[1..], id)
  }

  lemma {:induction false} LookupAt<V>(cells: seq<Cell<V>>, k: nat)
    requires Ascending(cells) && k < |cells|
    ensures Lookup(cells, cells[k].id) == Some(cells[k].v)
  {
    if k > 0 {
      LookupAt(cells[1..], k - 1);
    }
  }

  lemma {:induction false} LookupNone<V>(cells: seq<Cell<V>>, id: int)
    requires forall k :: 0 <= k < |cells| ==> cells[k].id != id
    ensures Lookup(cells, id) == None
  {
    if cells != [] {
      LookupNone(cells[1..], id);
    }
  }

  /** The table with `id` bound to `v`: its cell replaced, or a new one put in its place. */
  function Put<V>(cells: seq<Cell<V>>, id: int, v: V): seq<Cell<V>> {
    if cells == [] then [Cell(id, v)]
    else if id < cells[0].id then [Cell(id, v)] + cells
    else if id == cells[0].id then [Cell(id, v)] + cells[1..]
    else [cells[0]] + Put(cells[1..], id, v)
  }

  lemma {:induction false} PutBinds<V>(cells: seq<Cell<V>>, id: int, v: V, x: int)
    requires Ascending(cells)
    ensures Lookup(Put(cells, id, v), x) == if x == id then Some(v) else Lookup(cells, x)
  {
    if cells != [] {
      PutBinds(cells[1..], id, v, x);
      if id < cells[0].id {
        assert ([Cell(id, v)] + cells)[1..] == cells;
      }
    }
  }

  lemma {:induction false} PutAscending<V>(cells: seq<Cell<V>>, id: int, v: V)
    requires Ascending(cells)
    ensures Ascending(Put(cells, id, v)) && |Put(cells, id, v)| > 0
    ensures Put(cells, id, v)[0].id == if cells == [] || id < cells[0].id then id else cells[0].id
  {
    if cells != [] {
      PutAscending(cells[1..], id, v);
    }
  }

  /** Binding an id above all others appends. */
  lemma {:induction false} PutLast<V>(cells: seq<Cell<V>>, id: int, v: V)
    requires forall k :: 0 <= k < |cells| ==> cells[k].id < id
    ensures Put(cells, id, v) == cells + [Cell(id, v)]
  {
    if cells != [] {
      PutLast(cells[1..], id, v);
      assert [cells[0]] + (cells[1..] + [Cell(id, v)]) == cells + [Cell(id, v)];
    }
  }

  /** `at` is where bisection for `id` ends. */
  ghost predicate Splits<V>(cells: seq<Cell<V>>, id: int, at: int) {
    && 0 <= at <= |cells|
    && (forall k :: 0 <= k < at ==> cells[k].id < id)
    && (forall k :: at <= k < |cells| ==> id <= cells[k].id)
  }

  /** The id is there. */
  lemma {:induction false} PutOver<V>(cells: seq<Cell<V>>, id: int, v: V, at: nat)
    requires Ascending(cells) && at < |cells| && cells[at].id == id
    ensures Put(cells, id, v) == cells[at := Cell(id, v)]
  {
    if at > 0 {
      PutOver(cells[1..], id, v, at - 1);
      assert [cells[0]] + cells[1..][at - 1 := Cell(id, v)] == cells[at := Cell(id, v)];
    } else {
      assert [Cell(id, v)] + cells[1..] == cells[0 := Cell(id, v)];
    }
  }

  /** It is not, and goes to `at`. */
  lemma {:induction false} PutNew<V>(cells: seq<Cell<V>>, id: int, v: V, at: nat)
    requires at <= |cells|
    requires forall k :: 0 <= k < at ==> cells[k].id < id
    requires forall k :: at <= k < |cells| ==> id < cells[k].id
    ensures Put(cells, id, v) == cells[..at] + [Cell(id, v)] + cells[at..]
  {
    if at > 0 {
      PutNew(cells[1..], id, v, at - 1);
      assert cells[..at] == [cells[0]] + cells[1..][..at - 1];
    }
  }

  lemma PutAt<V>(cells: seq<Cell<V>>, id: int, v: V, at: nat)
    requires Ascending(cells) && Splits(cells, id, at)
    ensures Put(cells, id, v) ==
            if at < |cells| && cells[at].id == id then cells[at := Cell(id, v)]
            else cells[..at] + [Cell(id, v)] + cells[at..]
  {
    if at < |cells| && cells[at].id == id {
      PutOver(cells, id, v, at);
    } else {
      PutNew(cells, id, v, at);
    }
  }

  /** The table without `id`. */
  function Without<V>(cells: seq<Cell<V>>, id: int): seq<Cell<V>> {
    if cells == [] then []
    else if cells[0].id == id then cells[1..]
    else [cells[0]] + Without(cells[1..], id)
  }

  lemma {:induction false} WithoutUnbinds<V>(cells: seq<Cell<V>>, id: int, x: int)
    requires Ascending(cells)
    ensures Lookup(Without(cells, id), x) == if x == id then None else Lookup(cells, x)
  {
    if cells != [] {
      if cells[0].id == id {
        LookupNone(cells[1..], id);
      } else {
        WithoutUnbinds(cells[1..], id, x);
      }
    }
  }

  lemma {:induction false} WithoutAscending<V>(cells: seq<Cell<V>>, id: int)
    requires Ascending(cells)
    ensures Ascending(Without(cells, id))
    ensures forall c <- Without(cells, id) :: c in cells
  {
    if cells != [] && cells[0].id != id {
      WithoutAscending(cells[1..], id);
      var tail := Without(cells[1..], id);
      forall k | 0 <= k < |tail|
        ensures cells[0].id < tail[k].id
      {
        assert tail[k] in cells[1..];
      }
    }
  }

  lemma {:induction false} WithoutFirst<V>(cells: seq<Cell<V>>, id: int, at: nat)
    requires at < |cells| && cells[at].id == id && forall k :: 0 <= k < at ==> cells[k].id != id
    ensures Without(cells, id) == cells[..at] + cells[at + 1..]
  {
    if at > 0 {
      WithoutFirst(cells[1..], id, at - 1);
      assert cells[..at] == [cells[0]] + cells[1..][..at - 1];
    }
  }

  lemma WithoutAt<V>(cells: seq<Cell<V>>, id: int, at: nat)
    requires Ascending(cells) && at < |cells| && cells[at].id == id
    ensures Without(cells, id) == cells[..at] + cells[at + 1..]
  {
    WithoutFirst(cells, id, at);
  }

  /** The cells whose value is not `null`, in order. */
  function Compacted<V(==)>(cells: seq<Cell<V>>, nil: V): seq<Cell<V>> {
    if cells == [] then []
    else
      var last := cells[|cells| - 1];
      Compacted(cells[..|cells| - 1], nil) + if last.v == nil then [] else [last]
  }

  lemma {:induction false} CompactedAscending<V>(cells: seq<Cell<V>>, nil: V)
    requires Ascending(cells)
    ensures Ascending(Compacted(cells, nil)) && (forall c <- Compacted(cells, nil) :: c in cells)
  {
    if cells != [] {
      var n := |cells| - 1;
      var init := Compacted(cells[..n], nil);
      CompactedAscending(cells[..n], nil);
      forall k | 0 <= k < |init|
        ensures init[k].id < cells[n].id && init[k] in cells
      {
        assert init[k] in cells[..n];
      }
    }
  }

  /** Compaction drops the null bindings, which lookups could not tell from missing ones, and keeps
      all others. */
  lemma {:induction false} CompactedBinds<V>(cells: seq<Cell<V>>, nil: V, x: int)
    requires Ascending(cells)
    ensures Lookup(Compacted(cells, nil), x) == if Lookup(cells, x) == Some(nil) then None else Lookup(cells, x)
  {
    if cells != [] {
      var n := |cells| - 1;
      var init, last := cells[..n], cells[n];
      CompactedBinds(init, nil, x);
      assert cells == init + [last];
      LookupAppend(init, last, x);
      LookupAppend(Compacted(init, nil), last, x);
      assert Compacted(init, nil) + [] == Compacted(init, nil);
      if last.id == x {
        LookupNone(init, x);
      }
    }
  }

  lemma {:induction false} LookupAppend<V>(cells: seq<Cell<V>>, last: Cell<V>, x: int)
    ensures Lookup(cells + [last], x) ==
            if Lookup(cells, x).Some? then Lookup(cells, x) else if last.id == x then Some(last.v) else None
  {
    if cells == [] {
      assert Lookup([last][1..], x) == None;
    } else {
      assert (cells + [last])[1..] == cells[1..] + [last];
      LookupAppend(cells[1..], last, x);
    }
  }

  /** A table as the machine keeps it: an array that may be longer than the table. */
  class Table<V(==)> {
    const nil: V
    var count: nat
    var cells: array<Cell<V>>

    ghost predicate Valid()
      reads this, cells
    {
      count <= cells.Length && Ascending(cells[..count])
    }

    ghost function Contents(): seq<Cell<V>>
      requires count <= cells.Length
      reads this, cells
    {
      cells[..count]
    }

    /** `otable_init`. */
    constructor (nil: V)
      ensures Valid() && Contents() == [] && this.nil == nil && fresh(cells)
    {
      this.nil := nil;
      count, cells := 0, new Cell<V>[0];
    }

    /** The bisection that every operation makes. */
    method Search(id: int) returns (at: nat, found: bool)
      requires Valid()
      ensures Splits(Contents(), id, at)
      ensures found <==> at < count && cells[at].id == id
    {
      var lo, hi := 0, count;
      while lo < hi
        invariant 0 <= lo <= hi <= count
        invariant forall k :: 0 <= k < lo ==> cells[k].id < id
        invariant forall k :: hi <= k < count ==> id < cells[k].id
      {
        var mid := (lo + hi) / 2;
        var cid := cells[mid].id;
        assert forall k :: 0 <= k < count ==> cells[k] == cells[..count][k];
        if cid < id {
          lo := mid + 1;
        } else if cid > id {
          hi := mid;
        } else {
          return mid, true;
        }
      }
      return lo, false;
    }

    /** `otable_find` and `otable_get`: null stands for a missing binding. */
    method Get(id: int) returns (v: V)
      requires Valid()
      ensures v == match Lookup(Contents(), id) case Some(x) => x case None => nil
    {
      var at, found := Search(id);
      if found {
        LookupAt(Contents(), at);
        return cells[at].v;
      }
      LookupNone(Contents(), id);
      return nil;
    }

    /** `otable_replace`. */
    method Replace(id: int, v: V)
      requires Valid()
      modifies this`count, this`cells, cells
      ensures Valid() && Contents() == Put(old(Contents()), id, v)
      ensures cells == old(cells) || fresh(cells)
    {
      var at, found := Search(id);
      PutAt(Contents(), id, v, at);
      PutAscending(Contents(), id, v);
      if found {
        Overwrite(at, Cell(id, v));
      } else {
        var c := Widened(at, Cell(id, v));
        cells, count := c, count + 1;
      }
    }

    method Overwrite(at: nat, cell: Cell<V>)
      requires at < count <= cells.Length
      modifies cells
      ensures cells[..count] == old(cells[..count])[at := cell]
    {
      cells[at] := cell;
    }

    /** A copy of the table with room made for `cell` at `at`. */
    method Widened(at: nat, cell: Cell<V>) returns (c: array<Cell<V>>)
      requires at <= count <= cells.Length
      ensures fresh(c) && c.Length == count + 1
      ensures c[..] == Contents()[..at] + [cell] + Contents()[at..]
    {
      c := new Cell<V>[count + 1](_ => cell);
      for k := 0 to at
        invariant c[..k] == cells[..k] && forall j :: k <= j < c.Length ==> c[j] == cell
      {
        c[k] := cells[k];
      }
      for k := at to count
        invariant c[..at] == cells[..at] && c[at] == cell
        invariant forall j :: at < j <= k ==> c[j] == cells[j - 1]
      {
        c[k + 1] := cells[k];
      }
      assert c[..] == c[..at] + [c[at]] + c[at + 1..];
      assert c[at + 1..] == Contents()[at..];
    }

    /** `otable_remove`: the cells after the one removed move down in place. */
    method Remove(id: int) returns (found: bool)
      requires Valid()
      modifies this`count, cells
      ensures Valid() && found == Lookup(old(Contents()), id).Some?
      ensures Contents() == if found then Without(old(Contents()), id) else old(Contents())
    {
      ghost var before := Contents();
      var at;
      at, found := Search(id);
      if !found {
        LookupNone(before, id);
        return;
      }
      LookupAt(before, at);
      WithoutAt(before, id, at);
      WithoutAscending(before, id);
      count := count - 1;
      CloseGap(at);
    }

    method CloseGap(at: nat)
      requires at <= count < cells.Length
      modifies cells
      ensures cells[..count] == old(cells[..at] + cells[at + 1..count + 1])
    {
      ghost var before := cells[..];
      for k := at to count
        invariant cells[..at] == before[..at]
        invariant forall j :: at <= j < k ==> cells[j] == before[j + 1]
        invariant forall j :: k <= j < cells.Length ==> cells[j] == before[j]
      {
        cells[k] := cells[k + 1];
      }
      cells[count] := Cell(cells[count].id, nil);
      assert cells[..count] == cells[..at] + cells[at..count];
      assert cells[at..count] == before[at + 1..count + 1];
    }

    /** `otable_optimize`: drop the null bindings in place. */
    method Optimize()
      requires Valid()
      modifies this`count, cells
      ensures Valid() && Contents() == Compacted(old(Contents()), nil)
    {
      CompactedAscending(Contents(), nil);
      count := Squeeze();
    }

    method Squeeze() returns (cur: nat)
      requires count <= cells.Length
      modifies cells
      ensures cur <= count && cells[..cur] == Compacted(old(cells[..count]), nil)
    {
      ghost var before := cells[..count];
      cur := 0;
      for i := 0 to count
        invariant 0 <= cur <= i
        invariant cells[..cur] == Compacted(before[..i], nil)
        invariant cells[i..count] == before[i..]
      {
        assert before[..i + 1][..i] == before[..i];
        assert cells[i] == cells[i..count][0] == before[i];
        assert before[i + 1..] == before[i..][1..] && cells[i + 1..count] == cells[i..count][1..];
        if cells[i].v != nil {
          cells[cur] := cells[i];
          cur := cur + 1;
        }
      }
      assert before[..count] == before;
    }

    /** `otable_copy`: the target gets an array of its own. */
    method CopyTo(target: Table<V>)
      requires Valid() && target != this
      modifies target`count, target`cells
      ensures target.Valid() && target.Contents() == old(Contents()) && fresh(target.cells)
      ensures Contents() == old(Contents())
    {
      target.count := count;
      target.cells := new Cell<V>[count](k requires 0 <= k < count
        && count <= cells.Length reads this, cells => cells[k]);
      assert target.Contents() == Contents();
    }
  }
}
