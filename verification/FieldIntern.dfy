/** Interning of field names by several threads: a search without the lock, then one with it. */
module FieldIntern {
  import opened MachineInt
  import opened ObjTable

  type Name = seq<Byte>

  const SLOTS: nat := 64

  /** The id of a name: a 31-bit polynomial hash. */
  function FieldId(name: Name): int {
    if name == [] then 0 else Wrap31(223 * FieldId(name[..|name| - 1]) + name[|name| - 1])
  }

  predicate Sheds(name: Name, ids: seq<int>, wraps: seq<int>, k: nat)
    requires k < |name| == |wraps| && |ids| == |name| + 1
  {
    -0x4000_0000 <= ids[k + 1] < 0x4000_0000 && 223 * ids[k] + name[k] == ids[k + 1] + wraps[k] * 0x8000_0000
  }

  /** The id worked out: `ids` are those of the name's prefixes, and `wraps` what each step sheds. */
  lemma FieldIdBy(name: Name, ids: seq<int>, wraps: seq<int>)
    requires |ids| == |name| + 1 && |wraps| == |name| && ids[0] == 0
    requires forall k: nat :: k < |name| ==> Sheds(name, ids, wraps, k)
    ensures FieldId(name) == ids[|name|]
  {
    PrefixIdBy(name, ids, wraps, |name|);
    assert name[..|name|] == name;
  }

  lemma {:induction false} PrefixIdBy(name: Name, ids: seq<int>, wraps: seq<int>, n: nat)
    requires |ids| == |name| + 1 && |wraps| == |name| && ids[0] == 0 && n <= |name|
    requires forall k: nat :: k < |name| ==> Sheds(name, ids, wraps, k)
    ensures FieldId(name[..n]) == ids[n]
    decreases n
  {
    if n > 0 {
      PrefixIdBy(name, ids, wraps, n - 1);
      assert name[..n][..n - 1] == name[..n - 1] && Sheds(name, ids, wraps, n - 1);
    }
  }

  /** The table of an id, `id & 63`. */
  function Slot(id: int): (k: nat)
    ensures k < SLOTS
  {
    id % SLOTS
  }

  /** The hash as `val_id` computes it. */
  method ComputeFieldId(name: Name) returns (id: int)
    ensures id == FieldId(name)
  {
    id := 0;
    for i := 0 to |name|
      invariant id == FieldId(name[..i])
    {
      assert name[..i + 1][..i] == name[..i];
      id := Wrap31(223 * id + name[i]);
    }
    assert name[..|name|] == name;
  }

  // ------------------------------------------------------------------- machine

  datatype Table = Table(count: nat, cells: seq<Cell<Name>>)

  /** A bisection under way: the count and the cell array that were loaded, and the bounds. */
  datatype Hunt = Hunt(id: int, n: nat, c: seq<Cell<Name>>, min: nat, max: nat)

  datatype Probe = Again(hunt: Hunt) | Found(name: Name) | Missing

  function Mid(h: Hunt): nat {
    (h.min + h.max) / 2
  }

  /** One round of the bisection. The guard on the array stands for reading outside it. */
  function Look(h: Hunt): Probe {
    if h.min >= h.max || Mid(h) >= |h.c| then Missing
    else
      var cell := h.c[Mid(h)];
      if cell.id < h.id then Again(h.(min := Mid(h) + 1))
      else if cell.id > h.id then Again(h.(max := Mid(h)))
      else Found(cell.v)
  }

  /** Where a thread is. `Id` steps belong to `val_id`, `Name` steps to `val_field_name`. */
  datatype Pc =
    | Idle
    | IdCount(name: Name)
    | IdCells(name: Name, n: nat)
    | IdSearch(name: Name, hunt: Hunt)
    | Acquire(name: Name)
    | HeldSearch(name: Name, hunt: Hunt)
    | StoreCells(name: Name, wider: seq<Cell<Name>>)
    | StoreCount(name: Name)
    | Release(name: Name, found: Option<Name>)
    | Compare(name: Name, found: Option<Name>)
    | IdDone(name: Name, ok: bool)
    | NameCount(id: int)
    | NameCells(id: int, n: nat)
    | NameSearch(hunt: Hunt)
    | NameDone(id: int, result: Option<Name>)

  datatype State = State(tables: seq<Table>, lock: Option<nat>, threads: seq<Pc>)

  /** What an idle thread takes up next. */
  datatype Call = ValId(name: Name) | ValFieldName(id: int)

  datatype Effect = Effect(tables: seq<Table>, lock: Option<nat>, pc: Pc)

  /** One atomic step of thread `i`; a thread waiting for the lock stays where it is. */
  function Act(tables: seq<Table>, lock: Option<nat>, i: nat, pc: Pc, call: Call): Effect
    requires |tables| == SLOTS
  {
    match pc
    case Idle =>
      Effect(tables, lock, match call case ValId(name) => IdCount(name) case ValFieldName(id) => NameCount(id))
    case IdCount(name) => Effect(tables, lock, IdCells(name, tables[Slot(FieldId(name))].count))
    case IdCells(name, n) =>
      Effect(tables, lock, IdSearch(name, Hunt(FieldId(name), n, tables[Slot(FieldId(name))].cells, 0, n)))
    case IdSearch(name, hunt) =>
      Effect(tables, lock, match Look(hunt)
                           case Again(h) => IdSearch(name, h)
                           case Found(x) => Compare(name, Some(x))
                           case Missing => Acquire(name))
    case Acquire(name) =>
      if lock.Some? then Effect(tables, lock, pc)
      else
        var t := tables[Slot(FieldId(name))];
        Effect(tables, Some(i), HeldSearch(name, Hunt(FieldId(name), t.count, t.cells, 0, t.count)))
    case HeldSearch(name, hunt) =>
      Effect(tables, lock, match Look(hunt)
                           case Again(h) => HeldSearch(name, h)
                           case Found(x) => Release(name, Some(x))
                           case Missing => StoreCells(name, Widened(hunt, name)))
    case StoreCells(name, wider) =>
      var k := Slot(FieldId(name));
      Effect(tables[k := tables[k].(cells := wider)], lock, StoreCount(name))
    case StoreCount(name) =>
      var k := Slot(FieldId(name));
      Effect(tables[k := tables[k].(count := tables[k].count + 1)], lock, Release(name, None))
    case Release(name, found) => Effect(tables, None, Compare(name, found))
    case Compare(name, found) => Effect(tables, lock, IdDone(name, found.None? || found.value == name))
    case IdDone(_, _) => Effect(tables, lock, Idle)
    case NameCount(id) => Effect(tables, lock, NameCells(id, tables[Slot(id)].count))
    case NameCells(id, n) => Effect(tables, lock, NameSearch(Hunt(id, n, tables[Slot(id)].cells, 0, n)))
    case NameSearch(hunt) =>
      Effect(tables, lock, match Look(hunt)
                           case Again(h) => NameSearch(h)
                           case Found(x) => NameDone(hunt.id, Some(x))
                           case Missing => NameDone(hunt.id, None))
    case NameDone(_, _) => Effect(tables, lock, Idle)
  }

  /** The copy that the holder of the lock makes, with room for the new name. */
  function Widened(h: Hunt, name: Name): seq<Cell<Name>> {
    if h.min <= h.n <= |h.c| then h.c[..h.min] + [Cell(h.id, name)] + h.c[h.min..h.n] else h.c
  }

  datatype Move = Move(thread: nat, call: Call)

  function Step(s: State, m: Move): (s': State)
    requires |s.tables| == SLOTS
    ensures |s'.tables| == SLOTS && |s'.threads| == |s.threads|
  {
    if m.thread >= |s.threads| then s
    else
      var e := Act(s.tables, s.lock, m.thread, s.threads[m.thread], m.call);
      State(e.tables, e.lock, s.threads[m.thread := e.pc])
  }

  // ------------------------------------------------------------------- invariant

  /** What is in the table for good. */
  function Bound(tables: seq<Table>, id: int): Option<Name>
    requires |tables| == SLOTS
  {
    Lookup(tables[Slot(id)].cells, id)
  }

  predicate TableOk(t: Table, k: nat) {
    && Ascending(t.cells)
    && forall j :: 0 <= j < |t.cells| ==> CellOk(t.cells[j], k)
  }

  predicate CellOk(c: Cell<Name>, k: nat) {
    Slot(c.id) == k && FieldId(c.v) == c.id
  }

  /** No binding is lost or changed, and tables do not shrink. */
  ghost predicate Grows(tables: seq<Table>, tables': seq<Table>) {
    && |tables| == |tables'| == SLOTS
    && (forall k :: 0 <= k < SLOTS ==> tables[k].count <= tables'[k].count)
    && (forall id {:trigger Bound(tables', id)} :: Bound(tables, id).Some? ==> Bound(tables', id) == Bound(tables, id))
  }

  /** A bisection stays inside the array that it loaded, and that array holds only lasting bindings. */
  ghost predicate HuntOk(tables: seq<Table>, h: Hunt)
    requires |tables| == SLOTS
  {
    && h.min <= h.max <= h.n <= |h.c| && Ascending(h.c)
    && (forall j :: 0 <= j < h.min ==> h.c[j].id < h.id)
    && (forall j :: h.max <= j < h.n ==> h.id < h.c[j].id)
    && (Lookup(h.c, h.id).Some? ==> Bound(tables, h.id) == Lookup(h.c, h.id))
  }

  predicate Holding(pc: Pc) {
    pc.HeldSearch? || pc.StoreCells? || pc.StoreCount? || pc.Release?
  }

  ghost predicate PcOk(tables: seq<Table>, pc: Pc)
    requires |tables| == SLOTS
  {
    match pc
    case IdCells(name, n) => n <= tables[Slot(FieldId(name))].count
    case IdSearch(name, hunt) => hunt.id == FieldId(name) && HuntOk(tables, hunt)
    case HeldSearch(name, hunt) =>
      var t := tables[Slot(FieldId(name))];
      hunt.id == FieldId(name) && HuntOk(tables, hunt) && hunt.c == t.cells && hunt.n == |t.cells|
    case StoreCells(name, wider) =>
      wider == Put(tables[Slot(FieldId(name))].cells, FieldId(name), name) && Bound(tables, FieldId(name)) == None
    case StoreCount(name) => Bound(tables, FieldId(name)) == Some(name)
    case Release(name, found) => Settled(tables, name, found)
    case Compare(name, found) => Settled(tables, name, found)
    case IdDone(name, ok) =>
      Bound(tables, FieldId(name)).Some? && (ok <==> Bound(tables, FieldId(name)) == Some(name))
    case NameCells(id, n) => n <= tables[Slot(id)].count
    case NameSearch(hunt) => HuntOk(tables, hunt)
    case NameDone(id, result) => result.Some? ==> Bound(tables, id) == result
    case _ => true
  }

  ghost predicate Settled(tables: seq<Table>, name: Name, found: Option<Name>)
    requires |tables| == SLOTS
  {
    Bound(tables, FieldId(name)) == if found.Some? then found else Some(name)
  }

  /** A table's count and array differ by one exactly while its writer is between its two stores. */
  predicate CountOk(t: Table, k: nat, lock: Option<nat>, threads: seq<Pc>) {
    |t.cells| == t.count + if Publishing(k, lock, threads) then 1 else 0
  }

  predicate Publishing(k: nat, lock: Option<nat>, threads: seq<Pc>) {
    && lock.Some? && lock.value < |threads|
    && threads[lock.value].StoreCount? && Slot(FieldId(threads[lock.value].name)) == k
  }

  ghost predicate Inv(s: State) {
    && |s.tables| == SLOTS
    && (forall k :: 0 <= k < SLOTS ==> TableOk(s.tables[k], k) && CountOk(s.tables[k], k, s.lock, s.threads))
    && (forall i :: 0 <= i < |s.threads| ==> PcOk(s.tables, s.threads[i]))
    && (forall i :: 0 <= i < |s.threads| ==> (Holding(s.threads[i]) <==> s.lock == Some(i)))
    && (s.lock.Some? ==> s.lock.value < |s.threads|)
  }

  predicate Start(s: State) {
    && |s.tables| == SLOTS && s.lock.None?
    && (forall k :: 0 <= k < SLOTS ==> s.tables[k] == Table(0, []))
    && (forall i :: 0 <= i < |s.threads| ==> s.threads[i] == Idle)
  }

  lemma StartInv(s: State)
    requires Start(s)
    ensures Inv(s)
  {
  }

  // ------------------------------------------------------------------- bisection

  lemma LookKeeps(tables: seq<Table>, h: Hunt)
    requires |tables| == SLOTS && HuntOk(tables, h)
    ensures Look(h).Again? ==> HuntOk(tables, Look(h).hunt) && Look(h).hunt.max - Look(h).hunt.min < h.max - h.min
    ensures Look(h).Found? ==> Bound(tables, h.id) == Some(Look(h).name)
    ensures h.min < h.max ==> Mid(h) < |h.c|
    ensures Look(h).Missing? ==> h.min == h.max && Splits(h.c[..h.n], h.id, h.min)
  {
    hide Lookup, Bound;
    if Look(h).Found? {
      LookupAt(h.c, Mid(h));
    }
  }

  lemma WidenedIsPut(tables: seq<Table>, h: Hunt, name: Name)
    requires |tables| == SLOTS && HuntOk(tables, h) && h.n == |h.c| && h.min == h.max
    ensures Widened(h, name) == Put(h.c, h.id, name) && Lookup(h.c, h.id) == None
  {
    LookupNone(h.c, h.id);
    PutAt(h.c, h.id, name, h.min);
  }

  // ------------------------------------------------------------------- steps

  lemma GrowsSelf(tables: seq<Table>)
    requires |tables| == SLOTS
    ensures Grows(tables, tables)
  {
  }

  /** What one thread knows survives the steps of the others. */
  lemma PcOkLater(tables: seq<Table>, tables': seq<Table>, pc: Pc)
    requires Grows(tables, tables') && PcOk(tables, pc)
    requires Holding(pc) ==> tables == tables'
    ensures PcOk(tables', pc)
  {
    match pc
    case IdSearch(name, hunt) => assert Bound(tables', hunt.id) == Bound(tables', hunt.id);
    case NameSearch(hunt) => assert Bound(tables', hunt.id) == Bound(tables', hunt.id);
    case Compare(name, found) => assert Bound(tables', FieldId(name)) == Bound(tables', FieldId(name));
    case IdDone(name, ok) => assert Bound(tables', FieldId(name)) == Bound(tables', FieldId(name));
    case NameDone(id, result) => assert Bound(tables', id) == Bound(tables', id);
    case _ =>
  }

  /** Publishing the widened array binds one new id and keeps every other binding. */
  lemma StoreCellsGrows(tables: seq<Table>, name: Name, wider: seq<Cell<Name>>)
    requires |tables| == SLOTS && TableOk(tables[Slot(FieldId(name))], Slot(FieldId(name)))
    requires PcOk(tables, StoreCells(name, wider))
    ensures var k := Slot(FieldId(name)); var tables' := tables[k := tables[k].(cells := wider)];
            && Grows(tables, tables') && TableOk(tables'[k], k)
            && Bound(tables', FieldId(name)) == Some(name) && |wider| == |tables[k].cells| + 1
  {
    var f := FieldId(name);
    var k := Slot(f);
    var cells := tables[k].cells;
    var tables' := tables[k := tables[k].(cells := wider)];
    PutAscending(cells, f, name);
    forall id
      ensures Bound(tables, id).Some? ==> Bound(tables', id) == Bound(tables, id)
    {
      PutBinds(cells, f, name, id);
    }
    PutBinds(cells, f, name, f);
    PutCells(cells, f, name, k);
  }

  lemma {:induction false} PutCells(cells: seq<Cell<Name>>, id: int, name: Name, k: nat)
    requires Ascending(cells) && Lookup(cells, id) == None
    requires (forall c <- cells :: CellOk(c, k)) && CellOk(Cell(id, name), k)
    ensures (forall c <- Put(cells, id, name) :: CellOk(c, k)) && |Put(cells, id, name)| == |cells| + 1
  {
    if cells != [] && cells[0].id < id {
      PutCells(cells[1..], id, name, k);
    }
  }

  lemma HeldOk(tables: seq<Table>, name: Name, hunt: Hunt)
    requires |tables| == SLOTS && PcOk(tables, HeldSearch(name, hunt))
    ensures PcOk(tables, match Look(hunt)
                         case Again(h) => HeldSearch(name, h)
                         case Found(x) => Release(name, Some(x))
                         case Missing => StoreCells(name, Widened(hunt, name)))
  {
    LookKeeps(tables, hunt);
    if Look(hunt).Missing? {
      WidenedIsPut(tables, hunt, name);
    }
  }

  lemma IdSearchOk(tables: seq<Table>, name: Name, hunt: Hunt)
    requires |tables| == SLOTS && PcOk(tables, IdSearch(name, hunt))
    ensures PcOk(tables, match Look(hunt)
                         case Again(h) => IdSearch(name, h)
                         case Found(x) => Compare(name, Some(x))
                         case Missing => Acquire(name))
  {
    LookKeeps(tables, hunt);
  }

  lemma NameSearchOk(tables: seq<Table>, hunt: Hunt)
    requires |tables| == SLOTS && PcOk(tables, NameSearch(hunt))
    ensures PcOk(tables, match Look(hunt)
                         case Again(h) => NameSearch(h)
                         case Found(x) => NameDone(hunt.id, Some(x))
                         case Missing => NameDone(hunt.id, None))
  {
    LookKeeps(tables, hunt);
  }

  lemma AcquireOk(s: State, name: Name)
    requires Inv(s) && s.lock.None?
    ensures var t := s.tables[Slot(FieldId(name))];
            PcOk(s.tables, HeldSearch(name, Hunt(FieldId(name), t.count, t.cells, 0, t.count)))
  {
    var k := Slot(FieldId(name));
    assert CountOk(s.tables[k], k, s.lock, s.threads);
    LoadOk(s, FieldId(name), s.tables[k].count);
  }

  /** The steps that store nothing. */
  lemma QuietStep(s: State, i: nat, call: Call)
    requires Inv(s) && i < |s.threads|
    requires !s.threads[i].StoreCells? && !s.threads[i].StoreCount?
    ensures var e := Act(s.tables, s.lock, i, s.threads[i], call);
            e.tables == s.tables && PcOk(e.tables, e.pc)
  {
    var pc := s.threads[i];
    assert PcOk(s.tables, pc);
    match pc
    case IdSearch(name, hunt) => IdSearchOk(s.tables, name, hunt);
    case NameSearch(hunt) => NameSearchOk(s.tables, hunt);
    case HeldSearch(name, hunt) => HeldOk(s.tables, name, hunt);
    case Acquire(name) => if s.lock.None? { AcquireOk(s, name); }
    case IdCells(name, n) => LoadOk(s, FieldId(name), n);
    case NameCells(id, n) => LoadOk(s, id, n);
    case _ =>
  }

  /** A count loaded before the array never exceeds it. */
  lemma LoadOk(s: State, id: int, n: nat)
    requires Inv(s) && n <= s.tables[Slot(id)].count
    ensures HuntOk(s.tables, Hunt(id, n, s.tables[Slot(id)].cells, 0, n))
  {
    assert TableOk(s.tables[Slot(id)], Slot(id)) && CountOk(s.tables[Slot(id)], Slot(id), s.lock, s.threads);
  }

  /** A thread's own step keeps what it has to keep. */
  lemma OwnStep(s: State, i: nat, call: Call)
    requires Inv(s) && i < |s.threads|
    ensures var e := Act(s.tables, s.lock, i, s.threads[i], call);
            && Grows(s.tables, e.tables) && PcOk(e.tables, e.pc)
            && (s.lock != Some(i) ==> e.tables == s.tables)
            && (forall k :: 0 <= k < SLOTS ==> TableOk(e.tables[k], k))
  {
    var pc := s.threads[i];
    assert PcOk(s.tables, pc);
    GrowsSelf(s.tables);
    match pc
    case StoreCells(name, wider) => StoreCellsGrows(s.tables, name, wider);
    case StoreCount(name) =>
      var e := Act(s.tables, s.lock, i, pc, call);
      assert Bound(e.tables, FieldId(name)) == Bound(s.tables, FieldId(name));
    case _ => QuietStep(s, i, call);
  }

  lemma StepInv(s: State, m: Move)
    requires Inv(s)
    ensures Inv(Step(s, m)) && Grows(s.tables, Step(s, m).tables)
  {
    GrowsSelf(s.tables);
    if m.thread < |s.threads| {
      var s' := Step(s, m);
      OwnStep(s, m.thread, m.call);
      forall i | 0 <= i < |s'.threads|
        ensures PcOk(s'.tables, s'.threads[i])
      {
        if i != m.thread {
          assert PcOk(s.tables, s.threads[i]);
          PcOkLater(s.tables, s'.tables, s.threads[i]);
        }
      }
      StepCounts(s, m);
      StepHolds(s, m);
    }
  }

  lemma StepCounts(s: State, m: Move)
    requires Inv(s) && m.thread < |s.threads|
    ensures var s' := Step(s, m); forall k :: 0 <= k < SLOTS ==> CountOk(s'.tables[k], k, s'.lock, s'.threads)
  {
    var s' := Step(s, m);
    var pc := s.threads[m.thread];
    assert PcOk(s.tables, pc);
    forall k | 0 <= k < SLOTS
      ensures CountOk(s'.tables[k], k, s'.lock, s'.threads)
    {
      assert CountOk(s.tables[k], k, s.lock, s.threads);
      if pc.StoreCells? {
        StoreCellsGrows(s.tables, pc.name, pc.wider);
      }
    }
  }

  lemma StepHolds(s: State, m: Move)
    requires Inv(s) && m.thread < |s.threads|
    ensures var s' := Step(s, m); forall i :: 0 <= i < |s'.threads| ==> (Holding(s'.threads[i]) <==> s'.lock == Some(i))
  {
  }

  // ------------------------------------------------------------------- whole runs

  function Run(s: State, moves: seq<Move>): (s': State)
    requires |s.tables| == SLOTS
    ensures |s'.tables| == SLOTS && |s'.threads| == |s.threads|
    decreases |moves|
  {
    if moves == [] then s else Run(Step(s, moves[0]), moves[1..])
  }

  /** Under every interleaving the invariant holds, and no binding is ever lost or changed. */
  lemma {:induction false} RunInv(s: State, moves: seq<Move>)
    requires Inv(s)
    ensures Inv(Run(s, moves)) && Grows(s.tables, Run(s, moves).tables)
    decreases |moves|
  {
    GrowsSelf(s.tables);
    if moves != [] {
      var s1 := Step(s, moves[0]);
      StepInv(s, moves[0]);
      RunInv(s1, moves[1..]);
      var s2 := Run(s1, moves[1..]);
      forall id
        ensures Bound(s.tables, id).Some? ==> Bound(s2.tables, id) == Bound(s.tables, id)
      {
        assert Bound(s1.tables, id) == Bound(s1.tables, id);
      }
    }
  }

  /** No search, with or without the lock, reads outside the array that it loaded. */
  lemma NoReadOutside(s: State, moves: seq<Move>, i: nat)
    requires Start(s) && i < |s.threads|
    ensures var pc := Run(s, moves).threads[i];
            pc.IdSearch? || pc.HeldSearch? || pc.NameSearch? ==>
              (pc.hunt.min < pc.hunt.max ==> Mid(pc.hunt) < pc.hunt.n) && pc.hunt.n <= |pc.hunt.c|
  {
    StartInv(s);
    RunInv(s, moves);
    var pc := Run(s, moves).threads[i];
    assert PcOk(Run(s, moves).tables, pc);
  }

  /** `val_id` succeeds exactly when its id stands, from then on and for ever, for the name it was given;
      it fails exactly when the id stands for another name with the same hash. */
  lemma Interned(s: State, before: seq<Move>, i: nat, after: seq<Move>)
    requires Start(s) && i < |s.threads| && Run(s, before).threads[i].IdDone?
    ensures var pc := Run(s, before).threads[i];
            var bound := Bound(Run(Run(s, before), after).tables, FieldId(pc.name));
            && bound.Some? && FieldId(bound.value) == FieldId(pc.name)
            && (pc.ok <==> bound.value == pc.name)
  {
    StartInv(s);
    RunInv(s, before);
    var s1 := Run(s, before);
    RunInv(s1, after);
    var s2 := Run(s1, after);
    var f := FieldId(s1.threads[i].name);
    assert PcOk(s1.tables, s1.threads[i]);
    assert Bound(s2.tables, f) == Bound(s1.tables, f);
    BoundName(s2, f);
  }

  lemma BoundName(s: State, id: int)
    requires Inv(s) && Bound(s.tables, id).Some?
    ensures FieldId(Bound(s.tables, id).value) == id
  {
    var t := s.tables[Slot(id)];
    assert TableOk(t, Slot(id));
    LookupCell(t.cells, id);
  }

  lemma {:induction false} LookupCell(cells: seq<Cell<Name>>, id: int)
    requires Lookup(cells, id).Some?
    ensures exists j :: 0 <= j < |cells| && cells[j] == Cell(id, Lookup(cells, id).value)
  {
    if cells[0].id != id {
      LookupCell(cells[1..], id);
      var j :| 0 <= j < |cells[1..]| && cells[1..][j] == Cell(id, Lookup(cells[1..], id).value);
      assert cells[j + 1] == cells[1..][j];
    }
  }

  /** Different names never share an id, in whatever threads and whenever they were interned. */
  lemma IdsAreInjective(s: State, before: seq<Move>, i: nat, after: seq<Move>, j: nat)
    requires Start(s) && i < |s.threads| && j < |s.threads|
    requires Run(s, before).threads[i].IdDone? && Run(s, before).threads[i].ok
    requires Run(Run(s, before), after).threads[j].IdDone? && Run(Run(s, before), after).threads[j].ok
    ensures var x, y := Run(s, before).threads[i].name, Run(Run(s, before), after).threads[j].name;
            FieldId(x) == FieldId(y) <==> x == y
  {
    StartInv(s);
    RunInv(s, before);
    var s1 := Run(s, before);
    RunInv(s1, after);
    var s2 := Run(s1, after);
    assert PcOk(s1.tables, s1.threads[i]) && PcOk(s2.tables, s2.threads[j]);
    var f := FieldId(s1.threads[i].name);
    assert Bound(s2.tables, f) == Bound(s1.tables, f);
  }

  // ------------------------------------------------------------------- the name of an id

  /** How a bisection ends when it is run to its end. */
  function Sought(h: Hunt): Option<Name>
    requires h.min <= h.max <= |h.c|
    decreases h.max - h.min
  {
    match Look(h)
    case Missing => None
    case Found(name) => Some(name)
    case Again(h') => Sought(h')
  }

  /** A bisection run to its end looks the id up among the cells below the count that was loaded. */
  lemma {:induction false} SoughtIff(tables: seq<Table>, h: Hunt)
    requires |tables| == SLOTS && HuntOk(tables, h)
    ensures Sought(h) == Lookup(h.c[..h.n], h.id)
    ensures Sought(h).Some? ==> Bound(tables, h.id) == Sought(h)
    ensures Lookup(h.c, h.id).Some? && h.n == |h.c| ==> Sought(h) == Bound(tables, h.id)
    decreases h.max - h.min
  {
    LookKeeps(tables, h);
    assert h.n == |h.c| ==> h.c[..h.n] == h.c;
    match Look(h)
    case Again(h') => SoughtIff(tables, h');
    case Found(_) => LookupAt(h.c[..h.n], Mid(h));
    case Missing => LookupNone(h.c[..h.n], h.id);
  }

  /** Thread `i` is searching for a name in every state of the run but the last. */
  predicate Searching(s: State, moves: seq<Move>, i: nat)
    requires |s.tables| == SLOTS && i < |s.threads|
    decreases |moves|
  {
    moves == [] || (s.threads[i].NameSearch? && Searching(Step(s, moves[0]), moves[1..], i))
  }

  /** What a thread that is searching for a name will answer, or has answered. */
  ghost predicate WillAnswer(s: State, i: nat, id: int, answer: Option<Name>) {
    && i < |s.threads| && Inv(s)
    && match s.threads[i]
       case NameSearch(hunt) => hunt.id == id && HuntOk(s.tables, hunt) && Sought(hunt) == answer
       case NameDone(id', result) => id' == id && result == answer
       case _ => false
  }

  /** Neither its own steps nor those of other threads change the answer. */
  lemma AnswerStays(s: State, m: Move, i: nat, id: int, answer: Option<Name>)
    requires WillAnswer(s, i, id, answer) && s.threads[i].NameSearch?
    ensures WillAnswer(Step(s, m), i, id, answer)
  {
    StepInv(s, m);
    var s' := Step(s, m);
    assert PcOk(s.tables, s.threads[i]) && PcOk(s'.tables, s'.threads[i]);
    LookKeeps(s.tables, s.threads[i].hunt);
  }

  lemma {:induction false} AnswerComes(s: State, moves: seq<Move>, i: nat, id: int, answer: Option<Name>)
    requires WillAnswer(s, i, id, answer) && Searching(s, moves, i)
    ensures WillAnswer(Run(s, moves), i, id, answer)
    decreases |moves|
  {
    if moves != [] {
      AnswerStays(s, moves[0], i, id, answer);
      AnswerComes(Step(s, moves[0]), moves[1..], i, id, answer);
    }
  }

  /** `val_field_name`, in every run: having loaded the count `n`, it answers what the first `n` cells of the
      array that it loads next say about the id, whatever other threads do meanwhile. */
  lemma NameAnswers(s: State, before: seq<Move>, i: nat, n: nat, id: int, call: Call, moves: seq<Move>)
    requires Start(s) && i < |s.threads| && Run(s, before).threads[i] == NameCells(id, n)
    requires Searching(Step(Run(s, before), Move(i, call)), moves, i)
    requires Run(Step(Run(s, before), Move(i, call)), moves).threads[i].NameDone?
    ensures n <= |Run(s, before).tables[Slot(id)].cells|
    ensures Run(Step(Run(s, before), Move(i, call)), moves).threads[i]
         == NameDone(id, Lookup(Run(s, before).tables[Slot(id)].cells[..n], id))
  {
    StartInv(s);
    RunInv(s, before);
    var s1 := Run(s, before);
    var cells := s1.tables[Slot(id)].cells;
    assert PcOk(s1.tables, s1.threads[i]);
    LoadOk(s1, id, n);
    SoughtIff(s1.tables, Hunt(id, n, cells, 0, n));
    StepInv(s1, Move(i, call));
    AnswerComes(Step(s1, Move(i, call)), moves, i, id, Lookup(cells[..n], id));
  }

  /** A search below `n` misses an id that is there exactly when its cell does not lie below `n`. */
  lemma {:induction false} MissedIff(cells: seq<Cell<Name>>, id: int, j: nat, n: nat)
    requires Ascending(cells) && j < |cells| && cells[j].id == id && n <= |cells|
    ensures Lookup(cells[..n], id) == (if j < n then Some(cells[j].v) else None)
    ensures Lookup(cells, id) == Some(cells[j].v)
  {
    LookupAt(cells, j);
    if j < n {
      LookupAt(cells[..n], j);
    } else {
      LookupNone(cells[..n], id);
    }
  }

  /** So it answers null for an id that is bound if and only if the id's cell had come to lie at or above the
      count that was loaded before the array. */
  lemma NameMissesIff(s: State, before: seq<Move>, i: nat, n: nat, id: int, call: Call, moves: seq<Move>, j: nat)
    requires Start(s) && i < |s.threads| && Run(s, before).threads[i] == NameCells(id, n)
    requires Searching(Step(Run(s, before), Move(i, call)), moves, i)
    requires Run(Step(Run(s, before), Move(i, call)), moves).threads[i].NameDone?
    requires j < |Run(s, before).tables[Slot(id)].cells| && Run(s, before).tables[Slot(id)].cells[j].id == id
    ensures Run(Step(Run(s, before), Move(i, call)), moves).threads[i].result
         == if j < n then Bound(Run(s, before).tables, id) else None
  {
    StartInv(s);
    RunInv(s, before);
    assert TableOk(Run(s, before).tables[Slot(id)], Slot(id));
    NameAnswers(s, before, i, n, id, call, moves);
    MissedIff(Run(s, before).tables[Slot(id)].cells, id, j, n);
  }

  /** While others move, thread `i` stays where it is. */
  lemma {:induction false} OthersMove(s: State, moves: seq<Move>, i: nat)
    requires |s.tables| == SLOTS && i < |s.threads| && forall m <- moves :: m.thread != i
    ensures Run(s, moves).threads[i] == s.threads[i]
    decreases |moves|
  {
    if moves != [] {
      OthersMove(Step(s, moves[0]), moves[1..], i);
    }
  }

  /** With nothing published in the id's table from the time its count is loaded until the array is, and
      nobody in between doing so, the answer is right. */
  lemma NameFound(s: State, before: seq<Move>, i: nat, id: int, call: Call, between: seq<Move>, moves: seq<Move>)
    requires Start(s) && i < |s.threads| && Run(s, before).threads[i] == NameCount(id)
    requires forall m <- between :: m.thread != i
    requires var s1 := Run(s, before);
             var s2 := Run(Step(s1, Move(i, call)), between);
             var s3 := Step(s2, Move(i, call));
      && s2.tables[Slot(id)] == s1.tables[Slot(id)] && !Publishing(Slot(id), s1.lock, s1.threads)
      && Searching(s3, moves, i) && Run(s3, moves).threads[i].NameDone?
    ensures var s1 := Run(s, before);
            var s3 := Step(Run(Step(s1, Move(i, call)), between), Move(i, call));
      Run(s3, moves).threads[i] == NameDone(id, Bound(s1.tables, id))
  {
    var s1 := Run(s, before);
    var go := Move(i, call);
    var s2 := Run(Step(s1, go), between);
    var n := s1.tables[Slot(id)].count;
    StartInv(s);
    RunInv(s, before);
    assert CountOk(s1.tables[Slot(id)], Slot(id), s1.lock, s1.threads);
    OthersMove(Step(s1, go), between, i);
    RunConcat(s, before, [go]);
    assert Run(s1, [go]) == Step(s1, go);
    RunConcat(s, before + [go], between);
    NameAnswers(s, before + [go] + between, i, n, id, call, moves);
    assert s2.tables[Slot(id)].cells[..n] == s1.tables[Slot(id)].cells;
  }

  /** `n` steps of one thread. */
  function Solo(s: State, m: Move, n: nat): (s': State)
    requires |s.tables| == SLOTS
    ensures |s'.tables| == SLOTS && |s'.threads| == |s.threads|
    decreases n
  {
    if n == 0 then s else Solo(Step(s, m), m, n - 1)
  }

  lemma {:induction false} SoloRuns(s: State, m: Move, n: nat)
    requires |s.tables| == SLOTS
    ensures Run(s, seq(n, _ => m)) == Solo(s, m, n)
    decreases n
  {
    if n > 0 {
      SoloRuns(Step(s, m), m, n - 1);
      assert seq(n, _ => m)[1..] == seq(n - 1, _ => m);
    }
  }

  lemma {:induction false} RunConcat(s: State, x: seq<Move>, y: seq<Move>)
    requires |s.tables| == SLOTS
    ensures Run(s, x + y) == Run(Run(s, x), y)
    decreases |x|
  {
    if x == [] {
      assert x + y == y;
    } else {
      assert (x + y)[1..] == x[1..] + y;
      RunConcat(Step(s, x[0]), x[1..], y);
    }
  }

  const A: Name := [97]
  const BANG: Name := [33]

  /** Both names belong to table 33, the second with the smaller id. */
  lemma SmallIds()
    ensures FieldId(A) == 97 && FieldId(BANG) == 33 && Slot(97) == 33 && Slot(33) == 33
  {
    assert A[..0] == [] && BANG[..0] == [];
    assert FieldId([]) == 0;
  }

  function Empty(): seq<Table> {
    seq(SLOTS, _ => Table(0, []))
  }

  /** The tables when table 33 is `t` and all others are empty. */
  function With(t: Table): seq<Table> {
    Empty()[33 := t]
  }

  lemma {:induction false} SoloThen(s: State, m: Move, n: nat, k: nat)
    requires |s.tables| == SLOTS
    ensures Solo(s, m, n + k) == Solo(Solo(s, m, n), m, k)
    decreases n
  {
    if n > 0 {
      SoloThen(Step(s, m), m, n - 1, k);
    }
  }

  /** Three steps in a row, each worked out. */
  lemma Three(s: State, m: Move, s1: State, s2: State, s3: State)
    requires |s.tables| == |s1.tables| == |s2.tables| == SLOTS
    requires Step(s, m) == s1 && Step(s1, m) == s2 && Step(s2, m) == s3
    ensures Solo(s, m, 3) == s3
  {
    assert Solo(s, m, 3) == Solo(s1, m, 2) == Solo(s2, m, 1) == Solo(s3, m, 0);
  }

  /** A lone thread takes up a name and loads the table. */
  lemma Begins(t: Table, name: Name, other: Pc)
    requires Slot(FieldId(name)) == 33
    ensures Solo(State(With(t), None, [Idle, other]), Move(0, ValId(name)), 3) ==
            State(With(t), None, [IdSearch(name, Hunt(FieldId(name), t.count, t.cells, 0, t.count)), other])
  {
    var s := State(With(t), None, [Idle, other]);
    Three(s, Move(0, ValId(name)), s.(threads := [IdCount(name), other]),
      s.(threads := [IdCells(name, t.count), other]),
          s.(threads := [IdSearch(name, Hunt(FieldId(name), t.count, t.cells, 0, t.count)), other]));
  }

  const ONE: Table := Table(1, [Cell(97, A)])
  const BOTH: seq<Cell<Name>> := [Cell(33, BANG), Cell(97, A)]

  lemma FirstName()
    ensures Solo(State(With(Table(0, [])), None, [Idle, Idle]), Move(0, ValId(A)), 10) ==
            State(With(ONE), None, [IdDone(A, true), Idle])
  {
    SmallIds();
    var m := Move(0, ValId(A));
    var t0 := Table(0, []);
    var hunt := Hunt(97, 0, [], 0, 0);
    var s0 := State(With(t0), None, [Idle, Idle]);
    Begins(t0, A, Idle);
    var s3 := State(With(t0), None, [IdSearch(A, hunt), Idle]);
    var s6 := State(With(t0), Some(0), [StoreCells(A, [Cell(97, A)]), Idle]);
    assert Widened(hunt, A) == [Cell(97, A)];
    Three(s3, m, s3.(threads := [Acquire(A), Idle]), State(With(t0), Some(0), [HeldSearch(A, hunt), Idle]), s6);
    FirstStored();
    SoloThen(s0, m, 3, 7);
    SoloThen(s3, m, 3, 4);
  }

  lemma FirstStored()
    ensures Solo(State(With(Table(0, [])), Some(0), [StoreCells(A, [Cell(97, A)]), Idle]), Move(0, ValId(A)), 4) ==
            State(With(ONE), None, [IdDone(A, true), Idle])
  {
    SmallIds();
    var m := Move(0, ValId(A));
    var s6 := State(With(Table(0, [])), Some(0), [StoreCells(A, [Cell(97, A)]), Idle]);
    var s9 := State(With(ONE), None, [Compare(A, None), Idle]);
    Three(s6, m, State(With(Table(0, [Cell(97, A)])), Some(0), [StoreCount(A), Idle]),
          State(With(ONE), Some(0), [Release(A, None), Idle]), s9);
    SoloThen(s6, m, 3, 1);
    assert Solo(s9, m, 1) == Solo(Step(s9, m), m, 0);
  }

  /** The second name is published, but not yet counted, between the other thread's two loads. */
  lemma SecondName(other: Pc)
    ensures Solo(State(With(ONE), None, [Idle, other]), Move(0, ValId(BANG)), 9) ==
            State(With(Table(1, BOTH)), Some(0), [StoreCount(BANG), other])
  {
    SmallIds();
    var m := Move(0, ValId(BANG));
    var hunt := Hunt(33, 1, ONE.cells, 0, 1);
    var s0 := State(With(ONE), None, [Idle, other]);
    Begins(ONE, BANG, other);
    var s3 := s0.(threads := [IdSearch(BANG, hunt), other]);
    var s6 := State(With(ONE), Some(0), [HeldSearch(BANG, hunt), other]);
    Three(s3, m, s3.(threads := [IdSearch(BANG, hunt.(max := 0)), other]), s3.(threads := [Acquire(BANG), other]), s6);
    assert Widened(hunt.(max := 0), BANG) == BOTH;
    Three(s6, m, s6.(threads := [HeldSearch(BANG, hunt.(max := 0)), other]),
      s6.(threads := [StoreCells(BANG, BOTH), other]),
          State(With(Table(1, BOTH)), Some(0), [StoreCount(BANG), other]));
    SoloThen(s0, m, 3, 6);
    SoloThen(s3, m, 3, 3);
  }

  /** A run on which `val_field_name` answers null for an id that `val_id` had returned before it was
      asked: between its two loads another name enters the table with a smaller id. */
  lemma NameCanMiss() returns (s: State, before: seq<Move>, during: seq<Move>)
    ensures Start(s) && |s.threads| == 2
    ensures Run(s, before).threads == [IdDone(A, true), Idle]
    ensures Run(Run(s, before), during).threads[1] == NameDone(FieldId(A), None)
  {
    SmallIds();
    s := State(Empty(), None, [Idle, Idle]);
    assert With(Table(0, [])) == Empty();
    FirstName();
    SoloRuns(s, Move(0, ValId(A)), 10);
    before := seq(10, _ => Move(0, ValId(A)));
    during := AskedTooEarly();
  }

  /** What happens after the first name is in. */
  lemma AskedTooEarly() returns (during: seq<Move>)
    ensures Run(State(With(ONE), None, [IdDone(A, true), Idle]), during) ==
            State(With(Table(1, BOTH)), Some(0), [StoreCount(BANG), NameDone(97, None)])
  {
    SmallIds();
    var ask, again := Move(1, ValFieldName(97)), Move(0, ValId(BANG));
    var s1 := State(With(ONE), None, [IdDone(A, true), Idle]);
    var s2 := State(With(ONE), None, [Idle, NameCells(97, 1)]);
    var s3 := State(With(Table(1, BOTH)), Some(0), [StoreCount(BANG), NameCells(97, 1)]);
    var asks, stores, misses := [Move(0, ValId(A)), ask, ask], seq(9, _ => again), seq(3, _ => ask);
    during := asks + (stores + misses);
    Asks();
    RunConcat(s1, asks, stores + misses);
    SecondName(NameCells(97, 1));
    SoloRuns(s2, again, 9);
    RunConcat(s2, stores, misses);
    Misses();
    SoloRuns(s3, ask, 3);
  }

  lemma Asks()
    ensures Run(State(With(ONE), None, [IdDone(A, true), Idle]),
      [Move(0, ValId(A)), Move(1, ValFieldName(97)), Move(1, ValFieldName(97))]) ==
            State(With(ONE), None, [Idle, NameCells(97, 1)])
  {
    SmallIds();
    var go, ask := Move(0, ValId(A)), Move(1, ValFieldName(97));
    var s1 := State(With(ONE), None, [IdDone(A, true), Idle]);
    assert [go, ask, ask][1..] == [ask, ask] && [ask, ask][1..] == [ask];
    assert Step(s1, go) == s1.(threads := [Idle, Idle]);
    assert Step(s1.(threads := [Idle, Idle]), ask) == s1.(threads := [Idle, NameCount(97)]);
    assert Step(s1.(threads := [Idle, NameCount(97)]), ask) == s1.(threads := [Idle, NameCells(97, 1)]);
    assert Run(s1.(threads := [Idle, NameCount(97)]), [ask]) == s1.(threads := [Idle, NameCells(97, 1)]);
  }

  lemma Misses()
    ensures Solo(State(With(Table(1, BOTH)), Some(0), [StoreCount(BANG), NameCells(97, 1)]),
      Move(1, ValFieldName(97)), 3) ==
            State(With(Table(1, BOTH)), Some(0), [StoreCount(BANG), NameDone(97, None)])
  {
    SmallIds();
    var hunt := Hunt(97, 1, BOTH, 0, 1);
    var s := State(With(Table(1, BOTH)), Some(0), [StoreCount(BANG), NameCells(97, 1)]);
    Three(s, Move(1, ValFieldName(97)), s.(threads := [StoreCount(BANG), NameSearch(hunt)]),
          s.(threads := [StoreCount(BANG), NameSearch(hunt.(min := 1))]),
            s.(threads := [StoreCount(BANG), NameDone(97, None)]));
  }
}
