/** Compiled code does what the interpreter does: as long as every edge into a block carries the
    symbolic stack the block was compiled with, the accumulator agrees and the slots named by the
    symbolic stack hold the interpreter's operands, at every step of every run. */
module SlotSimulation {
  import opened BlockSplit
  import opened SlotCode
  import opened SlotCompiler

  /** `n` steps of a machine. */
  function Iterate<S>(step: S -> Result<S>, s: S, n: nat): Result<S>
    decreases n
  {
    if n == 0 then Next(s) else
      match step(s)
      case Next(s') => Iterate(step, s', n - 1)
      case r => r
  }

  lemma {:induction false} IterateAdd<S>(step: S -> Result<S>, s: S, m: nat, s1: S, n: nat)
    requires Iterate(step, s, m) == Next(s1)
    ensures Iterate(step, s, m + n) == Iterate(step, s1, n)
    decreases m
  {
    if m > 0 {
      IterateAdd(step, step(s).state, m - 1, s1, n);
      assert m + n - 1 == m - 1 + n;
    }
  }

  /** The second machine comes, in `m` steps, to what the first has come to. */
  ghost predicate Tracks<S, T>(step: T -> Result<T>, sim: (S, T) -> bool, r: Result<S>, t: T, m: nat) {
    match r
    case Next(s') => Iterate(step, t, m).Next? && sim(s', Iterate(step, t, m).state)
    case Done(v, w) => Iterate(step, t, m) == Done(v, w)
    case Raised(e, w) => Iterate(step, t, m) == Raised(e, w)
    case Stuck => true
  }

  ghost predicate Paired<S, T>(sim: (S, T) -> bool, s: S, t: T) { sim(s, t) }

  /** A relation that every step preserves carries over to runs. */
  lemma {:induction false} RunTracks<S(!new), T(!new)>(istep: S -> Result<S>, step: T -> Result<T>, sim: (S, T) -> bool,
                                                       s: S, t: T, n: nat) returns (m: nat)
    requires forall s, t {:trigger Paired(sim, s, t)} :: Paired(sim, s, t) ==>
      exists m :: Tracks(step, sim, istep(s), t, m)
    requires sim(s, t)
    ensures Tracks(step, sim, Iterate(istep, s, n), t, m)
    decreases n
  {
    if n == 0 {
      m := 0;
    } else {
      assert Paired(sim, s, t);
      m :| Tracks(step, sim, istep(s), t, m);
      if istep(s).Next? {
        var t' := Iterate(step, t, m).state;
        var rest := RunTracks(istep, step, sim, istep(s).state, t', n - 1);
        IterateAdd(step, t, m, t', rest);
        m := m + rest;
      }
    }
  }

  /** `n` steps of the interpreter. */
  function IRun(code: seq<Instruction>, world: World, s: IState, n: nat): Result<IState> {
    Iterate((x: IState) => IStep(code, world, x), s, n)
  }

  /** `n` steps of compiled code. */
  function SRun(blocks: map<nat, Block>, world: World, t: SState, n: nat): Result<SState> {
    Iterate((x: SState) => SStep(blocks, world, x), t, n)
  }

  lemma SRunAdd(blocks: map<nat, Block>, world: World, t: SState, m: nat, t1: SState, n: nat)
    requires SRun(blocks, world, t, m) == Next(t1)
    ensures SRun(blocks, world, t, m + n) == SRun(blocks, world, t1, n)
  {
    IterateAdd((x: SState) => SStep(blocks, world, x), t, m, t1, n);
  }

  /** The slots hold the operands. */
  ghost predicate Stored(vec: seq<nat>, slots: map<nat, Value>, stack: seq<Value>) {
    && |vec| == |stack|
    && forall j :: 0 <= j < |vec| ==> vec[j] in slots && slots[vec[j]] == stack[j]
  }

  /** Operands popped, stored or pushed: what the slots look like afterwards. */
  lemma LoadsOperands(vec: seq<nat>, slots: map<nat, Value>, stack: seq<Value>, n: nat)
    requires Stored(vec, slots, stack) && n <= |vec|
    ensures forall k <- vec[|vec| - n..] :: k in slots
    ensures LoadAll(slots, vec[|vec| - n..]) == stack[|stack| - n..]
  {
  }

  /** Both machines stand before the straight-line instruction at `s.pc`. */
  ghost predicate Before(code: seq<Instruction>, s: IState, t: SState, vec: seq<nat>, next: nat, rest: seq<Slotted>) {
    && s.pc < |code| && !EndsBlock(code[s.pc]) && !code[s.pc].Pop? && Needs(code[s.pc]) <= |vec|
    && Unused(vec, next) && Stored(vec, t.slots, s.stack) && t.acc == s.acc && t.w == s.w
    && t.body == Emit(code[s.pc], vec, next) + rest
  }

  /** Both machines have executed it: `r` is what compiled code came to. */
  ghost predicate Executed(code: seq<Instruction>, world: World, s: IState, t: SState, vec: seq<nat>, next: nat,
                           rest: seq<Slotted>, r: Result<SState>)
    requires s.pc < |code|
  {
    match IStep(code, world, s)
    case Next(s') =>
      && s'.pc == s.pc + 1 && r.Next? && r.state == SState(rest, t.term, s'.acc, r.state.slots, s'.w)
      && Stored(VecAfter(code[s.pc], vec, next), r.state.slots, s'.stack)
    case Raised(e, w) => r == Raised(e, w)
    case _ => false
  }

  lemma OneStep(blocks: map<nat, Block>, world: World, t: SState)
    ensures SRun(blocks, world, t, 1) == SStep(blocks, world, t)
  {
    var step := (x: SState) => SStep(blocks, world, x);
    assert step(t).Next? ==> Iterate(step, step(t).state, 0) == step(t);
  }

  lemma TwoSteps(blocks: map<nat, Block>, world: World, t: SState)
    requires SStep(blocks, world, t).Next?
    ensures SRun(blocks, world, t, 2) == SStep(blocks, world, SStep(blocks, world, t).state)
  {
    var step := (x: SState) => SStep(blocks, world, x);
    OneStep(blocks, world, step(t).state);
    OneStep(blocks, world, t);
    SRunAdd(blocks, world, t, 1, step(t).state, 1);
  }

  lemma FalsyHolds(acc: Value)
    ensures Holds(FALSY, acc) <==> acc == False || acc == Null || acc == Int(0)
  {
    assert Holds(AccIs(False), acc) <==> acc == False;
    assert Holds(AccIs(Null), acc) <==> acc == Null;
    assert Holds(Either(AccIs(False), AccIs(Null)), acc) <==> acc == False || acc == Null;
  }

  lemma ValidHolds(rel: Relation, r: int)
    ensures Holds(Both(ResultIs(rel), AccIsNot(Raw(INVALID_COMPARISON))), Raw(r))
            <==> Related(rel, r) && r != INVALID_COMPARISON
  {
    assert Holds(AccIsNot(Raw(INVALID_COMPARISON)), Raw(r)) <==> r != INVALID_COMPARISON;
    assert Holds(ResultIs(rel), Raw(r)) <==> Related(rel, r);
  }

  /** Tests of the accumulator. */
  lemma TestRuns(code: seq<Instruction>, world: World, blocks: map<nat, Block>, s: IState, t: SState,
                 vec: seq<nat>, next: nat, rest: seq<Slotted>)
    requires Before(code, s, t, vec, next, rest)
    requires code[s.pc] in {ToBool, ToNot, IsNull, IsNotNull}
    ensures |Emit(code[s.pc], vec, next)| == 1
    ensures Executed(code, world, s, t, vec, next, rest, SStep(blocks, world, t))
  {
    assert t.body[1..] == rest;
    FalsyHolds(s.acc);
    assert Used(t.body[0]) == [];
  }

  /** Other instructions that become one step of compiled code. */
  lemma SingleRuns(code: seq<Instruction>, world: World, blocks: map<nat, Block>, s: IState, t: SState,
                   vec: seq<nat>, next: nat, rest: seq<Slotted>)
    requires Before(code, s, t, vec, next, rest)
    requires code[s.pc].AccConst? || code[s.pc].AccStack? || code[s.pc].SetStack? || code[s.pc].Push?
             || code[s.pc].IntOp? || code[s.pc].PhysCompare?
    ensures |Emit(code[s.pc], vec, next)| == 1
    ensures Executed(code, world, s, t, vec, next, rest, SStep(blocks, world, t))
  {
    assert t.body[1..] == rest;
    assert forall k <- Used(t.body[0]) :: k in t.slots;
  }

  /** Instructions that take several operands at once. */
  lemma GroupRuns(code: seq<Instruction>, world: World, blocks: map<nat, Block>, s: IState, t: SState,
                  vec: seq<nat>, next: nat, rest: seq<Slotted>)
    requires Before(code, s, t, vec, next, rest)
    requires code[s.pc].MakeArray? || code[s.pc].Primitive?
    ensures |Emit(code[s.pc], vec, next)| == 1
    ensures Executed(code, world, s, t, vec, next, rest, SStep(blocks, world, t))
  {
    assert t.body[1..] == rest;
    LoadsOperands(vec, t.slots, s.stack, Needs(code[s.pc]));
  }

  /** Comparisons: a call that leaves its raw result in the accumulator, and a choice on it. */
  lemma ComparisonRuns(code: seq<Instruction>, world: World, blocks: map<nat, Block>, s: IState, t: SState,
                       vec: seq<nat>, next: nat, rest: seq<Slotted>)
    requires Before(code, s, t, vec, next, rest)
    requires code[s.pc].Test? || code[s.pc].Neq? || code[s.pc].Compare?
    ensures |Emit(code[s.pc], vec, next)| == 2
    ensures SStep(blocks, world, t).Next?
    ensures Executed(code, world, s, t, vec, next, rest, SStep(blocks, world, SStep(blocks, world, t).state))
  {
    var emitted := Emit(code[s.pc], vec, next);
    assert t.body[0] == CallCompare(Slot(vec, 0)) && t.body[1] == emitted[1];
    assert t.body[1..][0] == emitted[1] && t.body[1..][1..] == rest;
    assert forall k <- Used(t.body[0]) :: k in t.slots;
    if code[s.pc].Test? {
      ValidHolds(code[s.pc].rel, world.compare(Top(s.stack, 0), s.acc));
    }
  }

  /** Every straight-line instruction, as many steps as it has emitted. */
  lemma EmitRuns(code: seq<Instruction>, world: World, blocks: map<nat, Block>, s: IState, t: SState,
                 vec: seq<nat>, next: nat, rest: seq<Slotted>)
    requires Before(code, s, t, vec, next, rest)
    ensures Executed(code, world, s, t, vec, next, rest, SRun(blocks, world, t, |Emit(code[s.pc], vec, next)|))
  {
    var c := code[s.pc];
    if c.Test? || c.Neq? || c.Compare? {
      ComparisonRuns(code, world, blocks, s, t, vec, next, rest);
      TwoSteps(blocks, world, t);
    } else {
      OneStep(blocks, world, t);
      if c.MakeArray? || c.Primitive? {
        GroupRuns(code, world, blocks, s, t, vec, next, rest);
      } else if c in {ToBool, ToNot, IsNull, IsNotNull} {
        TestRuns(code, world, blocks, s, t, vec, next, rest);
      } else {
        SingleRuns(code, world, blocks, s, t, vec, next, rest);
      }
    }
  }

  /** Inside a block, or just past its last instruction. */
  ghost predicate At(code: seq<Instruction>, blocks: map<nat, Block>, entry: map<nat, Place>, s: IState, t: SState,
                     place: Place)
  {
    && s.pc <= place.end <= |code|
    && (s.pc < place.end ==> place.end == BlockEnd(code, s.pc))
    && Unused(place.vec, place.next) && Stored(place.vec, t.slots, s.stack)
    && var p := Compile(code, s.pc, place.end, place.vec, place.next);
    && t == SState(p.body, p.term, s.acc, t.slots, s.w) && EdgesMet(blocks, entry, p.edges)
  }

  /** The interpreter stands at the entry of a jump table that compiled code selects in one step
      together with the jump. */
  ghost predicate InTable(code: seq<Instruction>, blocks: map<nat, Block>, entry: map<nat, Place>, s: IState,
                          t: SState) {
    && s.pc < |code| && code[s.pc].Jump? && t.acc == s.acc && t.w == s.w
    && t.body == [] && t.term.Switch? && s.acc.Int? && 0 <= s.acc.n < |t.term.cases|
    && t.term.cases[s.acc.n] == ToBlock(code[s.pc].target)
    && code[s.pc].target in blocks && code[s.pc].target in entry
    && Stored(entry[code[s.pc].target].vec, t.slots, s.stack)
  }

  /** The interpreter is about to return, and compiled code does so in one step. */
  ghost predicate Leaving(code: seq<Instruction>, blocks: map<nat, Block>, world: World, s: IState, t: SState) {
    s.pc == |code| && SStep(blocks, world, t) == Done(s.acc, s.w)
  }

  ghost predicate Simulates(code: seq<Instruction>, world: World, blocks: map<nat, Block>, entry: map<nat, Place>,
                            s: IState, t: SState)
  {
    || (exists place :: At(code, blocks, entry, s, t, place))
    || InTable(code, blocks, entry, s, t)
    || Leaving(code, blocks, world, s, t)
  }

  /** Compiled code comes to what the interpreter's step came to. */
  ghost predicate Follows(code: seq<Instruction>, world: World, blocks: map<nat, Block>, entry: map<nat, Place>,
                          r: Result<IState>, t: SState, m: nat)
  {
    match r
    case Next(s') => SRun(blocks, world, t, m).Next?
                     && Simulates(code, world, blocks, entry, s', SRun(blocks, world, t, m).state)
    case Done(v, w) => SRun(blocks, world, t, m) == Done(v, w)
    case Raised(e, w) => SRun(blocks, world, t, m) == Raised(e, w)
    case Stuck => true
  }

  /** Control arrives at a compiled block with its operands in the block's entry slots. */
  lemma Enters(code: seq<Instruction>, blocks: map<nat, Block>, entry: map<nat, Place>, s: IState, t: SState, b: nat)
    requires Program(code, blocks, entry) && b in blocks
    requires s.pc == b && t.acc == s.acc && t.w == s.w && Stored(entry[b].vec, t.slots, s.stack)
    ensures Goto(blocks, t, ToBlock(b)).Next?
    ensures At(code, blocks, entry, s, Goto(blocks, t, ToBlock(b)).state, entry[b])
  {
  }

  /** One step inside a block. */
  lemma StraightFollows(code: seq<Instruction>, world: World, blocks: map<nat, Block>, entry: map<nat, Place>,
                        s: IState, t: SState, place: Place) returns (m: nat)
    requires At(code, blocks, entry, s, t, place) && s.pc < place.end && !EndsBlock(code[s.pc])
    requires !IStep(code, world, s).Stuck?
    ensures Follows(code, world, blocks, entry, IStep(code, world, s), t, m)
  {
    var c := code[s.pc];
    var on := Place(place.end, VecAfter(c, place.vec, place.next), NextAfter(c, place.next));
    var p := Compile(code, s.pc + 1, on.end, on.vec, on.next);
    UnusedAfter(c, place.vec, place.next);
    if c.Pop? {
      m := 0;
      assert t.body == p.body;
      assert At(code, blocks, entry, IStep(code, world, s).state, t, on);
    } else {
      m := |Emit(c, place.vec, place.next)|;
      EmitRuns(code, world, blocks, s, t, place.vec, place.next, p.body);
      if IStep(code, world, s).Next? {
        assert At(code, blocks, entry, IStep(code, world, s).state, SRun(blocks, world, t, m).state, on);
      }
    }
  }

  /** Falling off the end of a block. */
  lemma FallsThrough(code: seq<Instruction>, world: World, blocks: map<nat, Block>, entry: map<nat, Place>,
                     s: IState, t: SState, place: Place)
    requires Program(code, blocks, entry) && At(code, blocks, entry, s, t, place) && s.pc == place.end
    ensures s.pc == |code| ==> SRun(blocks, world, t, 1) == Done(s.acc, s.w)
    ensures s.pc < |code| ==> SRun(blocks, world, t, 1).Next? && s.pc in blocks && s.pc in entry
                              && At(code, blocks, entry, s, SRun(blocks, world, t, 1).state, entry[s.pc])
  {
    OneStep(blocks, world, t);
    var p := Compile(code, s.pc, place.end, place.vec, place.next);
    assert EdgeMet(blocks, entry, p.edges[0]);
    if s.pc < |code| {
      Enters(code, blocks, entry, s, t, s.pc);
    }
  }

  /** The instruction after a conditional jump starts the next block. */
  lemma NextStartsBlock(code: seq<Instruction>, i: nat)
    requires i < |code| && (code[i].JumpIf? || code[i].JumpIfNot?)
    ensures BlockEnd(code, i) == i + 1
  {
    if i + 1 < |code| {
      assert i + 1 in LeadersOf(code, i);
    }
  }

  /** A block left along an edge that is met. */
  lemma Arrives(code: seq<Instruction>, world: World, blocks: map<nat, Block>, entry: map<nat, Place>,
                s': IState, t: SState, e: Edge)
    requires Program(code, blocks, entry) && EdgeMet(blocks, entry, e) && e.target == ToBlock(s'.pc)
    requires SStep(blocks, world, t) == Goto(blocks, t, e.target)
    requires t.acc == s'.acc && t.w == s'.w && Stored(e.vec, t.slots, s'.stack)
    ensures Follows(code, world, blocks, entry, Next(s'), t, 1)
  {
    OneStep(blocks, world, t);
    Enters(code, blocks, entry, s', t, s'.pc);
  }

  /** Both machines stand before an instruction that ends its block, whose translation is `p`. */
  ghost predicate AtEnding(blocks: map<nat, Block>, entry: map<nat, Place>, s: IState, t: SState, vec: seq<nat>,
                           p: Piece) {
    && t.body == [] && t.term == p.term && t.acc == s.acc && t.w == s.w
    && Stored(vec, t.slots, s.stack) && EdgesMet(blocks, entry, p.edges)
  }

  lemma EndingReached(code: seq<Instruction>, blocks: map<nat, Block>, entry: map<nat, Place>,
                      s: IState, t: SState, place: Place)
    requires At(code, blocks, entry, s, t, place) && s.pc < place.end && EndsBlock(code[s.pc])
    requires Needs(code[s.pc]) <= |s.stack|
    ensures place.end == BlockEnd(code, s.pc)
    ensures AtEnding(blocks, entry, s, t, place.vec, Ending(code, s.pc, place.end, place.vec, place.next))
  {
    assert Compile(code, s.pc, place.end, place.vec, place.next)
           == Ending(code, s.pc, place.end, place.vec, place.next);
  }

  lemma JumpFollows(code: seq<Instruction>, world: World, blocks: map<nat, Block>, entry: map<nat, Place>,
                    s: IState, t: SState, vec: seq<nat>, next: nat)
    requires Program(code, blocks, entry) && s.pc < |code| && code[s.pc].Jump?
    requires AtEnding(blocks, entry, s, t, vec, Ending(code, s.pc, BlockEnd(code, s.pc), vec, next))
    ensures Follows(code, world, blocks, entry, IStep(code, world, s), t, 1)
  {
    var p := Ending(code, s.pc, BlockEnd(code, s.pc), vec, next);
    assert EdgeMet(blocks, entry, p.edges[0]);
    Arrives(code, world, blocks, entry, s.(pc := code[s.pc].target), t, p.edges[0]);
  }

  /** The edge that compiled code takes, which is met. */
  lemma BranchTaken(code: seq<Instruction>, world: World, blocks: map<nat, Block>, entry: map<nat, Place>,
                    s: IState, t: SState, vec: seq<nat>, next: nat) returns (e: Edge)
    requires s.pc < |code| && (code[s.pc].JumpIf? || code[s.pc].JumpIfNot?)
    requires AtEnding(blocks, entry, s, t, vec, Ending(code, s.pc, s.pc + 1, vec, next))
    ensures e == Edge(if code[s.pc].JumpIf? == (s.acc == True) then ToBlock(code[s.pc].target)
                      else After(code, s.pc + 1), vec)
    ensures EdgeMet(blocks, entry, e) && SStep(blocks, world, t) == Goto(blocks, t, e.target)
  {
    var p := Ending(code, s.pc, s.pc + 1, vec, next);
    e := if code[s.pc].JumpIf? == (s.acc == True) then p.edges[0] else p.edges[1];
    assert EdgeMet(blocks, entry, p.edges[0]) && EdgeMet(blocks, entry, p.edges[1]);
  }

  lemma BranchFollows(code: seq<Instruction>, world: World, blocks: map<nat, Block>, entry: map<nat, Place>,
                      s: IState, t: SState, vec: seq<nat>, next: nat) returns (m: nat)
    requires Program(code, blocks, entry) && s.pc < |code| && (code[s.pc].JumpIf? || code[s.pc].JumpIfNot?)
    requires AtEnding(blocks, entry, s, t, vec, Ending(code, s.pc, BlockEnd(code, s.pc), vec, next))
    ensures Follows(code, world, blocks, entry, IStep(code, world, s), t, m)
  {
    NextStartsBlock(code, s.pc);
    var target, taken := code[s.pc].target, code[s.pc].JumpIf? == (s.acc == True);
    var e := BranchTaken(code, world, blocks, entry, s, t, vec, next);
    if taken {
      m := 1;
      Arrives(code, world, blocks, entry, s.(pc := target), t, e);
    } else if s.pc + 1 < |code| {
      m := 1;
      Arrives(code, world, blocks, entry, s.(pc := s.pc + 1), t, e);
    } else {
      m := 0;
      Leaves(code, world, blocks, entry, s.(pc := s.pc + 1), t);
    }
  }

  lemma Leaves(code: seq<Instruction>, world: World, blocks: map<nat, Block>, entry: map<nat, Place>, s': IState,
               t: SState)
    requires s'.pc == |code| && SStep(blocks, world, t) == Done(s'.acc, s'.w)
    ensures Follows(code, world, blocks, entry, Next(s'), t, 0)
  {
    assert Leaving(code, blocks, world, s', t);
  }

  /** The default branch of a jump table is the next block. */
  lemma DefaultIsNext(code: seq<Instruction>, i: nat, n: nat)
    requires WellFormed(code) && i < |code| && code[i] == JumpTable(n)
    ensures BlockEnd(code, i) == i + n + 1 < |code|
  {
    assert i + n + 1 in LeadersOf(code, i);
    assert i + n + 1 in Leaders(code);
  }

  lemma TableFollows(code: seq<Instruction>, world: World, blocks: map<nat, Block>, entry: map<nat, Place>,
                     s: IState, t: SState, vec: seq<nat>, next: nat) returns (m: nat)
    requires WellFormed(code) && Program(code, blocks, entry) && s.pc < |code| && code[s.pc].JumpTable?
    requires AtEnding(blocks, entry, s, t, vec, Ending(code, s.pc, BlockEnd(code, s.pc), vec, next))
    ensures Follows(code, world, blocks, entry, IStep(code, world, s), t, m)
  {
    var n := code[s.pc].cases;
    DefaultIsNext(code, s.pc, n);
    if s.acc.Int? && 0 <= s.acc.n < n {
      m := 0;
      CaseFollows(code, world, blocks, entry, s, t, vec, next);
    } else {
      m := 1;
      DefaultFollows(code, world, blocks, entry, s, t, vec, next);
    }
  }

  lemma CaseFollows(code: seq<Instruction>, world: World, blocks: map<nat, Block>, entry: map<nat, Place>,
                    s: IState, t: SState, vec: seq<nat>, next: nat)
    requires WellFormed(code) && Program(code, blocks, entry) && s.pc < |code| && code[s.pc].JumpTable?
    requires AtEnding(blocks, entry, s, t, vec, Ending(code, s.pc, BlockEnd(code, s.pc), vec, next))
    requires s.acc.Int? && 0 <= s.acc.n < code[s.pc].cases
    ensures Follows(code, world, blocks, entry, IStep(code, world, s), t, 0)
  {
    var s' := s.(pc := s.pc + 1 + s.acc.n);
    assert IStep(code, world, s) == Next(s');
    TableCase(code, blocks, entry, s, t, vec, next);
    Selects(code, world, blocks, entry, s', t, vec);
  }

  lemma DefaultFollows(code: seq<Instruction>, world: World, blocks: map<nat, Block>, entry: map<nat, Place>,
                       s: IState, t: SState, vec: seq<nat>, next: nat)
    requires WellFormed(code) && Program(code, blocks, entry) && s.pc < |code| && code[s.pc].JumpTable?
    requires AtEnding(blocks, entry, s, t, vec, Ending(code, s.pc, BlockEnd(code, s.pc), vec, next))
    requires !(s.acc.Int? && 0 <= s.acc.n < code[s.pc].cases)
    ensures Follows(code, world, blocks, entry, IStep(code, world, s), t, 1)
  {
    hide Program, WellFormed;
    var n := code[s.pc].cases;
    DefaultIsNext(code, s.pc, n);
    var s' := s.(pc := s.pc + n + 1);
    assert IStep(code, world, s) == Next(s');
    var e := Ending(code, s.pc, s.pc + n + 1, vec, next).edges[0];
    assert EdgeMet(blocks, entry, e);
    assert SStep(blocks, world, t) == Goto(blocks, t, e.target);
    Arrives(code, world, blocks, entry, s', t, e);
  }

  lemma TableCase(code: seq<Instruction>, blocks: map<nat, Block>, entry: map<nat, Place>,
                  s: IState, t: SState, vec: seq<nat>, next: nat)
    requires WellFormed(code) && s.pc < |code| && code[s.pc].JumpTable?
    requires AtEnding(blocks, entry, s, t, vec, Ending(code, s.pc, BlockEnd(code, s.pc), vec, next))
    requires s.acc.Int? && 0 <= s.acc.n < code[s.pc].cases
    ensures var i := s.pc + 1 + s.acc.n;
      && i < |code| && code[i].Jump? && t.body == [] && t.term.Switch? && s.acc.n < |t.term.cases|
      && t.term.cases[s.acc.n] == ToBlock(code[i].target)
      && EdgeMet(blocks, entry, Edge(ToBlock(code[i].target), vec))
  {
    var n, i := code[s.pc].cases, s.pc + 1 + s.acc.n;
    DefaultIsNext(code, s.pc, n);
    var p := Ending(code, s.pc, s.pc + n + 1, vec, next);
    assert code[i].Jump?;
    assert p.edges[1 + s.acc.n] == Edge(ToBlock(code[i].target), vec);
    assert EdgeMet(blocks, entry, p.edges[1 + s.acc.n]);
  }

  lemma Selects(code: seq<Instruction>, world: World, blocks: map<nat, Block>, entry: map<nat, Place>,
                s': IState, t: SState, vec: seq<nat>)
    requires s'.pc < |code| && code[s'.pc].Jump? && t.body == [] && t.term.Switch?
    requires s'.acc.Int? && 0 <= s'.acc.n < |t.term.cases| && t.term.cases[s'.acc.n] == ToBlock(code[s'.pc].target)
    requires EdgeMet(blocks, entry, Edge(ToBlock(code[s'.pc].target), vec)) && Stored(vec, t.slots, s'.stack)
    requires t.acc == s'.acc && t.w == s'.w
    ensures Follows(code, world, blocks, entry, Next(s'), t, 0)
  {
    assert InTable(code, blocks, entry, s', t);
  }

  lemma SelectedSteps(code: seq<Instruction>, world: World, blocks: map<nat, Block>, s: IState, t: SState)
    requires s.pc < |code| && code[s.pc].Jump? && t.acc == s.acc
    requires t.body == [] && t.term.Switch? && s.acc.Int? && 0 <= s.acc.n < |t.term.cases|
    ensures IStep(code, world, s) == Next(s.(pc := code[s.pc].target))
    ensures SStep(blocks, world, t) == Goto(blocks, t, t.term.cases[s.acc.n])
  {
  }

  lemma SelectedFollows(code: seq<Instruction>, world: World, blocks: map<nat, Block>, entry: map<nat, Place>,
                        s: IState, t: SState)
    requires Program(code, blocks, entry) && InTable(code, blocks, entry, s, t)
    ensures Follows(code, world, blocks, entry, IStep(code, world, s), t, 1)
  {
    var target := code[s.pc].target;
    var s' := s.(pc := target);
    SelectedSteps(code, world, blocks, s, t);
    Arrives(code, world, blocks, entry, s', t, Edge(ToBlock(target), entry[target].vec));
  }

  lemma FollowsThen(code: seq<Instruction>, world: World, blocks: map<nat, Block>, entry: map<nat, Place>,
                    r: Result<IState>, t: SState, m: nat, t': SState, k: nat)
    requires SRun(blocks, world, t, m) == Next(t') && Follows(code, world, blocks, entry, r, t', k)
    ensures Follows(code, world, blocks, entry, r, t, m + k)
  {
    SRunAdd(blocks, world, t, m, t', k);
  }

  /** At the end of a block: first fall through, then step. */
  lemma EndFollows(code: seq<Instruction>, world: World, blocks: map<nat, Block>, entry: map<nat, Place>,
                   s: IState, t: SState, place: Place) returns (m: nat)
    requires WellFormed(code) && Program(code, blocks, entry)
    requires At(code, blocks, entry, s, t, place) && s.pc == place.end && !IStep(code, world, s).Stuck?
    ensures Follows(code, world, blocks, entry, IStep(code, world, s), t, m)
  {
    FallsThrough(code, world, blocks, entry, s, t, place);
    if s.pc == |code| {
      m := 1;
    } else {
      var t' := SRun(blocks, world, t, 1).state;
      m := InsideFollows(code, world, blocks, entry, s, t', entry[s.pc]);
      FollowsThen(code, world, blocks, entry, IStep(code, world, s), t, 1, t', m);
      m := 1 + m;
    }
  }

  lemma InsideFollows(code: seq<Instruction>, world: World, blocks: map<nat, Block>, entry: map<nat, Place>,
                      s: IState, t: SState, place: Place) returns (m: nat)
    requires WellFormed(code) && Program(code, blocks, entry)
    requires At(code, blocks, entry, s, t, place) && s.pc < place.end && !IStep(code, world, s).Stuck?
    ensures Follows(code, world, blocks, entry, IStep(code, world, s), t, m)
  {
    var c := code[s.pc];
    if !EndsBlock(c) {
      m := StraightFollows(code, world, blocks, entry, s, t, place);
    } else {
      EndingReached(code, blocks, entry, s, t, place);
      if c.JumpTable? {
        m := TableFollows(code, world, blocks, entry, s, t, place.vec, place.next);
      } else if c.Ret? {
        m := 1;
        OneStep(blocks, world, t);
      } else if c.Jump? {
        m := 1;
        JumpFollows(code, world, blocks, entry, s, t, place.vec, place.next);
      } else {
        m := BranchFollows(code, world, blocks, entry, s, t, place.vec, place.next);
      }
    }
  }

  /** Every step the interpreter can take is followed by compiled code. */
  lemma StepFollows(code: seq<Instruction>, world: World, blocks: map<nat, Block>, entry: map<nat, Place>,
                    s: IState, t: SState) returns (m: nat)
    requires WellFormed(code) && Program(code, blocks, entry) && Simulates(code, world, blocks, entry, s, t)
    ensures Follows(code, world, blocks, entry, IStep(code, world, s), t, m)
  {
    if IStep(code, world, s).Stuck? {
      m := 0;
    } else if place :| At(code, blocks, entry, s, t, place) {
      if s.pc == place.end {
        m := EndFollows(code, world, blocks, entry, s, t, place);
      } else {
        m := InsideFollows(code, world, blocks, entry, s, t, place);
      }
    } else if InTable(code, blocks, entry, s, t) {
      m := 1;
      SelectedFollows(code, world, blocks, entry, s, t);
    } else {
      m := 1;
      OneStep(blocks, world, t);
    }
  }

  /** Compiled code follows the interpreter through any number of steps: after each it can reach a
      state that simulates the interpreter's, and it returns or throws what the interpreter does. */
  lemma RunFollows(code: seq<Instruction>, world: World, blocks: map<nat, Block>, entry: map<nat, Place>,
                   s: IState, t: SState, n: nat) returns (m: nat)
    requires WellFormed(code) && Program(code, blocks, entry) && Simulates(code, world, blocks, entry, s, t)
    ensures Follows(code, world, blocks, entry, IRun(code, world, s, n), t, m)
  {
    var istep := (x: IState) => IStep(code, world, x);
    var step := (x: SState) => SStep(blocks, world, x);
    var sim := (s, t) => Simulates(code, world, blocks, entry, s, t);
    forall s, t | Paired(sim, s, t)
      ensures exists m :: Tracks(step, sim, istep(s), t, m)
    {
      var m := StepFollows(code, world, blocks, entry, s, t);
      TracksFollows(code, world, blocks, entry, istep(s), t, m);
    }
    m := RunTracks(istep, step, sim, s, t, n);
    TracksFollows(code, world, blocks, entry, IRun(code, world, s, n), t, m);
  }

  lemma TracksFollows(code: seq<Instruction>, world: World, blocks: map<nat, Block>, entry: map<nat, Place>,
                      r: Result<IState>, t: SState, m: nat)
    ensures Follows(code, world, blocks, entry, r, t, m) <==>
            Tracks((x: SState) => SStep(blocks, world, x), (s, t) => Simulates(code, world, blocks, entry, s, t), r,
              t, m)
  {
  }

  /** Compiled code at the start of the function, with the arguments in its first slots. */
  function Start(blocks: map<nat, Block>, args: seq<Value>, acc: Value, w: int): SState
    requires 0 in blocks
  {
    SState(blocks[0].body, blocks[0].term, acc, map j: nat | j < |args| :: args[j], w)
  }

  /** The whole function: what the interpreter returns or throws, compiled code returns or throws,
      with the same effect on the world. Both start with the same accumulator. */
  lemma CompiledFunction(code: seq<Instruction>, world: World, blocks: map<nat, Block>, entry: map<nat, Place>,
                         args: seq<Value>, acc: Value, w: int, n: nat) returns (m: nat)
    requires WellFormed(code) && Program(code, blocks, entry) && 0 in blocks
    requires entry[0].vec == seq(|args|, j => j)
    ensures Follows(code, world, blocks, entry, IRun(code, world, IState(0, acc, args, w), n),
      Start(blocks, args, acc, w), m)
  {
    var s, t := IState(0, acc, args, w), Start(blocks, args, acc, w);
    assert At(code, blocks, entry, s, t, entry[0]);
    m := RunFollows(code, world, blocks, entry, s, t, n);
  }

  // Both branches push a value and meet at 6. The block at 4 is compiled first and stores into
  // slot 0; the block at 1 stores into slot 1; the block at 6 keeps the stack of the first.
  const MEETING: seq<Instruction> :=
    [JumpIf(4), AccConst(Int(1)), Push, Jump(6), AccConst(Int(2)), Push, AccStack(0), Ret(1)]
  const MEETING_BLOCKS: map<nat, Block> := map[
    0 := Block([], BranchIf(ToBlock(4), ToBlock(1))),
    4 := Block([SetAcc(Int(2)), Store(0)], Br(ToBlock(6))),
    1 := Block([SetAcc(Int(1)), Store(1)], Br(ToBlock(6))),
    6 := Block([Load(0)], Return)]

  // The pieces, with the slots that are unused when the queue brings each block up.
  lemma MeetingPiece0()
    ensures Compile(MEETING, 0, 1, [], 0) ==
            Piece([], BranchIf(ToBlock(4), ToBlock(1)), [Edge(ToBlock(4), []), Edge(ToBlock(1), [])], 0)
  {
  }

  lemma MeetingPiece4()
    ensures Compile(MEETING, 4, 6, [], 0)
         == Piece([SetAcc(Int(2)), Store(0)], Br(ToBlock(6)), [Edge(ToBlock(6), [0])], 1)
  {
    var none: seq<nat> := [];
    assert none + [0] == [0];
    assert Compile(MEETING, 6, 6, [0], 1) == Piece([], Br(ToBlock(6)), [Edge(ToBlock(6), [0])], 1);
    assert Compile(MEETING, 5, 6, [], 0) == Piece([Store(0)], Br(ToBlock(6)), [Edge(ToBlock(6), [0])], 1);
  }

  lemma MeetingPiece1()
    ensures Compile(MEETING, 1, 4, [], 1)
         == Piece([SetAcc(Int(1)), Store(1)], Br(ToBlock(6)), [Edge(ToBlock(6), [1])], 2)
  {
    var none: seq<nat> := [];
    assert none + [1] == [1];
    assert Compile(MEETING, 3, 4, [1], 2) == Piece([], Br(ToBlock(6)), [Edge(ToBlock(6), [1])], 2);
    assert Compile(MEETING, 2, 4, [], 1) == Piece([Store(1)], Br(ToBlock(6)), [Edge(ToBlock(6), [1])], 2);
  }

  lemma MeetingPiece6()
    ensures Compile(MEETING, 6, 8, [0], 2) == Piece([Load(0)], Return, [], 2)
  {
    assert Compile(MEETING, 7, 8, [0], 2) == Piece([], Return, [], 2);
  }

  lemma MeetingWellFormed()
    ensures WellFormed(MEETING)
  {
  }

  lemma MeetingLeaders(b: nat)
    ensures b in Leaders(MEETING) <==> b in {0, 1, 4, 6}
  {
    assert LeadersOf(MEETING, 0) == [4, 1] && LeadersOf(MEETING, 3) == [6];
    assert forall i :: 0 <= i < 8 && i != 0 && i != 3 ==> LeadersOf(MEETING, i) == [];
    assert 4 in LeadersOf(MEETING, 0) && 1 in LeadersOf(MEETING, 0) && 6 in LeadersOf(MEETING, 3);
  }

  lemma MeetingEnds()
    ensures BlockEnd(MEETING, 0) == 1 && BlockEnd(MEETING, 4) == 6 && BlockEnd(MEETING, 1) == 4
      && BlockEnd(MEETING, 6) == 8
  {
    forall b: nat
      ensures b in Leaders(MEETING) <==> b in {0, 1, 4, 6}
    {
      MeetingLeaders(b);
    }
    assert NextLeader(MEETING, 3) == 4 && NextLeader(MEETING, 7) == 8;
  }

  // The compiler's state before each round, and at the end.
  const MEETING_1 := Work(map[0 := [], 4 := [], 1 := []], [4, 1], map[0 := MEETING_BLOCKS[0]],
    map[0 := Place(1, [], 0)], 0, true)
  const MEETING_2 :=
    Work(MEETING_1.stacks[6 := [0]], [1, 6], MEETING_1.blocks[4 := MEETING_BLOCKS[4]],
         MEETING_1.places[4 := Place(6, [], 0)], 1, true)
  const MEETING_3 :=
    Work(MEETING_2.stacks, [6], MEETING_2.blocks[1 := MEETING_BLOCKS[1]],
         MEETING_2.places[1 := Place(4, [], 1)], 2, false)
  const MEETING_4 :=
    Work(MEETING_2.stacks, [], MEETING_3.blocks[6 := MEETING_BLOCKS[6]],
         MEETING_3.places[6 := Place(8, [0], 2)], 2, false)

  lemma OneEdge(w: Work, e: Edge)
    ensures FollowAll(w, [e]) == Follow(w, e)
  {
    assert [e][..0] == [];
  }

  lemma MeetingRound1()
    ensures RoundIfAble(MEETING, First(0)) == MEETING_1
  {
    MeetingPiece0();
    MeetingEnds();
    var w := Translated(MEETING, First(0));
    var edges := [Edge(ToBlock(4), []), Edge(ToBlock(1), [])];
    assert First(0).stacks == map[0 := []] && PlaceOf(MEETING, First(0)) == Place(1, [], 0);
    assert edges[..1] == [edges[0]];
    OneEdge(w, edges[0]);
    assert Follow(Follow(w, edges[0]), edges[1]) == MEETING_1;
  }

  lemma MeetingRound2()
    ensures RoundIfAble(MEETING, MEETING_1) == MEETING_2
  {
    MeetingPiece4();
    MeetingEnds();
    OneEdge(Translated(MEETING, MEETING_1), Edge(ToBlock(6), [0]));
  }

  lemma MeetingRound3()
    ensures RoundIfAble(MEETING, MEETING_2) == MEETING_3
  {
    MeetingPiece1();
    MeetingEnds();
    OneEdge(Translated(MEETING, MEETING_2), Edge(ToBlock(6), [1]));
  }

  lemma MeetingRound4()
    ensures RoundIfAble(MEETING, MEETING_3) == MEETING_4
  {
    MeetingPiece6();
    MeetingEnds();
  }

  /** What the compiler makes of it. */
  lemma MeetingCompiled(n: nat)
    requires Rounds(MEETING, First(0), n).queue == []
    ensures Rounds(MEETING, First(0), n) == MEETING_4 && MEETING_4.blocks == MEETING_BLOCKS
  {
    MeetingRound1();
    MeetingRound2();
    MeetingRound3();
    MeetingRound4();
    var step := (w: Work) => RoundIfAble(MEETING, w);
    assert Repeat(step, MEETING_4, 0) == MEETING_4;
    assert Repeat(step, MEETING_3, 1) == MEETING_4;
    assert Repeat(step, MEETING_2, 2) == MEETING_4;
    assert Repeat(step, MEETING_1, 3) == MEETING_4;
    assert Rounds(MEETING, First(0), 4) == MEETING_4;
    RoundsStop(MEETING, First(0), n, 4);
  }

  /** Where two edges carry different stacks, compiled code is wrong: the interpreter returns the
      value pushed on the path it took, compiled code reads a slot that was never written. */
  lemma UnequalStacksMiscompile(world: World, w: int, n: nat)
    requires Rounds(MEETING, First(0), n).queue == []
    ensures WellFormed(MEETING) && !Rounds(MEETING, First(0), n).agreed
    ensures IRun(MEETING, world, IState(0, False, [], w), 6) == Done(Int(1), w)
    ensures var blocks := Rounds(MEETING, First(0), n).blocks;
      0 in blocks && SRun(blocks, world, Start(blocks, [], False, w), 5).Stuck?
  {
    MeetingWellFormed();
    MeetingCompiled(n);
    MeetingReturns(world, w);
    MeetingReadsUnwritten(world, w);
  }

  lemma MeetingReturns(world: World, w: int)
    ensures IRun(MEETING, world, IState(0, False, [], w), 6) == Done(Int(1), w)
  {
    var istep := (x: IState) => IStep(MEETING, world, x);
    var s := IState(0, False, [], w);
    assert istep(s) == Next(s.(pc := 1));
    var s3 := IState(3, Int(1), [Int(1)], w);
    assert s.stack + [Int(1)] == [Int(1)];
    assert istep(IState(2, Int(1), [], w)) == Next(s3);
    assert istep(IState(6, Int(1), [Int(1)], w)) == Next(IState(7, Int(1), [Int(1)], w));
    assert Iterate(istep, IState(6, Int(1), [Int(1)], w), 2) == Done(Int(1), w);
    assert Iterate(istep, s3, 3) == Done(Int(1), w);
    assert Iterate(istep, IState(1, False, [], w), 5) == Done(Int(1), w);
  }

  lemma MeetingReadsUnwritten(world: World, w: int)
    ensures SRun(MEETING_BLOCKS, world, Start(MEETING_BLOCKS, [], False, w), 5).Stuck?
  {
    var step := (x: SState) => SStep(MEETING_BLOCKS, world, x);
    var t := Start(MEETING_BLOCKS, [], False, w);
    var t1 := t.(body := [SetAcc(Int(1)), Store(1)], term := Br(ToBlock(6)));
    assert step(t) == Next(t1);
    var t2 := t1.(body := [Store(1)], acc := Int(1));
    assert t1.body[1..] == [Store(1)] && step(t1) == Next(t2);
    var t3 := t2.(body := [], slots := t.slots[1 := Int(1)]);
    assert t2.body[1..] == [] && step(t2) == Next(t3);
    var t4 := t3.(body := [Load(0)], term := Return);
    assert step(t3) == Next(t4);
    assert 0 in Used(t4.body[0]) && 0 !in t4.slots;
    assert step(t4).Stuck?;
    assert Iterate(step, t3, 2).Stuck?;
    assert Iterate(step, t1, 4).Stuck?;
  }
}
