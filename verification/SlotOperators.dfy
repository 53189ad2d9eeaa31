/** What the operators mean, on both machines: the interpreter's step at every stack that holds the operand, and
    the code that the compiler makes of a function that applies the operator to its arguments. */
module SlotOperators {
  import opened BlockSplit
  import opened SlotCode
  import opened SlotCompiler
  import opened SlotSimulation
  import opened SlotAgreement

  // ------------------------------------------------------------------- the interpreter's step

  /** The step takes `n` operands off and leaves `v`. */
  ghost predicate Leaves(code: seq<Instruction>, world: World, s: IState, n: nat, v: Value) {
    n <= |s.stack| && IStep(code, world, s) == Next(IState(s.pc + 1, v, s.stack[..|s.stack| - n], s.w))
  }

  ghost predicate Answers(code: seq<Instruction>, world: World, s: IState, n: nat, yes: bool) {
    Leaves(code, world, s, n, if yes then True else False)
  }

  /** The comparisons, of the operand on top with the accumulator; 254 is the result of an invalid one. */
  lemma Compared(code: seq<Instruction>, world: World, s: IState)
    requires s.pc < |code| && s.stack != []
    ensures var r, c := world.compare(s.stack[|s.stack| - 1], s.acc), code[s.pc];
      && (c == Test(Eq) ==> Answers(code, world, s, 1, r == 0))
      && (c == Neq ==> Answers(code, world, s, 1, r != 0))
      && (c == Test(Lt) ==> Answers(code, world, s, 1, r < 0))
      && (c == Test(Lte) ==> Answers(code, world, s, 1, r <= 0))
      && (c == Test(Gt) ==> Answers(code, world, s, 1, r > 0 && r != 254))
      && (c == Test(Gte) ==> Answers(code, world, s, 1, r >= 0 && r != 254))
      && (c == Compare ==> Leaves(code, world, s, 1, if r == 254 then Null else Int(r)))
  {
  }

  /** Addresses are compared to -1, 0 or 1. */
  lemma PhysCompared(code: seq<Instruction>, world: World, s: IState)
    requires s.pc < |code| && s.stack != [] && code[s.pc] == PhysCompare
    ensures exists r: int ::
      && Leaves(code, world, s, 1, Int(r)) && -1 <= r <= 1
      && (r == 0 <==> world.address(s.stack[|s.stack| - 1]) == world.address(s.acc))
      && (r == 1 <==> world.address(s.stack[|s.stack| - 1]) > world.address(s.acc))
  {
    var s' := IStep(code, world, s).state;
    assert Leaves(code, world, s, 1, Int(s'.acc.n));
  }

  /** Null, false and zero are false. */
  lemma Judged(code: seq<Instruction>, world: World, s: IState)
    requires s.pc < |code|
    ensures var c, falsy := code[s.pc], s.acc in {Null, False, Int(0)};
      && (c == ToBool ==> Answers(code, world, s, 0, !falsy))
      && (c == ToNot ==> Answers(code, world, s, 0, falsy))
      && (c == IsNull ==> Answers(code, world, s, 0, s.acc == Null))
      && (c == IsNotNull ==> Answers(code, world, s, 0, s.acc != Null))
  {
    assert s.stack[..|s.stack| - 0] == s.stack;
  }

  // ------------------------------------------------------------------- functions that apply them

  /** `function(x, y) { return x op y; }` */
  function Binary(op: Instruction): seq<Instruction> {
    [AccStack(1), Push, AccStack(1), op, Ret(2)]
  }

  /** `function(x) { return op x; }` */
  function Unary(op: Instruction): seq<Instruction> {
    [AccStack(0), op, Ret(1)]
  }

  predicate IsBinary(op: Instruction) {
    op.Test? || op.Neq? || op.Compare? || op.PhysCompare? || op.IntOp?
  }

  predicate IsUnary(op: Instruction) {
    op.ToBool? || op.ToNot? || op.IsNull? || op.IsNotNull?
  }

  /** What a function returns or throws, in the interpreter and as the compiler makes it. */
  ghost predicate Both(code: seq<Instruction>, world: World, args: seq<Value>, acc: Value, w: int, rounds: nat,
                       steps: nat, m: nat, v: Value)
  {
    && IRun(code, world, IState(0, acc, args, w), steps) == Done(v, w)
    && var made := Rounds(code, First(|args|), rounds);
    && 0 in made.blocks && SRun(made.blocks, world, Start(made.blocks, args, acc, w), m) == Done(v, w)
  }

  predicate JumpFree(code: seq<Instruction>) {
    forall i :: 0 <= i < |code| ==> !code[i].Jump? && !code[i].JumpIf? && !code[i].JumpIfNot? && !code[i].JumpTable?
  }

  /** Without jumps a function is one block. */
  lemma OneBlock(code: seq<Instruction>)
    requires |code| > 0 && JumpFree(code)
    ensures WellFormed(code) && Leaders(code) == {0} && BlockEnd(code, 0) == |code|
  {
  }

  lemma {:induction false} NoEdges(code: seq<Instruction>, i: nat, vec: seq<nat>, next: nat)
    requires i <= |code| && JumpFree(code)
    ensures forall e <- Compile(code, i, |code|, vec, next).edges :: e.target == ToReturn
    decreases |code| - i
  {
    if i < |code| && Translatable(code[i], vec) && !EndsBlock(code[i]) {
      NoEdges(code, i + 1, VecAfter(code[i], vec, next), NextAfter(code[i], next));
    }
  }

  lemma {:induction false} NothingFollows(w: Work, edges: seq<Edge>)
    requires forall e <- edges :: e.target == ToReturn
    ensures FollowAll(w, edges) == w
  {
    if edges != [] {
      NothingFollows(w, edges[..|edges| - 1]);
    }
  }

  /** It is compiled in one round. */
  lemma OneRound(code: seq<Instruction>, nargs: nat)
    requires |code| > 0 && JumpFree(code)
    ensures Rounds(code, First(nargs), 1).queue == []
  {
    hide Compile;
    var w := First(nargs);
    OneBlock(code);
    NoEdges(code, 0, w.stacks[0], nargs);
    NothingFollows(Translated(code, w), BlockPiece(code, 0, PlaceOf(code, w)).edges);
    RepeatOnce((x: Work) => RoundIfAble(code, x), w, 0);
  }

  lemma BinaryFine(op: Instruction)
    requires IsBinary(op)
    ensures WellFormed(Binary(op)) && AllBalanced(Binary(op))
  {
    var code := Binary(op);
    OneBlock(code);
    assert Balanced(code, 3, 5, 1);
    assert Balanced(code, 2, 5, 1);
    assert Balanced(code, 1, 5, 0);
  }

  lemma UnaryFine(op: Instruction)
    requires IsUnary(op)
    ensures WellFormed(Unary(op)) && AllBalanced(Unary(op))
  {
    var code := Unary(op);
    OneBlock(code);
    assert Balanced(code, 1, 3, 0);
  }

  lemma RunOn(code: seq<Instruction>, world: World, s: IState, s1: IState, n: nat)
    requires IStep(code, world, s) == Next(s1)
    ensures IRun(code, world, s, n + 1) == IRun(code, world, s1, n)
  {
  }

  /** The operator is applied to the arguments in their order. */
  lemma BinaryRuns(op: Instruction, world: World, x: Value, y: Value, acc: Value, w: int, v: Value)
    requires IsBinary(op) && IStep(Binary(op), world, IState(3, y, [x, y, x], w)) == Next(IState(4, v, [x, y], w))
    ensures IRun(Binary(op), world, IState(0, acc, [x, y], w), 5) == Done(v, w)
  {
    var code := Binary(op);
    assert [x, y] + [x] == [x, y, x];
    RunOn(code, world, IState(0, acc, [x, y], w), IState(1, x, [x, y], w), 4);
    RunOn(code, world, IState(1, x, [x, y], w), IState(2, x, [x, y, x], w), 3);
    RunOn(code, world, IState(2, x, [x, y, x], w), IState(3, y, [x, y, x], w), 2);
    RunOn(code, world, IState(3, y, [x, y, x], w), IState(4, v, [x, y], w), 1);
  }

  lemma UnaryRuns(op: Instruction, world: World, x: Value, acc: Value, w: int, v: Value)
    requires IsUnary(op) && IStep(Unary(op), world, IState(1, x, [x], w)) == Next(IState(2, v, [x], w))
    ensures IRun(Unary(op), world, IState(0, acc, [x], w), 3) == Done(v, w)
  {
    var code := Unary(op);
    RunOn(code, world, IState(0, acc, [x], w), IState(1, x, [x], w), 2);
    RunOn(code, world, IState(1, x, [x], w), IState(2, v, [x], w), 1);
  }

  // ------------------------------------------------------------------- what they return

  lemma BinaryReturns(op: Instruction, world: World, x: Value, y: Value, acc: Value, w: int, rounds: nat, v: Value)
    returns (m: nat)
    requires IsBinary(op) && Leaves(Binary(op), world, IState(3, y, [x, y, x], w), 1, v)
    requires Rounds(Binary(op), First(2), rounds).queue == []
    ensures Both(Binary(op), world, [x, y], acc, w, rounds, 5, m, v)
  {
    hide WellFormed, AllBalanced, IStep, Rounds;
    assert [x, y, x][..2] == [x, y];
    BinaryRuns(op, world, x, y, acc, w, v);
    BinaryFine(op);
    m := BalancedCompiled(Binary(op), world, [x, y], acc, w, rounds, 5);
  }

  lemma UnaryReturns(op: Instruction, world: World, x: Value, acc: Value, w: int, rounds: nat, v: Value)
    returns (m: nat)
    requires IsUnary(op) && Leaves(Unary(op), world, IState(1, x, [x], w), 0, v)
    requires Rounds(Unary(op), First(1), rounds).queue == []
    ensures Both(Unary(op), world, [x], acc, w, rounds, 3, m, v)
  {
    hide WellFormed, AllBalanced, IStep, Rounds;
    assert [x][..1] == [x];
    UnaryRuns(op, world, x, acc, w, v);
    UnaryFine(op);
    m := BalancedCompiled(Unary(op), world, [x], acc, w, rounds, 3);
  }

  /** A comparison returns true in exactly the case that its name says, as interpreted and as compiled. */
  lemma ComparisonReturns(op: Instruction, world: World, x: Value, y: Value, acc: Value, w: int, rounds: nat)
    returns (m: nat, yes: bool)
    requires op.Test? || op.Neq?
    requires Rounds(Binary(op), First(2), rounds).queue == []
    ensures Both(Binary(op), world, [x, y], acc, w, rounds, 5, m, if yes then True else False)
    ensures var r := world.compare(x, y);
      && (op == Test(Eq) ==> (yes <==> r == 0))
      && (op == Neq ==> (yes <==> r != 0))
      && (op == Test(Lt) ==> (yes <==> r < 0))
      && (op == Test(Lte) ==> (yes <==> r <= 0))
      && (op == Test(Gt) ==> (yes <==> r > 0 && r != 254))
      && (op == Test(Gte) ==> (yes <==> r >= 0 && r != 254))
  {
    hide IStep, Rounds;
    var s := IState(3, y, [x, y, x], w);
    Compared(Binary(op), world, s);
    assert op.Test? ==> op.rel.Eq? || op.rel.Lt? || op.rel.Lte? || op.rel.Gt? || op.rel.Gte?;
    yes := Answers(Binary(op), world, s, 1, true);
    m := BinaryReturns(op, world, x, y, acc, w, rounds, if yes then True else False);
  }

  /** `$compare` returns the comparison's result, or null where it is invalid. */
  lemma CompareReturns(world: World, x: Value, y: Value, acc: Value, w: int, rounds: nat) returns (m: nat)
    requires Rounds(Binary(Compare), First(2), rounds).queue == []
    ensures var r := world.compare(x, y);
      Both(Binary(Compare), world, [x, y], acc, w, rounds, 5, m, if r == 254 then Null else Int(r))
  {
    hide IStep, Rounds;
    Compared(Binary(Compare), world, IState(3, y, [x, y, x], w));
    var r := world.compare(x, y);
    m := BinaryReturns(Compare, world, x, y, acc, w, rounds, if r == 254 then Null else Int(r));
  }

  /** `$pcompare` returns -1, 0 or 1, as the addresses compare. */
  lemma PhysCompareReturns(world: World, x: Value, y: Value, acc: Value, w: int, rounds: nat) returns (m: nat, r: int)
    requires Rounds(Binary(PhysCompare), First(2), rounds).queue == []
    ensures Both(Binary(PhysCompare), world, [x, y], acc, w, rounds, 5, m, Int(r))
    ensures -1 <= r <= 1 && (r < 0 <==> world.address(x) < world.address(y))
    ensures r > 0 <==> world.address(x) > world.address(y)
  {
    hide IStep, Rounds;
    var s := IState(3, y, [x, y, x], w);
    PhysCompared(Binary(PhysCompare), world, s);
    r :| Leaves(Binary(PhysCompare), world, s, 1, Int(r));
    m := BinaryReturns(PhysCompare, world, x, y, acc, w, rounds, Int(r));
  }

  /** The tests of one value: null, false and zero are false. */
  lemma TestReturns(op: Instruction, world: World, x: Value, acc: Value, w: int, rounds: nat)
    returns (m: nat, yes: bool)
    requires IsUnary(op) && Rounds(Unary(op), First(1), rounds).queue == []
    ensures Both(Unary(op), world, [x], acc, w, rounds, 3, m, if yes then True else False)
    ensures op == ToBool ==> (yes <==> x != Null && x != False && x != Int(0))
    ensures op == ToNot ==> (yes <==> x == Null || x == False || x == Int(0))
    ensures op == IsNull ==> (yes <==> x == Null)
    ensures op == IsNotNull ==> (yes <==> x != Null)
  {
    hide IStep, Rounds;
    var s := IState(1, x, [x], w);
    Judged(Unary(op), world, s);
    yes := Answers(Unary(op), world, s, 0, true);
    m := UnaryReturns(op, world, x, acc, w, rounds, if yes then True else False);
  }
}
