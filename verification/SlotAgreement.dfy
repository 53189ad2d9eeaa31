/** Functions whose compiled code is right whatever the order in which their blocks are compiled: every
    block leaves the operand stack as its function was entered, with the arguments on it. */
module SlotAgreement {
  import opened BlockSplit
  import opened SlotCode
  import opened SlotCompiler
  import opened SlotSimulation

  /** The operands that an instruction takes off. */
  function Pops(c: Instruction): nat {
    match c
    case Pop(n) => n
    case IntOp(_) => 1
    case Test(_) => 1
    case Neq => 1
    case Compare => 1
    case PhysCompare => 1
    case MakeArray(n) => n
    case Primitive(_, n) => n
    case _ => 0
  }

  /** From `i` on, with `extra` operands above the arguments, the block takes off what it has put on and
      nothing else, unless it returns. */
  predicate Balanced(code: seq<Instruction>, i: nat, end: nat, extra: nat)
    requires end <= |code|
    decreases end - i
  {
    if i >= end then extra == 0
    else if code[i].Ret? then true
    else if EndsBlock(code[i]) then extra == 0
    else Pops(code[i]) <= extra && Balanced(code, i + 1, end, extra - Pops(code[i]) + if code[i].Push? then 1 else 0)
  }

  ghost predicate AllBalanced(code: seq<Instruction>) {
    forall b <- Leaders(code) :: b < |code| ==> Balanced(code, b, BlockEnd(code, b), 0)
  }

  ghost predicate Carry(edges: seq<Edge>, args: seq<nat>) {
    forall j :: 0 <= j < |edges| ==> edges[j].vec == args
  }

  lemma OperandsAfter(c: Instruction, vec: seq<nat>, next: nat, args: seq<nat>)
    requires args <= vec && Pops(c) <= |vec| - |args|
    ensures args <= VecAfter(c, vec, next)
    ensures |VecAfter(c, vec, next)| == |vec| - Pops(c) + if c.Push? then 1 else 0
  {
  }

  /** The edges out of a balanced block carry the arguments. */
  lemma {:induction false} BalancedCarries(code: seq<Instruction>, i: nat, end: nat, vec: seq<nat>, next: nat,
                                           args: seq<nat>)
    requires i <= end <= |code| && args <= vec && Balanced(code, i, end, |vec| - |args|)
    ensures Carry(Compile(code, i, end, vec, next).edges, args)
    decreases end - i
  {
    if i < end && Translatable(code[i], vec) && !EndsBlock(code[i]) {
      OperandsAfter(code[i], vec, next, args);
      BalancedCarries(code, i + 1, end, VecAfter(code[i], vec, next), NextAfter(code[i], next), args);
    }
  }

  /** Every block so far was reached with the arguments. */
  predicate OnArguments(w: Work, args: seq<nat>) {
    w.agreed && forall b <- w.stacks :: w.stacks[b] == args
  }

  lemma {:induction false} FollowedOnArguments(w: Work, edges: seq<Edge>, args: seq<nat>)
    requires OnArguments(w, args) && Carry(edges, args)
    ensures OnArguments(FollowAll(w, edges), args)
    decreases |edges|
  {
    if edges != [] {
      var n := |edges| - 1;
      assert forall j :: 0 <= j < n ==> edges[..n][j] == edges[j];
      FollowedOnArguments(w, edges[..n], args);
    }
  }

  lemma FrontCarries(code: seq<Instruction>, w: Work, args: seq<nat>)
    requires AllBalanced(code) && Reached(code, w) && Able(code, w) && w.stacks[w.queue[0]] == args
    ensures Carry(BlockPiece(code, w.queue[0], PlaceOf(code, w)).edges, args)
  {
    var b := w.queue[0];
    assert b in Leaders(code) && Balanced(code, b, BlockEnd(code, b), 0);
    BalancedCarries(code, b, BlockEnd(code, b), args, w.next, args);
  }

  lemma RoundOnArguments(code: seq<Instruction>, w: Work, args: seq<nat>)
    requires AllBalanced(code) && Reached(code, w) && Able(code, w) && OnArguments(w, args)
    ensures OnArguments(Round(code, w), args)
  {
    FrontCarries(code, w, args);
    FollowedOnArguments(Translated(code, w), BlockPiece(code, w.queue[0], PlaceOf(code, w)).edges, args);
  }

  /** Balanced blocks always agree. */
  lemma BalancedAgrees(code: seq<Instruction>, nargs: nat, n: nat)
    requires WellFormed(code) && |code| > 0 && AllBalanced(code)
    ensures Rounds(code, First(nargs), n).agreed
  {
    var args := seq(nargs, j => j);
    var step, inv := (w: Work) => RoundIfAble(code, w), (w: Work) => Consistent(code, w) && OnArguments(w, args);
    FirstConsistent(code, nargs);
    forall w | Has(inv, w)
      ensures Has(inv, step(w))
    {
      if Able(code, w) {
        RoundConsistent(code, w);
        RoundOnArguments(code, w, args);
      }
    }
    RepeatKeeps(step, inv, First(nargs), n);
  }

  /** Whatever a function with balanced blocks is called with, the code that the compiler makes of it
      returns or throws what the interpreter does. */
  lemma BalancedCompiled(code: seq<Instruction>, world: World, args: seq<Value>, acc: Value, w: int, rounds: nat,
                         n: nat)
    returns (m: nat)
    requires WellFormed(code) && |code| > 0 && AllBalanced(code) && Rounds(code, First(|args|), rounds).queue == []
    ensures var made := Rounds(code, First(|args|), rounds);
      0 in made.blocks && Follows(code, world, made.blocks, made.places, IRun(code, world, IState(0, acc, args, w), n),
                                  Start(made.blocks, args, acc, w), m)
  {
    var made := Rounds(code, First(|args|), rounds);
    BalancedAgrees(code, |args|, rounds);
    RoundsEnd(code, |args|, rounds);
    m := CompiledFunction(code, world, made.blocks, made.places, args, acc, w, n);
  }
}
