/** The interpreter that the slot compiler is compared with is the one that the stack check is about: on a function
    written out as cells, both take the same steps. */
module MachineAgreement {
  import opened Opcodes
  import B = BlockSplit
  import S = SlotCode
  import SlotSimulation
  import FrameSafety
  import opened FrameMachine

  /** Where each instruction stands, and what follows the last one. */
  type Places = seq<nat>

  /** The opcodes and parameters that stand for an instruction. */
  predicate Written(c: B.Instruction, op: int, p: int, at: Places) {
    match c
    case AccConst(_) => op in {ACC_NULL, ACC_TRUE, ACC_FALSE, ACC_INT, ACC_BUILTIN}
    case AccStack(k) => (op == ACC_STACK && p == k) || (op == ACC_STACK_0 && k == 0) || (op == ACC_STACK_1 && k == 1)
    case SetStack(k) => op == SET_STACK && p == k
    case Push => op == PUSH
    case Pop(n) => op == POP && p == n
    case Jump(t) => op == JUMP && t < |at| && p == at[t]
    case JumpIf(t) => op == JUMP_IF && t < |at| && p == at[t]
    case JumpIfNot(t) => op == JUMP_IF_NOT && t < |at| && p == at[t]
    case JumpTable(n) => op == JUMP_TABLE && p == 2 * n
    case Ret(n) => op == RET && p == n
    case ToBool => op == BOOL
    case ToNot => op == NOT
    case IsNull => op == IS_NULL
    case IsNotNull => op == IS_NOT_NULL
    case IntOp(o) => op == IntOpcode(o)
    case Test(rel) => op == TestOpcode(rel)
    case Neq => op == NEQ
    case Compare => op == COMPARE
    case PhysCompare => op == PHYS_COMPARE
    case MakeArray(n) => op == MAKE_ARRAY && p == n
    case Primitive(kind, n) => op == kind && IsData(op) && Popped(op, p) == n && (op == OBJ_CALL ==> n > 0)
  }

  function IntOpcode(o: B.IntOperator): int {
    match o
    case Shl => SHL
    case Shr => SHR
    case UShr => USHR
    case Or => OR
    case And => AND
    case Xor => XOR
  }

  function TestOpcode(rel: B.Relation): int {
    match rel
    case Eq => EQ
    case Lt => LT
    case Lte => LTE
    case Gt => GT
    case Gte => GTE
  }

  /** Arithmetic, fields, arrays, calls and the rest that takes its operands off and leaves a result. */
  predicate IsData(op: int) {
    || op in {ACC_THIS, ACC_GLOBAL, ACC_ENV, ACC_FIELD, ACC_ARRAY, ACC_INDEX, ACC_INDEX_0, ACC_INDEX_1, SET_ENV}
    || op in {SET_FIELD, SET_ARRAY, SET_INDEX, CALL, OBJ_CALL, TYPE_OF, HASH, NEW} || ADD <= op <= MOD
  }

  /** The function `code` stands in `cells`, each instruction where `at` says. */
  ghost predicate Laid(code: seq<B.Instruction>, cells: seq<int>, at: Places) {
    && |at| == |code| + 1 && at[|code|] < |cells|
    && forall i :: 0 <= i < |code| ==> LaidAt(code, cells, at, i)
  }

  ghost predicate LaidAt(code: seq<B.Instruction>, cells: seq<int>, at: Places, i: nat)
    requires i < |code| && |at| == |code| + 1
  {
    && at[i] + 1 < |cells| && at[i + 1] == at[i] + 1 + ParameterCount(cells[at[i]])
    && Written(code[i], cells[at[i]], cells[at[i] + 1], at)
    && (code[i].JumpTable? ==>
          i + code[i].cases < |code| && forall j :: i < j <= i + code[i].cases ==> code[j].Jump?)
  }

  /** How values are represented: true and integers as they are, everything else as something else. */
  ghost predicate Represents(word: B.Value -> Word) {
    forall v: B.Value ::
      && (word(v) == Plain(True) <==> v == B.True)
      && (forall n :: word(v) == Plain(Int(n)) <==> v == B.Int(n))
  }

  function Words(word: B.Value -> Word, stack: seq<B.Value>): seq<Word> {
    seq(|stack|, i requires 0 <= i < |stack| => word(stack[i]))
  }

  /** The frame's state stands for the interpreter's, above the callers' words. */
  ghost predicate Stands(word: B.Value -> Word, at: Places, base: nat, s: S.IState, t: State) {
    && s.pc < |at| && t.pc == at[s.pc] && t.acc == word(s.acc)
    && base <= |t.stack| && t.stack[base..] == Words(word, s.stack)
  }

  /** The entries of a jump table are two cells apart. */
  lemma {:induction false} EntriesApart(code: seq<B.Instruction>, cells: seq<int>, at: Places, i: nat, j: nat)
    requires Laid(code, cells, at) && i < |code| && code[i].JumpTable? && j <= code[i].cases
    ensures i + 1 + j < |at| && at[i + 1 + j] == at[i] + 2 + 2 * j
  {
    assert LaidAt(code, cells, at, i);
    if j > 0 {
      EntriesApart(code, cells, at, i, j - 1);
      assert LaidAt(code, cells, at, i + j) && code[i + j].Jump?;
    }
  }

  // ------------------------------------------------------------------- stacks

  /** Operands counted from the top. */
  lemma OperandAt(word: B.Value -> Word, base: nat, stack: seq<B.Value>, words: seq<Word>, k: nat)
    requires base <= |words| && words[base..] == Words(word, stack) && k < |stack|
    ensures |words| == base + |stack| && words[|words| - 1 - k] == word(S.Top(stack, k))
  {
    assert words[base..][|stack| - 1 - k] == words[|words| - 1 - k];
  }

  lemma OperandsOff(word: B.Value -> Word, base: nat, stack: seq<B.Value>, words: seq<Word>, n: nat)
    requires base <= |words| && words[base..] == Words(word, stack) && n <= |stack|
    ensures |words| == base + |stack|
    ensures words[..|words| - n][base..] == Words(word, S.Dropped(stack, n))
    ensures words[..|words| - n][..base] == words[..base]
  {
    assert words[..|words| - n][base..] == words[base..][..|stack| - n];
  }

  lemma OperandOn(word: B.Value -> Word, base: nat, stack: seq<B.Value>, words: seq<Word>, v: B.Value)
    requires base <= |words| && words[base..] == Words(word, stack)
    ensures (words + [word(v)])[base..] == Words(word, stack + [v]) && (words + [word(v)])[..base] == words[..base]
  {
    assert (words + [word(v)])[base..] == words[base..] + [word(v)];
  }

  lemma OperandSet(word: B.Value -> Word, base: nat, stack: seq<B.Value>, words: seq<Word>, k: nat, v: B.Value)
    requires base <= |words| && words[base..] == Words(word, stack) && k < |stack|
    ensures |words| == base + |stack|
    ensures words[|words| - 1 - k := word(v)][base..] == Words(word, stack[|stack| - 1 - k := v])
    ensures words[|words| - 1 - k := word(v)][..base] == words[..base]
  {
    var i := |stack| - 1 - k;
    assert words[|words| - 1 - k := word(v)][base..] == words[base..][i := word(v)];
  }

  // ------------------------------------------------------------------- one step

  /** Both machines look at the same operands. */
  lemma NeedsAreTouched(c: B.Instruction, op: int, p: int, at: Places)
    requires Written(c, op, p, at)
    ensures IsOpcode(op) && S.Needs(c) == Touched(op, p) && 0 <= PoppedFirst(op, p) <= Popped(op, p)
  {
  }

  /** Where an operand is missing, both machines stop. */
  lemma StopsAlike(code: seq<B.Instruction>, cells: seq<int>, at: Places, word: B.Value -> Word, world: S.World,
                   base: nat, s: S.IState, t: State, e: Event)
    requires Laid(code, cells, at) && Stands(word, at, base, s, t) && s.pc < |code|
    ensures S.IStep(code, world, s).Stuck? <==> |s.stack| < S.Needs(code[s.pc])
    ensures S.IStep(code, world, s).Stuck? ==> Step(cells, base, t, e) == Fault
  {
    assert LaidAt(code, cells, at, s.pc);
    NeedsAreTouched(code[s.pc], cells[t.pc], cells[t.pc + 1], at);
  }

  /** What the frame does when it goes on. */
  ghost predicate GoesOn(word: B.Value -> Word, at: Places, base: nat, s': S.IState, t: State, o: Outcome)
    requires base <= |t.stack|
  {
    && o.Running? && Stands(word, at, base, s', o.state)
    && o.state.trap == t.trap && o.state.stack[..base] == t.stack[..base]
  }

  /** Instructions that take operands off and leave a result. */
  predicate LeavesResult(c: B.Instruction) {
    || c.AccConst? || c.ToBool? || c.ToNot? || c.IsNull? || c.IsNotNull? || c.IntOp? || c.Test?
    || c.Neq? || c.Compare? || c.PhysCompare? || c.MakeArray? || c.Primitive?
  }

  lemma ResultOpcode(c: B.Instruction, op: int, p: int, at: Places)
    requires LeavesResult(c) && Written(c, op, p, at)
    ensures op !in {ACC_STACK, ACC_STACK_0, ACC_STACK_1, SET_STACK, PUSH, JUMP, JUMP_IF, JUMP_IF_NOT, JUMP_TABLE, TRAP,
                    END_TRAP, RET, TAIL_CALL, POP, SET_GLOBAL, SET_THIS}
    ensures Touched(op, p) == Popped(op, p)
  {
  }

  lemma PlainStep(cells: seq<int>, base: nat, t: State, result: Word)
    requires 0 <= t.pc && t.pc + 1 < |cells| && IsOpcode(cells[t.pc])
    requires cells[t.pc] !in {ACC_STACK, ACC_STACK_0, ACC_STACK_1, SET_STACK, PUSH, JUMP, JUMP_IF, JUMP_IF_NOT,
                              JUMP_TABLE, TRAP, END_TRAP, RET, TAIL_CALL, POP, SET_GLOBAL, SET_THIS}
    requires var c, p := cells[t.pc], cells[t.pc + 1]; 0 <= PoppedFirst(c, p) <= Popped(c, p) == Touched(c, p)
    requires base + Popped(cells[t.pc], cells[t.pc + 1]) <= |t.stack|
    ensures Step(cells, base, t, Yields(result, t.trap))
            == Running(State(t.pc + 1 + ParameterCount(cells[t.pc]), result,
                             t.stack[..|t.stack| - Popped(cells[t.pc], cells[t.pc + 1])], t.trap))
  {
    hide Popped, Touched, PoppedFirst, ParameterCount, MayCall, MayThrow;
  }

  lemma FrameLeavesResult(c: B.Instruction, cells: seq<int>, at: Places, base: nat, t: State, result: Word)
    requires LeavesResult(c) && 0 <= t.pc && t.pc + 1 < |cells| && Written(c, cells[t.pc], cells[t.pc + 1], at)
    requires base + S.Needs(c) <= |t.stack|
    ensures Step(cells, base, t, Yields(result, t.trap))
            == Running(State(t.pc + 1 + ParameterCount(cells[t.pc]), result, t.stack[..|t.stack| - S.Needs(c)], t.trap))
  {
    hide Step, Popped, Touched, ParameterCount, Written, LeavesResult;
    NeedsAreTouched(c, cells[t.pc], cells[t.pc + 1], at);
    ResultOpcode(c, cells[t.pc], cells[t.pc + 1], at);
    PlainStep(cells, base, t, result);
  }

  lemma StepLeavesResult(code: seq<B.Instruction>, world: S.World, s: S.IState)
    requires s.pc < |code| && LeavesResult(code[s.pc]) && S.IStep(code, world, s).Next?
    ensures var s', n := S.IStep(code, world, s).state, S.Needs(code[s.pc]);
      n <= |s.stack| && s'.pc == s.pc + 1 && s'.stack == S.Dropped(s.stack, n)
  {
    assert s.stack[..|s.stack| - 0] == s.stack;
  }

  lemma DataAgrees(code: seq<B.Instruction>, cells: seq<int>, at: Places, word: B.Value -> Word, world: S.World,
                   base: nat, s: S.IState, t: State)
    requires Laid(code, cells, at) && Stands(word, at, base, s, t) && s.pc < |code| && LeavesResult(code[s.pc])
    requires S.IStep(code, world, s).Next?
    ensures var s' := S.IStep(code, world, s).state;
      GoesOn(word, at, base, s', t, Step(cells, base, t, Yields(word(s'.acc), t.trap)))
  {
    hide Step, S.IStep, Written;
    var s', n := S.IStep(code, world, s).state, S.Needs(code[s.pc]);
    assert LaidAt(code, cells, at, s.pc);
    StepLeavesResult(code, world, s);
    OperandsOff(word, base, s.stack, t.stack, n);
    FrameLeavesResult(code[s.pc], cells, at, base, t, word(s'.acc));
  }

  /** Instructions that move words. */
  predicate MovesWords(c: B.Instruction) {
    c.AccStack? || c.SetStack? || c.Push? || c.Pop?
  }

  lemma FrameMoves(c: B.Instruction, cells: seq<int>, at: Places, base: nat, t: State, result: Word)
    requires MovesWords(c) && 0 <= t.pc && t.pc + 1 < |cells| && Written(c, cells[t.pc], cells[t.pc + 1], at)
    requires base + S.Needs(c) <= |t.stack|
    ensures var next, top := t.pc + 1 + ParameterCount(cells[t.pc]), |t.stack|;
      Step(cells, base, t, Yields(result, t.trap))
      == Running(
        match c
        case AccStack(k) => t.(pc := next, acc := t.stack[top - 1 - k])
        case SetStack(k) => t.(pc := next, stack := t.stack[top - 1 - k := t.acc])
        case Push => t.(pc := next, stack := t.stack + [t.acc])
        case Pop(n) => t.(pc := next, stack := t.stack[..top - n]))
  {
  }

  lemma MovesAgree(code: seq<B.Instruction>, cells: seq<int>, at: Places, word: B.Value -> Word, world: S.World,
                   base: nat, s: S.IState, t: State, result: Word)
    requires Laid(code, cells, at) && Stands(word, at, base, s, t) && s.pc < |code| && MovesWords(code[s.pc])
    requires S.IStep(code, world, s).Next?
    ensures GoesOn(word, at, base, S.IStep(code, world, s).state, t, Step(cells, base, t, Yields(result, t.trap)))
  {
    hide Step, Written;
    assert LaidAt(code, cells, at, s.pc);
    assert S.Needs(code[s.pc]) <= |s.stack|;
    StackHeights(word, base, s.stack, t.stack);
    FrameMoves(code[s.pc], cells, at, base, t, result);
    match code[s.pc]
    case AccStack(k) => OperandAt(word, base, s.stack, t.stack, k);
    case SetStack(k) => OperandSet(word, base, s.stack, t.stack, k, s.acc);
    case Push => OperandOn(word, base, s.stack, t.stack, s.acc);
    case Pop(n) => OperandsOff(word, base, s.stack, t.stack, n);
  }

  lemma StackHeights(word: B.Value -> Word, base: nat, stack: seq<B.Value>, words: seq<Word>)
    requires base <= |words| && words[base..] == Words(word, stack)
    ensures |words| == base + |stack|
  {
  }

  predicate Jumps(c: B.Instruction) {
    c.Jump? || c.JumpIf? || c.JumpIfNot? || c.JumpTable?
  }

  lemma JumpsAgree(code: seq<B.Instruction>, cells: seq<int>, at: Places, word: B.Value -> Word, world: S.World,
                   base: nat, s: S.IState, t: State, result: Word)
    requires Laid(code, cells, at) && Represents(word) && Stands(word, at, base, s, t)
    requires s.pc < |code| && Jumps(code[s.pc])
    ensures S.IStep(code, world, s).Next?
    ensures GoesOn(word, at, base, S.IStep(code, world, s).state, t, Step(cells, base, t, Yields(result, t.trap)))
  {
    assert LaidAt(code, cells, at, s.pc);
    assert (word(s.acc) == Plain(True) <==> s.acc == B.True)
           && forall n :: word(s.acc) == Plain(Int(n)) <==> s.acc == B.Int(n);
    if code[s.pc].JumpTable? {
      var n := code[s.pc].cases;
      var j := if s.acc.Int? && 0 <= s.acc.n < n then s.acc.n else n;
      EntriesApart(code, cells, at, s.pc, j);
      TableAgrees(cells, base, t, n, result);
    }
  }

  /** A jump table of `n` entries. */
  lemma TableAgrees(cells: seq<int>, base: nat, t: State, n: nat, result: Word)
    requires 0 <= t.pc && t.pc + 1 < |cells| && base <= |t.stack|
    requires cells[t.pc] == JUMP_TABLE && cells[t.pc + 1] == 2 * n
    ensures var j := if t.acc.Plain? && t.acc.v.Int? && 0 <= t.acc.v.n < n then t.acc.v.n else n;
      Step(cells, base, t, Yields(result, t.trap)) == Running(t.(pc := t.pc + 2 + 2 * j))
  {
  }

  /** On code that is laid out as cells, the interpreter that the slot compiler is compared with and the frame of the
      stack check go on alike, stop alike where an operand is missing, return alike and throw alike. */
  lemma StepAgrees(code: seq<B.Instruction>, cells: seq<int>, at: Places, word: B.Value -> Word, world: S.World,
                   base: nat, s: S.IState, t: State, exception: Word)
    requires Laid(code, cells, at) && Represents(word) && Stands(word, at, base, s, t) && s.pc < |code|
    ensures t.pc + 1 < |cells|
    ensures match S.IStep(code, world, s)
            case Next(s') => GoesOn(word, at, base, s', t, Step(cells, base, t, Yields(word(s'.acc), t.trap)))
            case Done(v, w) =>
              && code[s.pc].Ret? && word(v) == t.acc && w == s.w
              && code[s.pc].n <= |t.stack| - base
              && Step(cells, base, t, Yields(word(v), t.trap))
                 == Returned(t.stack[..|t.stack| - code[s.pc].n], t.trap)
            case Raised(_, _) =>
              var c, p := cells[t.pc], cells[t.pc + 1];
              && 0 <= PoppedFirst(c, p) <= |t.stack| - base
              && (MayThrow(c) ==>
                    Step(cells, base, t, Throws(exception, t.trap))
                    == Raise(base, t.(stack := Drop(t.stack, PoppedFirst(c, p))), exception))
            case Stuck => |s.stack| < S.Needs(code[s.pc]) && Step(cells, base, t, Throws(exception, t.trap)) == Fault
  {
    assert LaidAt(code, cells, at, s.pc);
    StopsAlike(code, cells, at, word, world, base, s, t, Throws(exception, t.trap));
    var c := code[s.pc];
    if S.IStep(code, world, s).Next? {
      var result := word(S.IStep(code, world, s).state.acc);
      if LeavesResult(c) {
        DataAgrees(code, cells, at, word, world, base, s, t);
      } else if MovesWords(c) {
        MovesAgree(code, cells, at, word, world, base, s, t, result);
      } else {
        JumpsAgree(code, cells, at, word, world, base, s, t, result);
      }
    } else {
      NeedsAreTouched(c, cells[t.pc], cells[t.pc + 1], at);
    }
  }

  /** So do whole runs, of any length: the frame takes as many steps, its operands stand for the interpreter's, and
      its callers' words and its trap are those of before. */
  lemma {:induction false} RunAgrees(code: seq<B.Instruction>, cells: seq<int>, at: Places, word: B.Value -> Word,
                                     world: S.World, base: nat, s: S.IState, t: State, n: nat)
    returns (states: seq<State>, events: seq<Event>)
    requires Laid(code, cells, at) && Represents(word) && Stands(word, at, base, s, t)
    requires SlotSimulation.IRun(code, world, s, n).Next?
    ensures FrameSafety.Run(cells, base, states, events) && |events| == n && states[0] == t
    ensures GoesOn(word, at, base, SlotSimulation.IRun(code, world, s, n).state, t, Running(states[n]))
    decreases n
  {
    hide Laid, Represents, Step, S.IStep, Stands;
    if n == 0 {
      states, events := [t], [];
    } else {
      var s1 := S.IStep(code, world, s).state;
      assert s.pc < |code| by { StepsInside(code, world, s); }
      StepAgrees(code, cells, at, word, world, base, s, t, t.acc);
      var e := Yields(word(s1.acc), t.trap);
      var t1 := Step(cells, base, t, e).state;
      states, events := RunAgrees(code, cells, at, word, world, base, s1, t1, n - 1);
      RunFrom(cells, base, t, e, states, events);
      states, events := [t] + states, [e] + events;
    }
  }

  lemma StepsInside(code: seq<B.Instruction>, world: S.World, s: S.IState)
    requires S.IStep(code, world, s).Next?
    ensures s.pc < |code|
  {
  }

  lemma RunFrom(cells: seq<int>, base: nat, t: State, e: Event, states: seq<State>, events: seq<Event>)
    requires states != [] && FrameSafety.Run(cells, base, states, events)
    requires Step(cells, base, t, e) == Running(states[0])
    ensures FrameSafety.Run(cells, base, [t] + states, [e] + events)
  {
    hide Step;
    var all, moves := [t] + states, [e] + events;
    forall i | 0 <= i < |moves|
      ensures Step(cells, base, all[i], moves[i]) == Running(all[i + 1])
    {
      if i > 0 {
        assert Step(cells, base, states[i - 1], events[i - 1]) == Running(states[i - 1 + 1]);
      }
    }
  }
}
