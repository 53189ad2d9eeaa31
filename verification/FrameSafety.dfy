/** Soundness of the stack check against the interpreter. The check knows heights, not which words are
    trap records; labels say that, and with them every instruction is reached at the height of its mark,
    nothing below the frame is ever looked at, and the trap is given back on return. */
module FrameSafety {
  import opened Opcodes
  import opened StackCheck
  import opened FrameMachine

  /** The stack table and the interpreter agree on what an instruction does to the height. The
      table leaves out the receiver that an object call pops; it counts nothing for the two
      instructions that leave the frame. */
  lemma TableAgreesWithInterpreter(code: seq<int>, i: nat)
    requires i + 1 < |code| && IsOpcode(code[i]) && code[i] != RET && code[i] != TAIL_CALL
    ensures Effect(code, i) - (if code[i] == OBJ_CALL then 1 else 0)
            == (if code[i] == PUSH then 1 else if code[i] == TRAP then |TrapRecord(0, 0)| else 0)
               - Popped(code[i], code[i + 1])
  {
  }

  // ------------------------------------------------------------------- labels

  /** For each cell the heights of the trap records that are live there, the innermost first; a record's
      height is the number of the frame's words up to its top. */
  type Labels = seq<seq<int>>

  ghost predicate LabelAt(labels: Labels, k: int, l: seq<int>) {
    0 <= k < |labels| && labels[k] == l
  }

  /** Six words each, one above the other and none above `h`. */
  predicate Stacked(l: seq<int>, h: int) {
    l == [] || (6 <= l[0] <= h && Stacked(l[1..], l[0] - 6))
  }

  /** The word at height `i` is in none of the records. */
  predicate Clear(l: seq<int>, i: int) {
    l == [] || (!(l[0] - 6 <= i < l[0]) && Clear(l[1..], i))
  }

  /** `END_TRAP` finds the innermost record on top. */
  predicate OnTop(l: seq<int>, h: int) {
    l != [] && l[0] == h
  }

  function LabelAfter(c: int, l: seq<int>, h: int): seq<int>
    requires c == END_TRAP ==> l != []
  {
    if c == TRAP then [h + 6] + l else if c == END_TRAP then l[1..] else l
  }

  /** What can be checked about the instruction at `k`: it neither overwrites nor pops a live record other
      than by `END_TRAP`, leaves the frame only without one, and goes on where the right ones are live. */
  ghost predicate ProtectedAt(code: seq<int>, marks: seq<int>, labels: Labels, k: nat)
    requires k < |code| == |marks| == |labels|
    requires k + 1 < |code| || code[k] == LAST
  {
    var c, l, h := code[k], labels[k], marks[k];
    && (c == RET || c == TAIL_CALL ==> l == [])
    && (c != LAST ==>
        var p := code[k + 1];
        && (c == SET_STACK ==> Clear(l, h - 1 - p))
        && (c != END_TRAP && l != [] ==> l[0] <= h - Popped(c, p))
        && (IsJump(c) ==> LabelAt(labels, p, l))
        && (c == TRAP ==> MarkedAt(marks, p, h))
        && (c == JUMP_TABLE ==> forall j :: 0 <= j < p / 2 ==> LabelAt(labels, CaseCell(k, j), l))
        && (!EndsPath(c) && (c == END_TRAP ==> OnTop(l, h))
          ==> LabelAt(labels, FallCell(code, k), LabelAfter(c, l, h))))
  }

  /** The labels protect the code's trap records. This is a condition on the code, to be checked before it
      runs; that handlers are marked at the heights of their traps is part of it. */
  ghost predicate Protected(code: seq<int>, starts: seq<bool>, marks: seq<int>, labels: Labels)
    requires Verified(code, starts, marks)
  {
    && |labels| == |code|
    && forall k {:trigger ProtectedAt(code, marks, labels, k)} :: 0 <= k < |code| && marks[k] != UNKNOWN ==>
         Stacked(labels[k], marks[k]) && ProtectedAt(code, marks, labels, k)
  }

  // ------------------------------------------------------------------- states at their labels

  /** The six words that end at `top` are a trap record. */
  predicate IsRecord(stack: seq<Word>, top: int) {
    && 6 <= top <= |stack|
    && stack[top - 6].PreviousTrap? && stack[top - 5].SavedModule? && stack[top - 4].HandlerAt?
    && stack[top - 3].SavedEnv? && stack[top - 2].SavedThis? && stack[top - 1].CallOffset?
  }

  /** The frame's chain of trap records is the one that the label lists, down to the trap on entry, and
      each handler's mark and label are those below its record. */
  ghost predicate Live(marks: seq<int>, labels: Labels, base: nat, entry: int, stack: seq<Word>, trap: int, l: seq<int>)
    decreases |l|
  {
    if l == [] then trap == entry
    else
      && trap == base + l[0] && IsRecord(stack, trap)
      && MarkedAt(marks, stack[trap - 4].pc, l[0] - 6) && LabelAt(labels, stack[trap - 4].pc, l[1..])
      && Live(marks, labels, base, entry, stack, stack[trap - 6].offset, l[1..])
  }

  /** The state stands at a mark, at the mark's height, and with the records of its label. `entry` is the
      trap that was set when the frame was entered. */
  ghost predicate AtMark(marks: seq<int>, labels: Labels, base: nat, entry: int, s: State) {
    && base <= |s.stack| < base + HEIGHT_LIMIT && entry <= base && |labels| == |marks|
    && MarkedAt(marks, s.pc, |s.stack| - base) && Stacked(labels[s.pc], marks[s.pc])
    && Live(marks, labels, base, entry, s.stack, s.trap, labels[s.pc])
  }

  /** The code that a step runs outside the frame gives the trap back. */
  predicate GivesBack(s: State, e: Event) {
    e.trap == s.trap
  }

  /** What a step may lead to. */
  ghost predicate SafeOutcome(marks: seq<int>, labels: Labels, base: nat, entry: int, s: State, o: Outcome)
    requires base <= |s.stack|
  {
    match o
    case Running(s') => AtMark(marks, labels, base, entry, s') && s'.stack[..base] == s.stack[..base]
    case Returned(rest, trap) => rest == s.stack[..base] && trap == entry
    case TailCalled(rest, args, trap) => rest == s.stack[..base] && |args| <= CALL_MAX_ARGS && trap == entry
    case Halted(rest, trap) => rest == s.stack[..base] && trap == entry
    case Unwound(trap) => trap == entry
    case InvalidTrap => false
    case Fault => false
  }

  /** Words above the innermost record do not matter to the chain. */
  lemma {:induction false} LiveKept(marks: seq<int>, labels: Labels, base: nat, entry: int, before: seq<Word>,
                                    after: seq<Word>, trap: int, l: seq<int>)
    requires Live(marks, labels, base, entry, before, trap, l) && (l != [] ==> Stacked(l, l[0]))
    requires l != [] ==> trap <= |after| && after[..trap] == before[..trap]
    ensures Live(marks, labels, base, entry, after, trap, l)
    decreases |l|
  {
    if l != [] {
      SamePrefix(before, after, trap);
      var previous := before[trap - 6].offset;
      if l[1..] != [] {
        assert after[..previous] == after[..trap][..previous] == before[..trap][..previous] == before[..previous];
      }
      LiveKept(marks, labels, base, entry, before, after, previous, l[1..]);
    }
  }

  lemma SamePrefix(before: seq<Word>, after: seq<Word>, n: int)
    requires 0 <= n <= |before| && n <= |after| && after[..n] == before[..n]
    ensures forall i :: 0 <= i < n ==> after[i] == before[i]
  {
    forall i | 0 <= i < n
      ensures after[i] == before[i]
    {
      assert after[..n][i] == before[..n][i];
    }
  }

  /** Nor does a word outside the records. */
  lemma {:induction false} LiveKeptOutside(marks: seq<int>, labels: Labels, base: nat, entry: int, stack: seq<Word>,
                                           trap: int, l: seq<int>, i: nat, w: Word)
    requires Live(marks, labels, base, entry, stack, trap, l)
    requires i < |stack| && Clear(l, i - base)
    ensures Live(marks, labels, base, entry, stack[i := w], trap, l)
    decreases |l|
  {
    if l != [] {
      LiveKeptOutside(marks, labels, base, entry, stack, stack[trap - 6].offset, l[1..], i, w);
    }
  }

  // ------------------------------------------------------------------- one step

  /** An exception lands on its handler's mark and label, at the height held at the trap, or leaves the
      frame with the trap that was set on entry. */
  lemma RaiseSafe(marks: seq<int>, labels: Labels, base: nat, entry: int, s: State, l: seq<int>, exception: Word)
    requires base <= |s.stack| < base + HEIGHT_LIMIT && entry <= base && |labels| == |marks|
    requires Stacked(l, |s.stack| - base) && Live(marks, labels, base, entry, s.stack, s.trap, l)
    ensures SafeOutcome(marks, labels, base, entry, s, Raise(base, s, exception))
  {
    if l != [] {
      var kept := s.stack[..s.trap - 6];
      var previous := s.stack[s.trap - 6].offset;
      if l[1..] != [] {
        assert kept[..previous] == s.stack[..previous];
      }
      StackedHead(l[1..], l[0] - 6);
      LiveKept(marks, labels, base, entry, s.stack, kept, previous, l[1..]);
      assert kept[..base] == s.stack[..base];
    }
  }

  lemma StackedHead(l: seq<int>, h: int)
    requires Stacked(l, h)
    ensures l != [] ==> Stacked(l, l[0])
  {
  }

  /** What the check and the labels say about a marked state. */
  lemma AtNode(code: seq<int>, starts: seq<bool>, marks: seq<int>, labels: Labels, base: nat, entry: int, s: State)
    requires Verified(code, starts, marks) && Protected(code, starts, marks, labels)
    requires AtMark(marks, labels, base, entry, s)
    ensures starts[s.pc] && NodeOk(code, marks, s.pc, -1, 0) && ProtectedAt(code, marks, labels, s.pc)
    ensures code[s.pc] != LAST ==> s.pc + 1 < |code| && InstructionOk(code, starts, s.pc)
  {
    assert NodeOk(code, marks, s.pc, -1, 0);
    assert ProtectedAt(code, marks, labels, s.pc);
    if s.pc + 1 < |code| {
      assert InstructionOk(code, starts, s.pc);
    }
  }

  /** Words popped but not the live records: the state stays at its marks. */
  lemma PoppedAtMark(marks: seq<int>, labels: Labels, base: nat, entry: int, s: State, l: seq<int>, n: nat, pc: int,
                     acc: Word)
    requires base <= |s.stack| < base + HEIGHT_LIMIT && entry <= base && |labels| == |marks| && n <= |s.stack| - base
    requires Live(marks, labels, base, entry, s.stack, s.trap, l) && Stacked(l, |s.stack| - n - base)
    requires MarkedAt(marks, pc, |s.stack| - n - base) && LabelAt(labels, pc, l)
    ensures SafeOutcome(marks, labels, base, entry, s, Running(State(pc, acc, Drop(s.stack, n), s.trap)))
  {
    var kept := Drop(s.stack, n);
    if l != [] {
      assert kept[..s.trap] == s.stack[..s.trap];
    }
    StackedHead(l, |s.stack| - n - base);
    LiveKept(marks, labels, base, entry, s.stack, kept, s.trap, l);
    assert kept[..base] == s.stack[..base];
  }

  lemma GrownLive(marks: seq<int>, labels: Labels, base: nat, entry: int, s: State, more: seq<Word>)
    requires AtMark(marks, labels, base, entry, s)
    ensures Live(marks, labels, base, entry, s.stack + more, s.trap, labels[s.pc])
    ensures (s.stack + more)[..base] == s.stack[..base]
  {
    var l, grown := labels[s.pc], s.stack + more;
    if l != [] {
      assert grown[..s.trap] == s.stack[..s.trap];
    }
    StackedHead(l, marks[s.pc]);
    LiveKept(marks, labels, base, entry, s.stack, grown, s.trap, l);
    assert grown[..base] == s.stack[..base];
  }

  /** Lower the height that a label stays below. */
  lemma StackedBelow(l: seq<int>, h: int, h': int)
    requires Stacked(l, h) && (l != [] ==> l[0] <= h')
    ensures Stacked(l, h')
  {
  }

  lemma TrapSafe(code: seq<int>, starts: seq<bool>, marks: seq<int>, labels: Labels, base: nat, entry: int, s: State,
                 result: Word)
    requires Verified(code, starts, marks) && Protected(code, starts, marks, labels)
    requires AtMark(marks, labels, base, entry, s) && code[s.pc] == TRAP
    ensures s.pc + 1 < |code|
    ensures SafeOutcome(marks, labels, base, entry, s, Execute(TRAP, code[s.pc + 1], s, result))
  {
    AtNode(code, starts, marks, labels, base, entry, s);
    var p, l, top := code[s.pc + 1], labels[s.pc], |s.stack| + 6;
    var grown := s.stack + TrapRecord(p, s.trap);
    GrownLive(marks, labels, base, entry, s, TrapRecord(p, s.trap));
    RecordOnTop(s.stack, p, s.trap);
    assert ([top - base] + l)[1..] == l;
    assert Live(marks, labels, base, entry, grown, top, [top - base] + l);
  }

  lemma RecordOnTop(stack: seq<Word>, p: int, trap: int)
    ensures var grown, top := stack + TrapRecord(p, trap), |stack| + 6;
      |grown| == top && IsRecord(grown, top) && grown[top - 4] == HandlerAt(p) && grown[top - 6] == PreviousTrap(trap)
  {
  }

  lemma EndTrapSafe(code: seq<int>, starts: seq<bool>, marks: seq<int>, labels: Labels, base: nat, entry: int, s: State,
                    result: Word)
    requires Verified(code, starts, marks) && Protected(code, starts, marks, labels)
    requires AtMark(marks, labels, base, entry, s) && code[s.pc] == END_TRAP && s.trap == |s.stack|
    ensures base + 6 <= |s.stack| && SafeOutcome(marks, labels, base, entry, s, Execute(END_TRAP, 0, s, result))
  {
    AtNode(code, starts, marks, labels, base, entry, s);
    var l := labels[s.pc];
    var previous := s.stack[s.trap - 6].offset;
    PoppedAtMark(marks, labels, base, entry, s.(trap := previous), l[1..], 6, Next(code, s.pc), s.acc);
  }

  /** The jumps. */
  lemma JumpSafe(code: seq<int>, starts: seq<bool>, marks: seq<int>, labels: Labels, base: nat, entry: int, s: State,
                 result: Word)
    requires Verified(code, starts, marks) && Protected(code, starts, marks, labels)
    requires AtMark(marks, labels, base, entry, s) && code[s.pc] in {JUMP, JUMP_IF, JUMP_IF_NOT, JUMP_TABLE}
    ensures s.pc + 1 < |code|
    ensures SafeOutcome(marks, labels, base, entry, s, Execute(code[s.pc], code[s.pc + 1], s, result))
  {
    AtNode(code, starts, marks, labels, base, entry, s);
    var c, p := code[s.pc], code[s.pc + 1];
    if c == JUMP_TABLE && s.acc.Plain? && s.acc.v.Int? && 0 <= s.acc.v.n && 2 * s.acc.v.n + 1 < p {
      assert MarkedAt(marks, CaseCell(s.pc, s.acc.v.n), |s.stack| - base);
      assert LabelAt(labels, CaseCell(s.pc, s.acc.v.n), labels[s.pc]);
    }
  }

  predicate IsSpecial(c: int) {
    || c == JUMP || c == JUMP_IF || c == JUMP_IF_NOT || c == JUMP_TABLE || c == TRAP || c == END_TRAP
    || c == ACC_STACK || c == ACC_STACK_0 || c == ACC_STACK_1 || c == SET_STACK || c == PUSH
    || c == RET || c == TAIL_CALL || c == LAST
  }

  /** Every other instruction pops its operands and goes on with the next one. */
  lemma PlainSafe(code: seq<int>, starts: seq<bool>, marks: seq<int>, labels: Labels, base: nat, entry: int, s: State,
                  result: Word)
    requires Verified(code, starts, marks) && Protected(code, starts, marks, labels)
    requires AtMark(marks, labels, base, entry, s) && !IsSpecial(code[s.pc])
    ensures s.pc + 1 < |code|
    ensures var c, p := code[s.pc], code[s.pc + 1];
      && 0 <= Popped(c, p) == Touched(c, p) <= |s.stack| - base
      && SafeOutcome(marks, labels, base, entry, s, Execute(c, p, s, result))
  {
    AtNode(code, starts, marks, labels, base, entry, s);
    var c, p, l, h := code[s.pc], code[s.pc + 1], labels[s.pc], marks[s.pc];
    TableAgreesWithInterpreter(code, s.pc);
    StackedBelow(l, h, h - Popped(c, p));
    PoppedAtMark(marks, labels, base, entry, s, l, Popped(c, p), Next(code, s.pc), result);
    PoppedAtMark(marks, labels, base, entry, s, l, Popped(c, p), Next(code, s.pc), s.acc);
  }

  /** Reading and writing the frame's own words. */
  lemma SetStackSafe(code: seq<int>, starts: seq<bool>, marks: seq<int>, labels: Labels, base: nat, entry: int,
                     s: State, result: Word)
    requires Verified(code, starts, marks) && Protected(code, starts, marks, labels)
    requires AtMark(marks, labels, base, entry, s) && code[s.pc] == SET_STACK
    ensures s.pc + 1 < |code|
    ensures var p := code[s.pc + 1];
      && 0 <= Popped(SET_STACK, p) <= Touched(SET_STACK, p) <= |s.stack| - base
      && SafeOutcome(marks, labels, base, entry, s, Execute(SET_STACK, p, s, result))
  {
    hide Protected, Verified;
    AtNode(code, starts, marks, labels, base, entry, s);
    var i := |s.stack| - 1 - code[s.pc + 1];
    LiveKeptOutside(marks, labels, base, entry, s.stack, s.trap, labels[s.pc], i, s.acc);
    assert s.stack[i := s.acc][..base] == s.stack[..base];
  }

  lemma PushSafe(code: seq<int>, starts: seq<bool>, marks: seq<int>, labels: Labels, base: nat, entry: int, s: State,
                 result: Word)
    requires Verified(code, starts, marks) && Protected(code, starts, marks, labels)
    requires AtMark(marks, labels, base, entry, s) && code[s.pc] == PUSH
    ensures s.pc + 1 < |code| && 0 <= Popped(PUSH, code[s.pc + 1]) <= Touched(PUSH, code[s.pc + 1]) <= |s.stack| - base
    ensures SafeOutcome(marks, labels, base, entry, s, Execute(PUSH, code[s.pc + 1], s, result))
  {
    hide Protected, Verified;
    AtNode(code, starts, marks, labels, base, entry, s);
    GrownLive(marks, labels, base, entry, s, [s.acc]);
    StackedBelow(labels[s.pc], marks[s.pc], marks[s.pc] + 1);
  }

  lemma AccessSafe(code: seq<int>, starts: seq<bool>, marks: seq<int>, labels: Labels, base: nat, entry: int, s: State,
                   result: Word)
    requires Verified(code, starts, marks) && Protected(code, starts, marks, labels)
    requires AtMark(marks, labels, base, entry, s)
    requires code[s.pc] in {ACC_STACK, ACC_STACK_0, ACC_STACK_1, SET_STACK, PUSH}
    ensures s.pc + 1 < |code|
    ensures var c, p := code[s.pc], code[s.pc + 1];
      && 0 <= Popped(c, p) <= Touched(c, p) <= |s.stack| - base
      && SafeOutcome(marks, labels, base, entry, s, Execute(c, p, s, result))
  {
    if code[s.pc] == SET_STACK {
      SetStackSafe(code, starts, marks, labels, base, entry, s, result);
    } else if code[s.pc] == PUSH {
      PushSafe(code, starts, marks, labels, base, entry, s, result);
    } else {
      AtNode(code, starts, marks, labels, base, entry, s);
    }
  }

  /** The instructions that leave the frame take all of it with them, and nothing else. */
  lemma LeaveSafe(code: seq<int>, starts: seq<bool>, marks: seq<int>, labels: Labels, base: nat, entry: int, s: State,
                  result: Word)
    requires Verified(code, starts, marks) && Protected(code, starts, marks, labels)
    requires AtMark(marks, labels, base, entry, s) && code[s.pc] in {RET, TAIL_CALL}
    ensures s.pc + 1 < |code|
    ensures var c, p := code[s.pc], code[s.pc + 1];
      && 0 <= Popped(c, p) == Touched(c, p) == |s.stack| - base
      && SafeOutcome(marks, labels, base, entry, s, Execute(c, p, s, result))
  {
    AtNode(code, starts, marks, labels, base, entry, s);
  }

  /** The words that an instruction looks at are the frame's own. */
  lemma Reaches(code: seq<int>, starts: seq<bool>, marks: seq<int>, labels: Labels, base: nat, entry: int, s: State)
    requires Verified(code, starts, marks) && Protected(code, starts, marks, labels)
    requires AtMark(marks, labels, base, entry, s) && code[s.pc] != LAST
    ensures s.pc + 1 < |code|
    ensures var c, p := code[s.pc], code[s.pc + 1];
      IsOpcode(c) && 0 <= PoppedFirst(c, p) <= Popped(c, p) <= Touched(c, p) <= |s.stack| - base
  {
    AtNode(code, starts, marks, labels, base, entry, s);
    if code[s.pc] != RET && code[s.pc] != TAIL_CALL {
      TableAgreesWithInterpreter(code, s.pc);
    }
  }

  /** An instruction throws, with the words that it takes off first. */
  lemma ThrowSafe(code: seq<int>, starts: seq<bool>, marks: seq<int>, labels: Labels, base: nat, entry: int, s: State,
                  n: nat, exception: Word)
    requires Verified(code, starts, marks) && Protected(code, starts, marks, labels)
    requires AtMark(marks, labels, base, entry, s) && code[s.pc] != LAST && s.pc + 1 < |code|
    requires n <= |s.stack| - base && (n == 0 || (code[s.pc] != END_TRAP && n <= Popped(code[s.pc], code[s.pc + 1])))
    ensures SafeOutcome(marks, labels, base, entry, s, Raise(base, s.(stack := Drop(s.stack, n)), exception))
  {
    AtNode(code, starts, marks, labels, base, entry, s);
    var l, rest := labels[s.pc], Drop(s.stack, n);
    StackedBelow(l, marks[s.pc], |rest| - base);
    if l != [] {
      assert rest[..s.trap] == s.stack[..s.trap];
    }
    StackedHead(l, marks[s.pc]);
    LiveKept(marks, labels, base, entry, s.stack, rest, s.trap, l);
    RaiseSafe(marks, labels, base, entry, s.(stack := rest), l, exception);
    assert rest[..base] == s.stack[..base];
  }

  /** One step of code that is verified and protected. */
  lemma StepSafe(code: seq<int>, starts: seq<bool>, marks: seq<int>, labels: Labels, base: nat, entry: int, s: State,
                 e: Event)
    requires Verified(code, starts, marks) && Protected(code, starts, marks, labels)
    requires AtMark(marks, labels, base, entry, s) && GivesBack(s, e)
    ensures SafeOutcome(marks, labels, base, entry, s, Step(code, base, s, e))
  {
    AtNode(code, starts, marks, labels, base, entry, s);
    var c := code[s.pc];
    if c == LAST {
      assert s.stack == s.stack[..base];
    } else {
      Reaches(code, starts, marks, labels, base, entry, s);
      var result := if e.Yields? then e.result else Plain(Null);
      assert (if MayCall(c) then s.(trap := e.trap) else s) == s;
      if e.Throws? && MayThrow(c) {
        ThrowSafe(code, starts, marks, labels, base, entry, s, PoppedFirst(c, code[s.pc + 1]), e.exception);
      } else if c == END_TRAP {
        if s.trap != |s.stack| {
          assert Drop(s.stack, 0) == s.stack;
          ThrowSafe(code, starts, marks, labels, base, entry, s, 0, Plain(Null));
        } else {
          EndTrapSafe(code, starts, marks, labels, base, entry, s, result);
        }
      } else {
        ExecuteSafe(code, starts, marks, labels, base, entry, s, result);
      }
    }
  }

  lemma ExecuteSafe(code: seq<int>, starts: seq<bool>, marks: seq<int>, labels: Labels, base: nat, entry: int, s: State,
                    result: Word)
    requires Verified(code, starts, marks) && Protected(code, starts, marks, labels)
    requires AtMark(marks, labels, base, entry, s) && code[s.pc] != LAST && code[s.pc] != END_TRAP && s.pc + 1 < |code|
    requires var c, p := code[s.pc], code[s.pc + 1]; 0 <= Popped(c, p) <= Touched(c, p) <= |s.stack|
    ensures SafeOutcome(marks, labels, base, entry, s, Execute(code[s.pc], code[s.pc + 1], s, result))
  {
    var c := code[s.pc];
    if c == TRAP {
      TrapSafe(code, starts, marks, labels, base, entry, s, result);
    } else if c in {JUMP, JUMP_IF, JUMP_IF_NOT, JUMP_TABLE} {
      JumpSafe(code, starts, marks, labels, base, entry, s, result);
    } else if c in {ACC_STACK, ACC_STACK_0, ACC_STACK_1, SET_STACK, PUSH} {
      AccessSafe(code, starts, marks, labels, base, entry, s, result);
    } else if c == RET || c == TAIL_CALL {
      LeaveSafe(code, starts, marks, labels, base, entry, s, result);
    } else {
      PlainSafe(code, starts, marks, labels, base, entry, s, result);
    }
  }

  // ------------------------------------------------------------------- whole runs

  /** A run of one frame: each state steps to the next. */
  ghost predicate Run(code: seq<int>, base: nat, states: seq<State>, events: seq<Event>) {
    && |states| == |events| + 1
    && forall i {:trigger events[i]} :: 0 <= i < |events| ==>
         Step(code, base, states[i], events[i]) == Running(states[i + 1])
  }

  ghost predicate AllGiveBack(states: seq<State>, events: seq<Event>) {
    |states| == |events| + 1 && forall i :: 0 <= i < |events| ==> GivesBack(states[i], events[i])
  }

  /** Entered with its arguments on the stack and no record of its own. */
  ghost predicate Entered(marks: seq<int>, labels: Labels, base: nat, s: State) {
    && base <= |s.stack| < base + HEIGHT_LIMIT && MarkedAt(marks, s.pc, |s.stack| - base)
    && s.trap <= base && |labels| == |marks| && LabelAt(labels, s.pc, [])
  }

  /** Soundness over whole runs: every state of the frame stands at the height of its mark with the
      records of its label and the callers' words as they were on entry, and whatever the last step does is
      safe. On return the trap is the one that was set on entry. */
  lemma {:induction false} RunSafe(code: seq<int>, starts: seq<bool>, marks: seq<int>, labels: Labels, base: nat,
                                   states: seq<State>, events: seq<Event>, n: nat, e: Event)
    requires Verified(code, starts, marks) && Protected(code, starts, marks, labels)
    requires Run(code, base, states, events) && AllGiveBack(states, events)
    requires Entered(marks, labels, base, states[0]) && n < |states| && GivesBack(states[n], e)
    ensures AtMark(marks, labels, base, states[0].trap, states[n])
    ensures states[n].stack[..base] == states[0].stack[..base]
    ensures SafeOutcome(marks, labels, base, states[0].trap, states[n], Step(code, base, states[n], e))
  {
    hide Protected, Verified, Step, Execute;
    if n > 0 {
      RunSafe(code, starts, marks, labels, base, states, events, n - 1, events[n - 1]);
    }
    StepSafe(code, starts, marks, labels, base, states[0].trap, states[n], e);
  }
}
