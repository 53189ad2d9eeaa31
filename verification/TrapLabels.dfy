/** When labels protect a function's trap records: exactly when the labelled marks are an invariant of the
    interpreter. Code without traps needs none. */
module TrapLabels {
  import opened Opcodes
  import opened StackCheck
  import opened FrameMachine
  import opened FrameSafety

  // ------------------------------------------------------------------- code without traps

  function NoLabels(n: nat): (l: Labels)
    ensures |l| == n && forall k :: 0 <= k < n ==> l[k] == []
  {
    seq(n, _ => [])
  }

  lemma NoTrapsProtected(code: seq<int>, starts: seq<bool>, marks: seq<int>)
    requires Verified(code, starts, marks)
    requires forall k :: 0 <= k < |code| && marks[k] != UNKNOWN ==> code[k] != TRAP
    ensures Protected(code, starts, marks, NoLabels(|code|))
  {
    var labels := NoLabels(|code|);
    forall k | 0 <= k < |code| && marks[k] != UNKNOWN
      ensures Stacked(labels[k], marks[k]) && ProtectedAt(code, marks, labels, k)
    {
      assert NodeOk(code, marks, k, -1, 0);
      if k + 1 < |code| {
        assert InstructionOk(code, starts, k);
      }
    }
  }

  /** Without traps the stack check is all it takes. */
  lemma TrapFreeSafe(code: seq<int>, starts: seq<bool>, marks: seq<int>, base: nat, states: seq<State>,
                     events: seq<Event>, n: nat, e: Event)
    requires Verified(code, starts, marks)
    requires forall k :: 0 <= k < |code| && marks[k] != UNKNOWN ==> code[k] != TRAP
    requires Run(code, base, states, events) && AllGiveBack(states, events) && n < |states| && GivesBack(states[n], e)
    requires base <= |states[0].stack| < base + HEIGHT_LIMIT && MarkedAt(marks, states[0].pc, |states[0].stack| - base)
    requires states[0].trap <= base
    ensures AtMark(marks, NoLabels(|code|), base, states[0].trap, states[n])
    ensures states[n].stack[..base] == states[0].stack[..base]
    ensures SafeOutcome(marks, NoLabels(|code|), base, states[0].trap, states[n], Step(code, base, states[n], e))
  {
    NoTrapsProtected(code, starts, marks);
    RunSafe(code, starts, marks, NoLabels(|code|), base, states, events, n, e);
  }

  // ------------------------------------------------------------------- a state for every label

  /** Some marked cell has the height below the innermost record, and the rest of the label. */
  ghost predicate HandlerCell(marks: seq<int>, labels: Labels, p: int, l: seq<int>) {
    l != [] && MarkedAt(marks, p, l[0] - 6) && LabelAt(labels, p, l[1..])
  }

  ghost predicate Realizable(marks: seq<int>, labels: Labels, l: seq<int>) {
    l == [] || ((exists p :: HandlerCell(marks, labels, p, l)) && Realizable(marks, labels, l[1..]))
  }

  /** Labels list records that could be there: six words each, at a height that some cell below them has. */
  ghost predicate Shaped(marks: seq<int>, labels: Labels) {
    && |labels| == |marks|
    && forall k :: 0 <= k < |marks| && marks[k] != UNKNOWN ==>
         Stacked(labels[k], marks[k]) && Realizable(marks, labels, labels[k])
  }

  function TrapOf(l: seq<int>): int {
    if l == [] then 0 else l[0]
  }

  function Fill(n: nat): (r: seq<Word>)
    ensures |r| == n
  {
    seq(n, _ => Plain(Null))
  }

  lemma {:induction false} SomeStack(marks: seq<int>, labels: Labels, l: seq<int>, n: nat) returns (stack: seq<Word>)
    requires Stacked(l, n) && Realizable(marks, labels, l)
    ensures |stack| == n && Live(marks, labels, 0, 0, stack, TrapOf(l), l)
    decreases |l|
  {
    if l == [] {
      stack := Fill(n);
    } else {
      var p :| HandlerCell(marks, labels, p, l);
      var below := SomeStack(marks, labels, l[1..], l[0] - 6);
      var recorded := below + TrapRecord(p, TrapOf(l[1..]));
      RecordOnTop(below, p, TrapOf(l[1..]));
      StackedHead(l[1..], l[0] - 6);
      LiveKept(marks, labels, 0, 0, below, recorded, TrapOf(l[1..]), l[1..]);
      stack := recorded + Fill(n - l[0]);
      assert stack[..l[0]] == recorded[..l[0]];
      LiveKept(marks, labels, 0, 0, recorded, stack, l[0], l);
    }
  }

  /** A stack has one label, and a plain word lies in none of its records. */
  lemma {:induction false} OneLabel(marks: seq<int>, labels: Labels, stack: seq<Word>, stack': seq<Word>, trap: int,
                                    l: seq<int>, l': seq<int>, i: int)
    requires Live(marks, labels, 0, 0, stack, trap, l) && Live(marks, labels, 0, 0, stack', trap, l')
    requires forall j :: 0 <= j < |stack| && j < |stack'| && j != i ==> stack'[j] == stack[j]
    requires 0 <= i < |stack'| ==> stack'[i].Plain?
    ensures l == l' && (i < |stack'| ==> Clear(l, i)) && (l != [] ==> l[0] <= |stack'|)
    decreases |l|
  {
    if l != [] && l' != [] {
      OneLabel(marks, labels, stack, stack', stack[trap - 6].offset, l[1..], l'[1..], i);
    }
  }

  // ------------------------------------------------------------------- the labelled marks as an invariant

  /** No step leads from a state at its mark and label to one that is not, or to anything unsafe. */
  ghost predicate MarksInductive(code: seq<int>, marks: seq<int>, labels: Labels) {
    forall base: nat, entry, s, e :: AtMark(marks, labels, base, entry, s) && GivesBack(s, e) ==>
      SafeOutcome(marks, labels, base, entry, s, Step(code, base, s, e))
  }

  /** A state at the cell `k`, and where a step leads from it. */
  lemma SomeStep(code: seq<int>, starts: seq<bool>, marks: seq<int>, labels: Labels, k: nat, acc: Word)
    returns (s: State)
    requires Verified(code, starts, marks) && Shaped(marks, labels) && MarksInductive(code, marks, labels)
    requires k < |code| && marks[k] != UNKNOWN
    ensures s.pc == k && s.acc == acc && |s.stack| == marks[k] && s.trap == TrapOf(labels[k])
    ensures Live(marks, labels, 0, 0, s.stack, s.trap, labels[k])
    ensures SafeOutcome(marks, labels, 0, 0, s, Step(code, 0, s, Yields(Plain(Null), s.trap)))
    ensures NodeOk(code, marks, k, -1, 0) && (code[k] != LAST ==> k + 1 < |code| && InstructionOk(code, starts, k))
  {
    assert NodeOk(code, marks, k, -1, 0);
    if k + 1 < |code| {
      assert InstructionOk(code, starts, k);
    }
    var stack := SomeStack(marks, labels, labels[k], marks[k]);
    s := State(k, acc, stack, TrapOf(labels[k]));
    assert AtMark(marks, labels, 0, 0, s) && GivesBack(s, Yields(Plain(Null), s.trap));
  }

  lemma LeavesLabelled(code: seq<int>, starts: seq<bool>, marks: seq<int>, labels: Labels, k: nat)
    requires Verified(code, starts, marks) && Shaped(marks, labels) && MarksInductive(code, marks, labels)
    requires k < |code| && marks[k] != UNKNOWN && (code[k] == RET || code[k] == TAIL_CALL)
    ensures labels[k] == [] && k + 1 < |code| && ProtectedAt(code, marks, labels, k)
  {
    var s := SomeStep(code, starts, marks, labels, k, Plain(Null));
  }

  /** Where a jump goes, by the accumulator. */
  function Goal(code: seq<int>, k: nat, acc: Word): int
    requires k + 1 < |code|
  {
    var c, p := code[k], code[k + 1];
    if c == JUMP || (c == JUMP_IF && acc == Plain(True)) || (c == JUMP_IF_NOT && acc != Plain(True)) then p
    else if c != JUMP_TABLE then k + 2
    else if acc.Plain? && acc.v.Int? && 0 <= acc.v.n && 2 * acc.v.n + 1 < p then CaseCell(k, acc.v.n)
    else k + 2 + p
  }

  lemma JumpStep(code: seq<int>, s: State, e: Event)
    requires 0 <= s.pc && s.pc + 1 < |code| && code[s.pc] in {JUMP, JUMP_IF, JUMP_IF_NOT, JUMP_TABLE} && e.Yields?
    ensures Step(code, 0, s, e) == Running(s.(pc := Goal(code, s.pc, s.acc)))
  {
  }

  lemma GoalLabelled(code: seq<int>, starts: seq<bool>, marks: seq<int>, labels: Labels, k: nat, acc: Word)
    requires Verified(code, starts, marks) && Shaped(marks, labels) && MarksInductive(code, marks, labels)
    requires k + 1 < |code| && marks[k] != UNKNOWN && code[k] in {JUMP, JUMP_IF, JUMP_IF_NOT, JUMP_TABLE}
    ensures LabelAt(labels, Goal(code, k, acc), labels[k])
  {
    var s := SomeStep(code, starts, marks, labels, k, acc);
    JumpStep(code, s, Yields(Plain(Null), s.trap));
    OneLabel(marks, labels, s.stack, s.stack, s.trap, labels[k], labels[Goal(code, k, acc)], -1);
  }

  lemma JumpLabelled(code: seq<int>, starts: seq<bool>, marks: seq<int>, labels: Labels, k: nat)
    requires Verified(code, starts, marks) && Shaped(marks, labels) && MarksInductive(code, marks, labels)
    requires k < |code| && marks[k] != UNKNOWN && code[k] in {JUMP, JUMP_IF, JUMP_IF_NOT, JUMP_TABLE}
    ensures k + 1 < |code| && ProtectedAt(code, marks, labels, k)
  {
    assert NodeOk(code, marks, k, -1, 0);
    assert InstructionOk(code, starts, k);
    GoalLabelled(code, starts, marks, labels, k, Plain(True));
    GoalLabelled(code, starts, marks, labels, k, Plain(Null));
    if code[k] == JUMP_TABLE {
      forall j | 0 <= j < code[k + 1] / 2
        ensures LabelAt(labels, CaseCell(k, j), labels[k])
      {
        GoalLabelled(code, starts, marks, labels, k, Plain(Int(j)));
      }
    }
    StackedBelow(labels[k], marks[k], marks[k]);
  }

  lemma TrapStep(code: seq<int>, s: State, e: Event)
    requires 0 <= s.pc && s.pc + 1 < |code| && code[s.pc] == TRAP && e.Yields?
    ensures Step(code, 0, s, e)
         == Running(State(s.pc + 2, s.acc, s.stack + TrapRecord(code[s.pc + 1], s.trap), |s.stack| + 6))
  {
  }

  /** The label behind a new record. */
  lemma RecordLabel(marks: seq<int>, labels: Labels, s: State, s': State, p: int, l: seq<int>)
    requires Live(marks, labels, 0, 0, s.stack, s.trap, l) && AtMark(marks, labels, 0, 0, s')
    requires s'.stack == s.stack + TrapRecord(p, s.trap) && s'.trap == |s.stack| + 6
    ensures LabelAt(labels, s'.pc, [|s.stack| + 6] + l) && MarkedAt(marks, p, |s.stack|) && LabelAt(labels, p, l)
  {
    var l' := labels[s'.pc];
    RecordOnTop(s.stack, p, s.trap);
    assert l' == [|s.stack| + 6] + l'[1..];
    OneLabel(marks, labels, s.stack, s'.stack, s.trap, l, l'[1..], -1);
  }

  lemma TrapCell(code: seq<int>, marks: seq<int>, labels: Labels, k: nat, s: State)
    requires |code| == |marks| == |labels| && k + 1 < |code| && code[k] == TRAP && Stacked(labels[k], marks[k])
    requires s.pc == k && |s.stack| == marks[k] && Live(marks, labels, 0, 0, s.stack, s.trap, labels[k])
    requires SafeOutcome(marks, labels, 0, 0, s, Step(code, 0, s, Yields(Plain(Null), s.trap)))
    ensures ProtectedAt(code, marks, labels, k)
  {
    TrapStep(code, s, Yields(Plain(Null), s.trap));
    var s' := State(k + 2, s.acc, s.stack + TrapRecord(code[k + 1], s.trap), |s.stack| + 6);
    RecordLabel(marks, labels, s, s', code[k + 1], labels[k]);
  }

  lemma EndTrapStep(code: seq<int>, s: State, e: Event)
    requires 0 <= s.pc && s.pc + 1 < |code| && code[s.pc] == END_TRAP && e.Yields?
    requires s.trap == |s.stack| && IsRecord(s.stack, s.trap)
    ensures Step(code, 0, s, e)
         == Running(State(s.pc + 1, s.acc, Drop(s.stack, 6), s.stack[s.trap - 6].offset))
  {
  }

  lemma EndTrapCell(code: seq<int>, marks: seq<int>, labels: Labels, k: nat, s: State)
    requires |code| == |marks| == |labels| && k + 1 < |code| && code[k] == END_TRAP && Stacked(labels[k], marks[k])
    requires s.pc == k && |s.stack| == marks[k] && Live(marks, labels, 0, 0, s.stack, s.trap, labels[k])
    requires SafeOutcome(marks, labels, 0, 0, s, Step(code, 0, s, Yields(Plain(Null), s.trap)))
    ensures ProtectedAt(code, marks, labels, k)
  {
    var l := labels[k];
    if OnTop(l, marks[k]) {
      EndTrapStep(code, s, Yields(Plain(Null), s.trap));
      var previous := s.stack[s.trap - 6].offset;
      OneLabel(marks, labels, s.stack, Drop(s.stack, 6), previous, l[1..], labels[k + 1], -1);
    }
  }

  predicate GoesOn(c: int) {
    IsOpcode(c) && c != RET && c != TAIL_CALL && c != TRAP && c != END_TRAP
      && c !in {JUMP, JUMP_IF, JUMP_IF_NOT, JUMP_TABLE}
  }

  /** All other instructions change only the top of the stack, or the word that `SET_STACK` names. */
  lemma PlainExecute(c: int, p: int, s: State, result: Word)
    requires GoesOn(c) && 0 <= Popped(c, p) <= Touched(c, p) <= |s.stack|
    requires (c == ACC_STACK || c == SET_STACK ==> 0 <= p) && s.acc == Plain(Null)
    ensures Execute(c, p, s, result).Running?
    ensures var s' := Execute(c, p, s, result).state;
            var i := if c == SET_STACK then |s.stack| - 1 - p else -1;
      && s'.pc == s.pc + 1 + ParameterCount(c) && s'.trap == s.trap
      && |s'.stack| == |s.stack| - Popped(c, p) + (if c == PUSH then 1 else 0)
      && (c == SET_STACK ==> 0 <= i < |s'.stack| && s'.stack[i] == Plain(Null))
      && forall j :: 0 <= j < |s.stack| && j < |s'.stack| && j != i ==> s'.stack[j] == s.stack[j]
  {
  }

  lemma PlainStep(code: seq<int>, starts: seq<bool>, marks: seq<int>, s: State, e: Event)
    requires Verified(code, starts, marks) && MarkedAt(marks, s.pc, |s.stack|) && GoesOn(code[s.pc])
    requires marks[s.pc] != UNKNOWN && e.Yields? && e.trap == s.trap
    ensures s.pc + 1 < |code|
    ensures var c, p := code[s.pc], code[s.pc + 1];
      && 0 <= Popped(c, p) <= Touched(c, p) <= |s.stack| && (c == ACC_STACK || c == SET_STACK ==> 0 <= p)
      && FallCell(code, s.pc) == s.pc + 1 + ParameterCount(c)
      && Step(code, 0, s, e) == Execute(c, p, s, e.result)
  {
    assert NodeOk(code, marks, s.pc, -1, 0);
    assert InstructionOk(code, starts, s.pc);
    TableAgreesWithInterpreter(code, s.pc);
  }

  lemma PlainProtected(code: seq<int>, marks: seq<int>, labels: Labels, k: nat)
    requires |code| == |marks| == |labels| && k + 1 < |code| && GoesOn(code[k])
    requires LabelAt(labels, FallCell(code, k), labels[k])
    requires code[k] == SET_STACK ==> Clear(labels[k], marks[k] - 1 - code[k + 1])
    requires labels[k] != [] ==> labels[k][0] <= marks[k] - Popped(code[k], code[k + 1])
    ensures ProtectedAt(code, marks, labels, k)
  {
  }

  lemma PlainCell(code: seq<int>, marks: seq<int>, labels: Labels, k: nat, s: State, s': State, i: int)
    requires |code| == |marks| == |labels| && k + 1 < |code| && GoesOn(code[k]) && Stacked(labels[k], marks[k])
    requires |s.stack| == marks[k] && Live(marks, labels, 0, 0, s.stack, s.trap, labels[k])
    requires AtMark(marks, labels, 0, 0, s') && s'.pc == FallCell(code, k) && s'.trap == s.trap
    requires i == if code[k] == SET_STACK then |s.stack| - 1 - code[k + 1] else -1
    requires code[k] == SET_STACK ==> 0 <= i < |s'.stack| && s'.stack[i] == Plain(Null)
    requires forall j :: 0 <= j < |s.stack| && j < |s'.stack| && j != i ==> s'.stack[j] == s.stack[j]
    requires |s'.stack| == |s.stack| - Popped(code[k], code[k + 1]) + (if code[k] == PUSH then 1 else 0)
    ensures ProtectedAt(code, marks, labels, k)
  {
    OneLabel(marks, labels, s.stack, s'.stack, s.trap, labels[k], labels[s'.pc], i);
    PlainProtected(code, marks, labels, k);
  }

  lemma StepLabelled(code: seq<int>, starts: seq<bool>, marks: seq<int>, labels: Labels, k: nat, s: State)
    requires k + 1 < |code| == |labels| && Verified(code, starts, marks) && marks[k] != UNKNOWN
    requires Stacked(labels[k], marks[k])
    requires (GoesOn(code[k]) || code[k] == TRAP || code[k] == END_TRAP)
    requires s.pc == k && s.acc == Plain(Null) && |s.stack| == marks[k]
    requires Live(marks, labels, 0, 0, s.stack, s.trap, labels[k])
    requires SafeOutcome(marks, labels, 0, 0, s, Step(code, 0, s, Yields(Plain(Null), s.trap)))
    ensures ProtectedAt(code, marks, labels, k)
  {
    var c, p := code[k], code[k + 1];
    if c == TRAP {
      TrapCell(code, marks, labels, k, s);
    } else if c == END_TRAP {
      EndTrapCell(code, marks, labels, k, s);
    } else {
      PlainStep(code, starts, marks, s, Yields(Plain(Null), s.trap));
      PlainExecute(c, p, s, Plain(Null));
      var s' := Execute(c, p, s, Plain(Null)).state;
      PlainCell(code, marks, labels, k, s, s', if c == SET_STACK then |s.stack| - 1 - p else -1);
    }
  }

  /** The labelled marks of verified code are an invariant of the interpreter, with everything that leaves
      the frame as it should be, if and only if every instruction protects the records of its label. */
  lemma InductiveIffProtected(code: seq<int>, starts: seq<bool>, marks: seq<int>, labels: Labels)
    requires Verified(code, starts, marks) && Shaped(marks, labels)
    ensures MarksInductive(code, marks, labels) <==> Protected(code, starts, marks, labels)
  {
    if Protected(code, starts, marks, labels) {
      forall base: nat, entry, s, e | AtMark(marks, labels, base, entry, s) && GivesBack(s, e)
        ensures SafeOutcome(marks, labels, base, entry, s, Step(code, base, s, e))
      {
        StepSafe(code, starts, marks, labels, base, entry, s, e);
      }
    }
    if MarksInductive(code, marks, labels) {
      forall k | 0 <= k < |code| && marks[k] != UNKNOWN
        ensures k + 1 < |code| || code[k] == LAST
        ensures ProtectedAt(code, marks, labels, k)
      {
        CellLabelled(code, starts, marks, labels, k);
      }
    }
  }

  lemma CellLabelled(code: seq<int>, starts: seq<bool>, marks: seq<int>, labels: Labels, k: nat)
    requires Verified(code, starts, marks) && Shaped(marks, labels) && MarksInductive(code, marks, labels)
    requires k < |code| && marks[k] != UNKNOWN
    ensures k + 1 < |code| || code[k] == LAST
    ensures ProtectedAt(code, marks, labels, k)
  {
    var c := code[k];
    assert NodeOk(code, marks, k, -1, 0);
    if k + 1 < |code| {
      assert InstructionOk(code, starts, k);
    }
    if c == RET || c == TAIL_CALL {
      LeavesLabelled(code, starts, marks, labels, k);
    } else if c in {JUMP, JUMP_IF, JUMP_IF_NOT, JUMP_TABLE} {
      JumpLabelled(code, starts, marks, labels, k);
    } else if c != LAST {
      var s := SomeStep(code, starts, marks, labels, k, Plain(Null));
      StepLabelled(code, starts, marks, labels, k, s);
    }
  }
}
