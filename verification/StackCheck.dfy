/** The bytecode verifier: a depth-first walk over the code that gives every instruction it
    reaches one stack height, and rejects the code when two paths disagree. */
module StackCheck {
  import opened Opcodes

  // The mark of an instruction that has not been reached (the byte -1).
  const UNKNOWN := 0xFF

  // Heights stay below this, which leaves room for the call information of one subcall.
  const HEIGHT_LIMIT := MAX_STACK_PER_FUNCTION - 4

  function UnknownCount(marks: seq<int>): nat {
    if marks == [] then 0 else (if marks[0] == UNKNOWN then 1 else 0) + UnknownCount(marks[1..])
  }

  lemma {:induction false} MarkingLowersCount(before: seq<int>, after: seq<int>)
    requires Extends(before, after)
    ensures UnknownCount(after) <= UnknownCount(before)
    ensures (exists k :: 0 <= k < |before| && before[k] == UNKNOWN && after[k] != UNKNOWN)
            ==> UnknownCount(after) < UnknownCount(before)
  {
    if before != [] {
      assert Extends(before[1..], after[1..]);
      MarkingLowersCount(before[1..], after[1..]);
      if k :| 0 <= k < |before| && before[k] == UNKNOWN && after[k] != UNKNOWN {
        if k > 0 {
          assert before[1..][k - 1] == UNKNOWN && after[1..][k - 1] != UNKNOWN;
        }
      }
    }
  }

  /** Marks are only ever added. */
  ghost predicate Extends(before: seq<int>, after: seq<int>) {
    && |before| == |after|
    && forall k :: 0 <= k < |before| && before[k] != UNKNOWN ==> after[k] == before[k]
  }

  /** What the stack table says the instruction at `i` does to the height. */
  function Effect(code: seq<int>, i: nat): int
    requires i + 1 < |code| || (i < |code| && code[i] == LAST)
  {
    var s := StackTable(code[i]);
    if s == BY_PARAMETER then -code[i + 1] else s
  }

  ghost predicate MarkedAt(marks: seq<int>, k: int, h: int) {
    0 <= k < |marks| && marks[k] == h
  }

  /** The height with which control falls through the instruction at `k`, reached at height `h`. */
  function FallHeight(code: seq<int>, k: nat, h: int): int
    requires k + 1 < |code|
  {
    h + Effect(code, k) - (if code[k] == OBJ_CALL then 1 else 0)
  }

  /** Where control falls through to. */
  function FallCell(code: seq<int>, k: nat): int
    requires k + 1 < |code|
  {
    if code[k] == JUMP_TABLE then k + 2 + code[k + 1] else Next(code, k)
  }

  /** The tests that `neko_check_stack` makes for the instruction at `k` reached at height `h`,
      other than those about the instruction it falls through to. */
  ghost predicate BranchesOk(code: seq<int>, marks: seq<int>, k: nat, h: int)
    requires k < |code| == |marks|
    requires k + 1 < |code| || code[k] == LAST
  {
    var c := code[k];
    var t := h + Effect(code, k);
    && 0 <= t < HEIGHT_LIMIT
    && (c == LAST ==> t == 0)
    && (c != LAST ==>
        var p := code[k + 1];
        && (c == JUMP || c == JUMP_IF || c == JUMP_IF_NOT ==> MarkedAt(marks, p, t))
        && (c == TRAP ==> MarkedAt(marks, p, h) || MarkedAt(marks, p, t))
        && (c == JUMP_TABLE ==>
            && 0 <= p && k + 1 + p < |code| - 1
            && forall j :: 0 <= j < p / 2 ==> code[CaseCell(k, j)] == JUMP && MarkedAt(marks, CaseCell(k, j), t))
        && (c == ACC_STACK || c == SET_STACK ==> 0 <= p < t)
        && (c == ACC_STACK_0 ==> 0 < t)
        && (c == ACC_STACK_1 ==> 1 < t)
        && (c == RET ==> p == t)
        && (c == OBJ_CALL ==> 0 <= t - 1)
        && (c == TAIL_CALL ==> p % 8 <= t && p / 8 == t))
  }

  /** The mark of `k` passes every test, except that the fall-through edge may still be waiting
      for the pending visit of `pc` at height `h`. */
  ghost predicate NodeOk(code: seq<int>, marks: seq<int>, k: nat, pc: int, h: int)
    requires k < |code| == |marks|
    requires k + 1 < |code| || code[k] == LAST
  {
    && 0 <= marks[k] < HEIGHT_LIMIT
    && BranchesOk(code, marks, k, marks[k])
    && (!EndsPath(code[k]) ==>
        var next, down := FallCell(code, k), FallHeight(code, k, marks[k]);
        MarkedAt(marks, next, down) || (next == pc && down == h))
  }

  /** The cell of case `j` of the jump table at `k`. */
  function CaseCell(k: nat, j: nat): nat { k + 2 + 2 * j }

  /** The stack check's verdict on a whole module: every mark belongs to an instruction that
      passes its tests. */
  ghost predicate Verified(code: seq<int>, starts: seq<bool>, marks: seq<int>) {
    && Linked(code, starts) && |marks| == |code|
    && forall k {:trigger NodeOk(code, marks, k, -1, 0)} ::
         0 <= k < |code| && marks[k] != UNKNOWN ==> starts[k] && NodeOk(code, marks, k, -1, 0)
  }

  lemma NodeOkExtends(code: seq<int>, before: seq<int>, after: seq<int>, k: nat, pc: int, h: int)
    requires k < |code| == |before| && Extends(before, after)
    requires k + 1 < |code| || code[k] == LAST
    requires NodeOk(code, before, k, pc, h)
    ensures NodeOk(code, after, k, pc, h)
  {
  }

  /** Every mark added since `before` belongs to an instruction that passes its tests. */
  ghost predicate AddedOk(code: seq<int>, starts: seq<bool>, before: seq<int>, marks: seq<int>, pc: int, h: int)
    requires Linked(code, starts) && |marks| == |before| == |code|
  {
    forall k {:trigger NodeOk(code, marks, k, pc, h)} ::
      0 <= k < |code| && before[k] == UNKNOWN && marks[k] != UNKNOWN ==>
        starts[k] && NodeOk(code, marks, k, pc, h)
  }

  predicate IsCase(code: seq<int>, i: nat, j: nat) {
    CaseCell(i, j) < |code| && code[CaseCell(i, j)] == JUMP
  }

  /** Each entry of a jump table is an instruction start as long as the entries before it are
      jumps, and so is the default branch after the last entry. */
  lemma {:induction false} CasesAreStarts(code: seq<int>, starts: seq<bool>, i: nat, j: nat)
    requires Linked(code, starts)
    requires i + 2 + 2 * j < |code| && starts[i] && code[i] == JUMP_TABLE
    requires forall k :: 0 <= k < j ==> IsCase(code, i, k)
    ensures starts[CaseCell(i, j)]
  {
    assert InstructionOk(code, starts, i);
    if j > 0 {
      CasesAreStarts(code, starts, i, j - 1);
      assert IsCase(code, i, j - 1);
      assert InstructionOk(code, starts, CaseCell(i, j - 1));
    }
  }

  /** Marks added in two stretches: the visit pending after the first has happened in the second. */
  lemma AddedOkThen(code: seq<int>, starts: seq<bool>, before: seq<int>, mid: seq<int>, after: seq<int>,
                    i: int, stack: int, pc: int, h: int)
    requires Linked(code, starts) && |mid| == |before| == |code|
    requires Extends(mid, after)
    requires AddedOk(code, starts, before, mid, i, stack) && (i == -1 || MarkedAt(after, i, stack))
    requires AddedOk(code, starts, mid, after, pc, h)
    ensures AddedOk(code, starts, before, after, pc, h)
  {
    forall k | 0 <= k < |code| && before[k] == UNKNOWN && after[k] != UNKNOWN
      ensures starts[k] && NodeOk(code, after, k, pc, h)
    {
      if mid[k] != UNKNOWN {
        assert NodeOk(code, mid, k, i, stack);
        NodeOkExtends(code, mid, after, k, i, stack);
      } else {
        assert NodeOk(code, after, k, pc, h);
      }
    }
  }

  /** Settling the node at `i`, marked on entry, moves the pending visit past it. */
  lemma StepPast(code: seq<int>, starts: seq<bool>, before: seq<int>, marked: seq<int>, after: seq<int>,
                 i: nat, h: int, pc: int, down: int)
    requires Linked(code, starts) && |before| == |code|
    requires i < |code| && starts[i] && before[i] == UNKNOWN && 0 <= h < HEIGHT_LIMIT && marked == before[i := h]
    requires Extends(marked, after) && AddedOk(code, starts, marked, after, -1, 0)
    requires BranchesOk(code, after, i, h)
    requires !EndsPath(code[i]) ==> pc == FallCell(code, i) && down == FallHeight(code, i, h)
    ensures AddedOk(code, starts, before, after, pc, down)
    ensures UnknownCount(after) < UnknownCount(before)
  {
    MarkingLowersCount(before, after);
    assert before[i] == UNKNOWN && after[i] != UNKNOWN;
    forall k | 0 <= k < |code| && before[k] == UNKNOWN && after[k] != UNKNOWN
      ensures starts[k] && NodeOk(code, after, k, pc, down)
    {
      if k != i {
        assert NodeOk(code, after, k, -1, 0);
      }
    }
  }

  /** The instruction at `k`, reached at height `h`, does not take the height below `istack`. */
  ghost predicate AboveFloor(code: seq<int>, k: nat, h: int, istack: int)
    requires k < |code| && (k + 1 < |code| || code[k] == LAST)
  {
    && istack <= h + Effect(code, k)
    && (k + 1 < |code| && code[k] == OBJ_CALL ==> istack <= FallHeight(code, k, h))
    && (k + 1 < |code| && code[k] == TAIL_CALL ==> istack <= h - code[k + 1] % 8)
  }

  /** The marks added since `before` stay above the floor. */
  ghost predicate FloorKept(code: seq<int>, before: seq<int>, marks: seq<int>, istack: int)
    requires |marks| == |before| == |code| >= 1 && code[|code| - 1] == LAST
  {
    forall k {:trigger AboveFloor(code, k, marks[k], istack)} ::
      0 <= k < |code| && before[k] == UNKNOWN && marks[k] != UNKNOWN ==> AboveFloor(code, k, marks[k], istack)
  }

  lemma FloorKeptThen(code: seq<int>, before: seq<int>, mid: seq<int>, after: seq<int>, istack: int)
    requires |before| == |mid| == |code| >= 1 && code[|code| - 1] == LAST && Extends(mid, after)
    requires FloorKept(code, before, mid, istack) && FloorKept(code, mid, after, istack)
    ensures FloorKept(code, before, after, istack)
  {
    forall k | 0 <= k < |code| && before[k] == UNKNOWN && after[k] != UNKNOWN
      ensures AboveFloor(code, k, after[k], istack)
    {
      if mid[k] != UNKNOWN {
        assert AboveFloor(code, k, mid[k], istack);
      } else {
        assert AboveFloor(code, k, after[k], istack);
      }
    }
  }

  /** `marks` assigns a height to some trap-free code so that every test passes and no height
      drops below `istack`: what the walk looks for. */
  ghost predicate Consistent(code: seq<int>, starts: seq<bool>, marks: seq<int>, istack: int) {
    && Verified(code, starts, marks)
    && forall k {:trigger AboveFloor(code, k, marks[k], istack)} ::
         0 <= k < |code| && marks[k] != UNKNOWN ==> code[k] != TRAP && AboveFloor(code, k, marks[k], istack)
  }

  /** The marks made so far are those of `ideal`. */
  ghost predicate Agrees(marks: seq<int>, ideal: seq<int>) {
    && |marks| == |ideal|
    && forall k :: 0 <= k < |marks| && marks[k] != UNKNOWN ==> marks[k] == ideal[k]
  }

  /** The visit of `i` at height `h` is one that `ideal` foresees. */
  ghost predicate Foreseen(code: seq<int>, starts: seq<bool>, ideal: seq<int>, istack: int, marks: seq<int>,
                           i: int, h: int) {
    Consistent(code, starts, ideal, istack) && Agrees(marks, ideal) && MarkedAt(ideal, i, h) && h != UNKNOWN
  }

  lemma ForeseenNode(code: seq<int>, starts: seq<bool>, ideal: seq<int>, istack: int, marks: seq<int>, i: nat, h: int)
    requires Foreseen(code, starts, ideal, istack, marks, i, h)
    ensures NodeOk(code, ideal, i, -1, 0) && code[i] != TRAP && AboveFloor(code, i, h, istack)
    ensures Agrees(marks[i := h], ideal)
  {
    assert NodeOk(code, ideal, i, -1, 0) && AboveFloor(code, i, h, istack);
  }

  // ------------------------------------------------------------------- the walk

  /** The marks when the walk is over, if it accepts. */
  datatype Marking = Refused | Passed(marks: seq<int>)

  /** The instruction at `i` and its parameter are inside the code. */
  predicate Whole(code: seq<int>, i: int) {
    0 <= i < |code| && (i + 1 < |code| || code[i] == LAST)
  }

  /** What the check may be asked: a height that fits a byte and is not below the floor. */
  predicate Asked(stack: int, istack: int) {
    0 <= istack <= stack <= 0xFF && (stack < HEIGHT_LIMIT || stack == istack)
  }

  function Tested(passes: bool, marks: seq<int>): Marking {
    if passes then Passed(marks) else Refused
  }

  /** The tests that look at no other instruction, with `stack` the height after the effect. */
  predicate PassesAlone(c: int, p: int, stack: int, istack: int) {
    && (c == ACC_STACK || c == SET_STACK ==> p < stack)
    && (c == ACC_STACK_0 ==> 0 < stack)
    && (c == ACC_STACK_1 ==> 1 < stack)
    && (c == RET ==> p == stack)
    && (c == OBJ_CALL ==> istack <= stack - 1)
    && (c == TAIL_CALL ==> istack <= stack - p % 8 && p / 8 == stack)
  }

  /** `neko_check_stack` from the instruction at `i`, reached at height `h`: branches are walked before what
      follows them, so that whether a handler has been marked when its trap is looked at depends on the order. */
  function Walked(code: seq<int>, marks: seq<int>, i: int, h: int, istack: int): (r: Marking)
    requires |marks| == |code|
    ensures r.Passed? ==> Extends(marks, r.marks) && MarkedAt(r.marks, i, h) && h != UNKNOWN
    decreases UnknownCount(marks), 2, 0
  {
    if !Whole(code, i) then Refused
    else if marks[i] != UNKNOWN then Tested(marks[i] == h, marks)
    else if h == UNKNOWN || !(istack <= h + Effect(code, i) < HEIGHT_LIMIT) then Refused
    else
      MarkedLess(marks, i, h);
      var r := WalkedBranches(code, marks[i := h], i, h + Effect(code, i), istack);
      if r.Refused? || EndsPath(code[i]) then r
      else
        MarkingLowersCount(marks[i := h], r.marks);
        Walked(code, r.marks, FallCell(code, i), FallHeight(code, i, h), istack)
  }

  /** The `switch` of the walk. */
  function WalkedBranches(code: seq<int>, marks: seq<int>, i: nat, stack: int, istack: int): (r: Marking)
    requires |marks| == |code| && Whole(code, i)
    ensures r.Passed? ==> Extends(marks, r.marks)
    decreases UnknownCount(marks), 4, 0
  {
    var c := code[i];
    if c == LAST then Tested(stack == 0, marks)
    else
      var p := code[i + 1];
      if IsJump(c) then
        if !(0 <= p < |code|) then Refused
        else if marks[p] != UNKNOWN then Tested(marks[p] == stack, marks)
        else Walked(code, marks, p, if c == TRAP then stack - StackTable(TRAP) else stack, istack)
      else if c == JUMP_TABLE then WalkedCases(code, marks, i, stack, istack, 0)
      else Tested(PassesAlone(c, p, stack, istack), marks)
  }

  /** The entries of the jump table at `i`, from the one with number `j` on. */
  function WalkedCases(code: seq<int>, marks: seq<int>, i: nat, stack: int, istack: int, j: nat): (r: Marking)
    requires |marks| == |code| && i + 1 < |code|
    ensures r.Passed? ==> Extends(marks, r.marks)
    decreases UnknownCount(marks), 3, code[i + 1] / 2 - j
  {
    var k := CaseCell(i, j);
    if j >= code[i + 1] / 2 then Passed(marks)
    else if k >= |code| || code[k] != JUMP then Refused
    else
      var r := Walked(code, marks, k, stack, istack);
      if r.Refused? then r
      else
        MarkingLowersCount(marks, r.marks);
        WalkedCases(code, r.marks, i, stack, istack, j + 1)
  }

  lemma MarkedLess(marks: seq<int>, i: nat, h: int)
    requires i < |marks| && marks[i] == UNKNOWN && h != UNKNOWN
    ensures Extends(marks, marks[i := h]) && UnknownCount(marks[i := h]) < UnknownCount(marks)
  {
    assert marks[i] == UNKNOWN && marks[i := h][i] != UNKNOWN;
    MarkingLowersCount(marks, marks[i := h]);
  }

  /** Whatever the walk has marked passes its tests, and no height has dropped below the floor. */
  lemma {:induction false} WalkedOk(code: seq<int>, starts: seq<bool>, marks: seq<int>, i: int, h: int, istack: int)
    requires Linked(code, starts) && |marks| == |code| && 0 <= i < |code| && starts[i] && Asked(h, istack)
    requires Walked(code, marks, i, h, istack).Passed?
    ensures AddedOk(code, starts, marks, Walked(code, marks, i, h, istack).marks, -1, 0)
    ensures FloorKept(code, marks, Walked(code, marks, i, h, istack).marks, istack)
    decreases UnknownCount(marks), 2, 0
  {
    hide UnknownCount, WalkedBranches, BranchesOk;
    if marks[i] == UNKNOWN {
      var marked := marks[i := h];
      MarkedLess(marks, i, h);
      BranchesWalkedOk(code, starts, marked, i, istack);
      var mid := WalkedBranches(code, marked, i, h + Effect(code, i), istack).marks;
      FloorKeptThen(code, marks, marked, mid, istack);
      if EndsPath(code[i]) {
        StepPast(code, starts, marks, marked, mid, i, h, -1, 0);
      } else {
        FallsOk(code, starts, marks, marked, mid, i, h, istack);
      }
    }
  }

  /** The walk goes on behind the instruction at `i`. */
  lemma {:induction false} FallsOk(code: seq<int>, starts: seq<bool>, marks: seq<int>, marked: seq<int>,
                                   mid: seq<int>, i: nat, h: int, istack: int)
    requires Linked(code, starts) && |marks| == |code| && i < |code| && starts[i] && marks[i] == UNKNOWN
    requires marked == marks[i := h] && 0 <= istack <= h < HEIGHT_LIMIT && !EndsPath(code[i]) && i + 1 < |code|
    requires Extends(marked, mid) && AddedOk(code, starts, marked, mid, -1, 0) && BranchesOk(code, mid, i, h)
    requires FloorKept(code, marks, mid, istack) && Asked(FallHeight(code, i, h), istack)
    requires 0 <= FallCell(code, i) < |code| && starts[FallCell(code, i)]
    requires Walked(code, mid, FallCell(code, i), FallHeight(code, i, h), istack).Passed?
    ensures var r := Walked(code, mid, FallCell(code, i), FallHeight(code, i, h), istack).marks;
      AddedOk(code, starts, marks, r, -1, 0) && FloorKept(code, marks, r, istack)
    decreases UnknownCount(marks), 1, 0
  {
    var pc, down := FallCell(code, i), FallHeight(code, i, h);
    StepPast(code, starts, marks, marked, mid, i, h, pc, down);
    WalkedOk(code, starts, mid, pc, down, istack);
    var r := Walked(code, mid, pc, down, istack).marks;
    AddedOkThen(code, starts, marks, mid, r, pc, down, -1, 0);
    FloorKeptThen(code, marks, mid, r, istack);
  }

  /** Where control falls through to, once the branches have passed. */
  ghost predicate Falls(code: seq<int>, starts: seq<bool>, i: nat, h: int, istack: int)
    requires |starts| == |code| && i < |code|
  {
    !EndsPath(code[i]) ==>
      && i + 1 < |code| && 0 <= FallCell(code, i) < |code| && starts[FallCell(code, i)]
      && istack <= FallHeight(code, i, h) < HEIGHT_LIMIT
  }

  lemma {:induction false} BranchesWalkedOk(code: seq<int>, starts: seq<bool>, marks: seq<int>, i: nat, istack: int)
    requires Linked(code, starts) && |marks| == |code| && i < |code| && starts[i] && Whole(code, i)
    requires 0 <= istack <= marks[i] < HEIGHT_LIMIT && istack <= marks[i] + Effect(code, i) < HEIGHT_LIMIT
    requires WalkedBranches(code, marks, i, marks[i] + Effect(code, i), istack).Passed?
    ensures var r := WalkedBranches(code, marks, i, marks[i] + Effect(code, i), istack).marks;
      && AddedOk(code, starts, marks, r, -1, 0) && FloorKept(code, marks, r, istack)
      && BranchesOk(code, r, i, marks[i])
    ensures AboveFloor(code, i, marks[i], istack) && Falls(code, starts, i, marks[i], istack)
    decreases UnknownCount(marks), 4, 0
  {
    hide Walked, WalkedCases, UnknownCount;
    var c, h := code[i], marks[i];
    assert c != LAST ==> InstructionOk(code, starts, i);
    if c == JUMP_TABLE {
      CasesWalkedOk(code, starts, marks, i, h, istack, 0);
      CasesAreStarts(code, starts, i, code[i + 1] / 2);
    } else if IsJump(c) && marks[code[i + 1]] == UNKNOWN {
      WalkedOk(code, starts, marks, code[i + 1], if c == TRAP then h else h + Effect(code, i), istack);
    }
  }

  lemma {:induction false} CasesWalkedOk(code: seq<int>, starts: seq<bool>, marks: seq<int>, i: nat, stack: int,
                                         istack: int, j: nat)
    requires Linked(code, starts) && |marks| == |code| && i + 1 < |code| && starts[i] && code[i] == JUMP_TABLE
    requires 0 <= istack <= stack < HEIGHT_LIMIT && j <= code[i + 1] / 2
    requires forall k :: 0 <= k < j ==> IsCase(code, i, k)
    requires WalkedCases(code, marks, i, stack, istack, j).Passed?
    ensures var r := WalkedCases(code, marks, i, stack, istack, j).marks;
      && AddedOk(code, starts, marks, r, -1, 0) && FloorKept(code, marks, r, istack)
      && forall k :: j <= k < code[i + 1] / 2 ==> IsCase(code, i, k) && MarkedAt(r, CaseCell(i, k), stack)
    decreases UnknownCount(marks), 3, code[i + 1] / 2 - j
  {
    hide Walked, UnknownCount;
    assert InstructionOk(code, starts, i);
    if j < code[i + 1] / 2 {
      CasesAreStarts(code, starts, i, j);
      WalkedOk(code, starts, marks, CaseCell(i, j), stack, istack);
      var mid := Walked(code, marks, CaseCell(i, j), stack, istack).marks;
      MarkingLowersCount(marks, mid);
      CasesWalkedOk(code, starts, mid, i, stack, istack, j + 1);
      var r := WalkedCases(code, mid, i, stack, istack, j + 1).marks;
      AddedOkThen(code, starts, marks, mid, r, -1, 0, -1, 0);
      FloorKeptThen(code, marks, mid, r, istack);
    }
  }

  /** On code without traps the walk passes whenever some assignment foresees it, and marks what it assigns. */
  lemma {:induction false} WalkedForeseen(code: seq<int>, starts: seq<bool>, ideal: seq<int>, marks: seq<int>,
                                          i: int, h: int, istack: int)
    requires Foreseen(code, starts, ideal, istack, marks, i, h)
    ensures var r := Walked(code, marks, i, h, istack); r.Passed? && Agrees(r.marks, ideal)
    decreases UnknownCount(marks), 2, 0
  {
    ForeseenNode(code, starts, ideal, istack, marks, i, h);
    if marks[i] == UNKNOWN {
      var marked := marks[i := h];
      MarkedLess(marks, i, h);
      BranchesForeseen(code, starts, ideal, marked, i, istack);
      if !EndsPath(code[i]) {
        var mid := WalkedBranches(code, marked, i, h + Effect(code, i), istack).marks;
        MarkingLowersCount(marked, mid);
        WalkedForeseen(code, starts, ideal, mid, FallCell(code, i), FallHeight(code, i, h), istack);
      }
    }
  }

  lemma {:induction false} BranchesForeseen(code: seq<int>, starts: seq<bool>, ideal: seq<int>, marks: seq<int>,
                                            i: nat, istack: int)
    requires |marks| == |code| && Whole(code, i) && Foreseen(code, starts, ideal, istack, marks, i, marks[i])
    ensures var r := WalkedBranches(code, marks, i, marks[i] + Effect(code, i), istack);
      r.Passed? && Agrees(r.marks, ideal)
    decreases UnknownCount(marks), 4, 0
  {
    var c, h := code[i], marks[i];
    ForeseenNode(code, starts, ideal, istack, marks, i, h);
    assert c != LAST ==> InstructionOk(code, starts, i);
    if c == JUMP_TABLE {
      CasesForeseen(code, starts, ideal, marks, i, h, istack, 0);
    } else if IsJump(c) && marks[code[i + 1]] == UNKNOWN {
      WalkedForeseen(code, starts, ideal, marks, code[i + 1], h + Effect(code, i), istack);
    }
  }

  lemma {:induction false} CasesForeseen(code: seq<int>, starts: seq<bool>, ideal: seq<int>, marks: seq<int>,
                                         i: nat, stack: int, istack: int, j: nat)
    requires Consistent(code, starts, ideal, istack) && Agrees(marks, ideal) && i + 1 < |code|
    requires starts[i] && MarkedAt(ideal, i, stack) && stack != UNKNOWN && code[i] == JUMP_TABLE
    ensures var r := WalkedCases(code, marks, i, stack, istack, j); r.Passed? && Agrees(r.marks, ideal)
    decreases UnknownCount(marks), 3, code[i + 1] / 2 - j
  {
    hide Walked, UnknownCount;
    assert NodeOk(code, ideal, i, -1, 0) && InstructionOk(code, starts, i);
    if j < code[i + 1] / 2 {
      assert code[CaseCell(i, j)] == JUMP && MarkedAt(ideal, CaseCell(i, j), stack);
      WalkedForeseen(code, starts, ideal, marks, CaseCell(i, j), stack, istack);
      var mid := Walked(code, marks, CaseCell(i, j), stack, istack).marks;
      MarkingLowersCount(marks, mid);
      CasesForeseen(code, starts, ideal, mid, i, stack, istack, j + 1);
    }
  }

  // ------------------------------------------------------------------- the walk in place

  /** How one visit of the walk ends. */
  datatype Verdict = Reject | Accept | FallsTo(pc: int, height: int)

  /** `neko_check_stack`: walk the code from `i0` at height `stack0`, never letting the height
      drop below `istack`. */
  method CheckStack(code: seq<int>, ghost starts: seq<bool>, tmp: array<int>, i0: nat, stack0: int, istack: int)
    returns (ok: bool)
    requires Linked(code, starts) && tmp.Length == |code| && i0 < |code| && starts[i0] && Asked(stack0, istack)
    modifies tmp
    ensures ok <==> Walked(code, old(tmp[..]), i0, stack0, istack).Passed?
    ensures ok ==> tmp[..] == Walked(code, old(tmp[..]), i0, stack0, istack).marks
    ensures ok ==> AddedOk(code, starts, old(tmp[..]), tmp[..], -1, 0)
    ensures ok ==> FloorKept(code, old(tmp[..]), tmp[..], istack)
    ensures Extends(old(tmp[..]), tmp[..])
    decreases UnknownCount(tmp[..]), 3
  {
    var i, stack := i0, stack0;
    ghost var before := tmp[..];
    while true
      invariant 0 <= i < |code| && starts[i] && Asked(stack, istack)
      invariant Extends(before, tmp[..]) && UnknownCount(tmp[..]) <= UnknownCount(before)
      invariant Walked(code, tmp[..], i, stack, istack) == Walked(code, before, i0, stack0, istack)
      decreases UnknownCount(tmp[..])
    {
      var verdict := Visit(code, starts, tmp, i, stack, istack);
      match verdict
      case Reject => return false;
      case Accept =>
        WalkedOk(code, starts, before, i0, stack0, istack);
        return true;
      case FallsTo(pc, height) => i, stack := pc, height;
    }
  }

  /** One round of the walk: mark the instruction at `i` and make its tests. */
  method Visit(code: seq<int>, ghost starts: seq<bool>, tmp: array<int>, i: nat, stack: int, istack: int)
    returns (verdict: Verdict)
    requires Linked(code, starts) && tmp.Length == |code| && i < |code| && starts[i] && Asked(stack, istack)
    modifies tmp
    ensures Extends(old(tmp[..]), tmp[..])
    ensures var whole := Walked(code, old(tmp[..]), i, stack, istack);
      match verdict
      case Reject => whole == Refused
      case Accept => whole == Passed(tmp[..])
      case FallsTo(pc, height) =>
        && UnknownCount(tmp[..]) < UnknownCount(old(tmp[..]))
        && 0 <= pc < |code| && starts[pc] && Asked(height, istack)
        && whole == Walked(code, tmp[..], pc, height, istack)
    decreases UnknownCount(tmp[..]), 2
  {
    ghost var before := tmp[..];
    var c := code[i];
    assert c != LAST ==> InstructionOk(code, starts, i);
    if tmp[i] != UNKNOWN {
      return if tmp[i] == stack then Accept else Reject;
    }
    tmp[i] := stack;
    assert tmp[..] == before[i := stack];
    var after := if StackTable(c) == BY_PARAMETER then stack - code[i + 1] else stack + StackTable(c);
    if after < istack || after >= HEIGHT_LIMIT {
      return Reject;
    }
    MarkedLess(before, i, stack);
    var ok := CheckBranches(code, starts, tmp, i, stack, istack);
    if !ok {
      return Reject;
    }
    MarkingLowersCount(before[i := stack], tmp[..]);
    if c == JUMP || c == LAST || c == RET || c == TAIL_CALL {
      return Accept;
    }
    return FallsTo(FallCell(code, i), FallHeight(code, i, stack));
  }

  /** The `switch` of the walk: the tests for the instruction at `i`, with `stack` the height
      after its effect. Branch targets not yet reached are walked first. */
  method CheckBranches(code: seq<int>, ghost starts: seq<bool>, tmp: array<int>, i: nat, h: int, istack: int)
    returns (ok: bool)
    requires Linked(code, starts) && tmp.Length == |code| && i < |code| && starts[i] && Whole(code, i) && tmp[i] == h
    requires 0 <= istack <= h < HEIGHT_LIMIT && istack <= h + Effect(code, i) < HEIGHT_LIMIT
    modifies tmp
    ensures Extends(old(tmp[..]), tmp[..])
    ensures ok <==> WalkedBranches(code, old(tmp[..]), i, h + Effect(code, i), istack).Passed?
    ensures ok ==> tmp[..] == WalkedBranches(code, old(tmp[..]), i, h + Effect(code, i), istack).marks
    ensures ok ==> Falls(code, starts, i, h, istack)
    decreases UnknownCount(tmp[..]), 4, 1
  {
    hide Walked, WalkedCases, AddedOk, FloorKept, BranchesOk, AboveFloor, UnknownCount;
    ghost var before := tmp[..];
    var c, stack := code[i], h + Effect(code, i);
    assert c != LAST ==> InstructionOk(code, starts, i);
    if c == JUMP || c == JUMP_IF || c == JUMP_IF_NOT || c == TRAP {
      var target := code[i + 1];
      if tmp[target] == UNKNOWN {
        ok := CheckStack(code, starts, tmp, target, if c == TRAP then stack - 6 else stack, istack);
      } else {
        ok := tmp[target] == stack;
      }
    } else if c == JUMP_TABLE {
      ok := CheckCases(code, starts, tmp, i, stack, istack);
    } else if c == ACC_STACK || c == SET_STACK {
      ok := code[i + 1] < stack;
    } else if c == ACC_STACK_0 {
      ok := 0 < stack;
    } else if c == ACC_STACK_1 {
      ok := 1 < stack;
    } else if c == LAST {
      ok := stack == 0;
    } else if c == RET {
      ok := code[i + 1] == stack;
    } else if c == OBJ_CALL {
      ok := istack <= stack - 1;
    } else if c == TAIL_CALL {
      ok := istack <= stack - code[i + 1] % 8 && code[i + 1] / 8 == stack;
    } else {
      ok := true;
    }
    if ok {
      BranchesWalkedOk(code, starts, before, i, istack);
    }
  }

  /** The entries of the jump table at `i`: each must be a jump, and is walked at height `stack`. */
  method CheckCases(code: seq<int>, ghost starts: seq<bool>, tmp: array<int>, i: nat, stack: int, istack: int)
    returns (ok: bool)
    requires Linked(code, starts) && tmp.Length == |code| && i < |code| - 1 && starts[i] && code[i] == JUMP_TABLE
    requires 0 <= istack <= stack < HEIGHT_LIMIT
    modifies tmp
    ensures Extends(old(tmp[..]), tmp[..])
    ensures ok <==> WalkedCases(code, old(tmp[..]), i, stack, istack, 0).Passed?
    ensures ok ==> tmp[..] == WalkedCases(code, old(tmp[..]), i, stack, istack, 0).marks
    ensures ok ==> forall j :: 0 <= j < code[i + 1] / 2 ==>
      IsCase(code, i, j) && MarkedAt(tmp[..], CaseCell(i, j), stack)
    decreases UnknownCount(tmp[..]), 4, 0
  {
    hide Walked, UnknownCount, AddedOk, FloorKept;
    ghost var before := tmp[..];
    assert InstructionOk(code, starts, i);
    var itmp := code[i + 1];
    var end := i + itmp;
    ghost var done := 0;
    while itmp > 0
      invariant 0 <= done && itmp == code[i + 1] - 2 * done && itmp >= 0
      invariant Extends(before, tmp[..]) && UnknownCount(tmp[..]) <= UnknownCount(before)
      invariant forall j :: 0 <= j < done ==> IsCase(code, i, j)
      invariant WalkedCases(code, tmp[..], i, stack, istack, done) == WalkedCases(code, before, i, stack, istack, 0)
    {
      ghost var mid := tmp[..];
      itmp := itmp - 2;
      assert end - itmp == CaseCell(i, done);
      CasesAreStarts(code, starts, i, done);
      if code[end - itmp] != JUMP {
        return false;
      }
      var walked := CheckStack(code, starts, tmp, end - itmp, stack, istack);
      if !walked {
        return false;
      }
      MarkingLowersCount(mid, tmp[..]);
      done := done + 1;
    }
    CasesWalkedOk(code, starts, before, i, stack, istack, 0);
    return true;
  }

  /** No instruction has been reached. */
  function Unmarked(n: nat): (marks: seq<int>)
    ensures |marks| == n && forall k :: 0 <= k < n ==> marks[k] == UNKNOWN
  {
    seq(n, _ => UNKNOWN)
  }

  /** What has been marked from the start is verified. */
  lemma FreshVerified(code: seq<int>, starts: seq<bool>, marks: seq<int>)
    requires Linked(code, starts) && |marks| == |code| && AddedOk(code, starts, Unmarked(|code|), marks, -1, 0)
    ensures Verified(code, starts, marks)
  {
    forall k | 0 <= k < |code| && marks[k] != UNKNOWN
      ensures starts[k] && NodeOk(code, marks, k, -1, 0)
    {
      assert Unmarked(|code|)[k] == UNKNOWN;
      assert NodeOk(code, marks, k, -1, 0);
    }
  }

  /** No instruction sets a trap. */
  predicate TrapFree(code: seq<int>, starts: seq<bool>)
    requires |code| == |starts|
  {
    forall k :: 0 <= k < |code| && starts[k] ==> code[k] != TRAP
  }

  lemma FreshIsConsistent(code: seq<int>, starts: seq<bool>, marks: seq<int>, istack: int)
    requires Linked(code, starts) && |marks| == |code|
    requires TrapFree(code, starts)
    requires AddedOk(code, starts, Unmarked(|code|), marks, -1, 0) && FloorKept(code, Unmarked(|code|), marks, istack)
    ensures Consistent(code, starts, marks, istack)
  {
    FreshVerified(code, starts, marks);
    forall k | 0 <= k < |code| && marks[k] != UNKNOWN
      ensures code[k] != TRAP && AboveFloor(code, k, marks[k], istack)
    {
      assert NodeOk(code, marks, k, -1, 0);
      assert Unmarked(|code|)[k] == UNKNOWN && AboveFloor(code, k, marks[k], istack);
    }
  }

  /** The walk on a fresh mark table. On code without traps it decides exactly whether heights can be assigned
      at all; what it finds is such an assignment. */
  lemma FreshWalk(code: seq<int>, starts: seq<bool>, i0: nat, nargs: nat)
    requires Linked(code, starts) && i0 < |code| && starts[i0] && nargs < HEIGHT_LIMIT
    ensures var r := Walked(code, Unmarked(|code|), i0, nargs, nargs);
      && (r.Passed? ==> Verified(code, starts, r.marks) && MarkedAt(r.marks, i0, nargs))
      && (TrapFree(code, starts) ==>
            (r.Passed? <==> exists ideal :: Consistent(code, starts, ideal, nargs) && MarkedAt(ideal, i0, nargs)))
  {
    var none := Unmarked(|code|);
    var r := Walked(code, none, i0, nargs, nargs);
    if r.Passed? {
      WalkedOk(code, starts, none, i0, nargs, nargs);
      FreshVerified(code, starts, r.marks);
      if TrapFree(code, starts) {
        FreshIsConsistent(code, starts, r.marks, nargs);
      }
    }
    if ideal :| Consistent(code, starts, ideal, nargs) && MarkedAt(ideal, i0, nargs) {
      WalkedForeseen(code, starts, ideal, none, i0, nargs, nargs);
    }
  }

  /** The check of one function, with its own mark table. */
  method CheckFresh(code: seq<int>, ghost starts: seq<bool>, i0: nat, nargs: nat) returns (ok: bool, marks: seq<int>)
    requires Linked(code, starts) && i0 < |code| && starts[i0] && nargs < HEIGHT_LIMIT
    ensures ok <==> Walked(code, Unmarked(|code|), i0, nargs, nargs).Passed?
    ensures ok ==> marks == Walked(code, Unmarked(|code|), i0, nargs, nargs).marks
    ensures ok ==> Verified(code, starts, marks) && MarkedAt(marks, i0, nargs)
    ensures TrapFree(code, starts) ==>
      (ok <==> exists ideal :: Consistent(code, starts, ideal, nargs) && MarkedAt(ideal, i0, nargs))
  {
    var stmp := new int[|code|](_ => UNKNOWN);
    assert stmp[..] == Unmarked(|code|);
    FreshWalk(code, starts, i0, nargs);
    ok := CheckStack(code, starts, stmp, i0, nargs, nargs);
    marks := stmp[..];
  }
}
