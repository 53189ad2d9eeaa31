/** What the labels are for: code that the stack check accepts and no labels protect, each with a run from its
    entry that goes wrong, and code that labels protect and the check refuses. */
module TrapWitnesses {
  import opened Opcodes
  import opened StackCheck
  import opened FrameMachine
  import opened FrameSafety

  /** What an unsafe run shows about the code: no labels that start without a record protect it. */
  lemma UnsafeRun(code: seq<int>, starts: seq<bool>, marks: seq<int>, labels: Labels, states: seq<State>,
                  events: seq<Event>, e: Event)
    requires Verified(code, starts, marks) && Run(code, 0, states, events) && AllGiveBack(states, events)
    requires states[0].pc == 0 && states[0].stack == [] && states[0].trap == 0 && MarkedAt(marks, 0, 0)
    requires |labels| == |code| && labels[0] == [] && GivesBack(states[|events|], e)
    requires !SafeOutcome(marks, labels, 0, 0, states[|events|], Step(code, 0, states[|events|], e))
    ensures !Protected(code, starts, marks, labels)
  {
    if Protected(code, starts, marks, labels) {
      RunSafe(code, starts, marks, labels, 0, states, events, |events|, e);
    }
  }

  function Quiet(trap: int): Event {
    Yields(Plain(Null), trap)
  }

  // Two traps share the handler at cell 6. The walk reaches that cell first as the body of the
  // trap at 4, at height 6, and then finds the mark it expects when it checks the trap at 9.
  const SHARED_HANDLER: seq<int> := [JUMP_IF, 4, JUMP, 9, TRAP, 13, END_TRAP, JUMP, 13, TRAP, 6, HASH, END_TRAP, LAST]
  const SHARED_STARTS: seq<bool> :=
    [true, false, true, false, true, false, true, true, false, true, false, true, true, true]
  const SHARED_MARKS: seq<int> :=
    [0, UNKNOWN, 0, UNKNOWN, 0, UNKNOWN, 6, 0, UNKNOWN, 0, UNKNOWN, 6, 6, 0]

  lemma SharedHandlerLinked()
    ensures Linked(SHARED_HANDLER, SHARED_STARTS)
  {
    assert forall i :: 0 <= i < 13 && SHARED_STARTS[i] ==> InstructionOk(SHARED_HANDLER, SHARED_STARTS, i);
  }

  lemma SharedHandlerVerified()
    ensures Verified(SHARED_HANDLER, SHARED_STARTS, SHARED_MARKS)
  {
    SharedHandlerLinked();
    forall k | 0 <= k < 14 && SHARED_MARKS[k] != UNKNOWN
      ensures SHARED_STARTS[k] && NodeOk(SHARED_HANDLER, SHARED_MARKS, k, -1, 0)
    {
      SharedNode(k);
    }
  }

  lemma SharedNode(k: nat)
    requires k < 14 && SHARED_MARKS[k] != UNKNOWN
    ensures SHARED_STARTS[k] && NodeOk(SHARED_HANDLER, SHARED_MARKS, k, -1, 0)
  {
    assert k in {0, 2, 4, 6, 7, 9, 11, 12, 13};
  }

  /** The body of the first trap, and the second one. */
  lemma SharedFirstTrap(m: seq<int>, rest: seq<int>)
    requires |m| == 14 && m[6] == m[7] == UNKNOWN && m[13] == 0 && rest == m[6 := 6][7 := 0]
    ensures Walked(SHARED_HANDLER, m, 6, 6, 0) == Passed(rest)
  {
    assert Walked(SHARED_HANDLER, m[6 := 6], 7, 0, 0) == Passed(rest);
  }

  lemma SharedSecondTrap(m: seq<int>)
    requires |m| == 14 && m[6] == 6 && m[13] == 0
    requires m[2] == m[9] == m[11] == m[12] == UNKNOWN
    ensures Walked(SHARED_HANDLER, m[2 := 0], 9, 0, 0) == Passed(m[2 := 0][9 := 0][11 := 6][12 := 6])
  {
    var body := m[2 := 0][9 := 0];
    assert Walked(SHARED_HANDLER, body[11 := 6][12 := 6], 13, 0, 0) == Passed(body[11 := 6][12 := 6]);
    assert Walked(SHARED_HANDLER, body[11 := 6], 12, 6, 0) == Passed(body[11 := 6][12 := 6]);
    assert Walked(SHARED_HANDLER, body, 11, 6, 0) == Passed(body[11 := 6][12 := 6]);
  }

  /** The walk: first the branch with the first trap, then the other one. */
  lemma SharedWalk()
    ensures Walked(SHARED_HANDLER, Unmarked(14), 0, 0, 0) == Passed(SHARED_MARKS)
  {
    var m := Unmarked(14)[0 := 0];
    var rest := m[4 := 0][13 := 0][6 := 6][7 := 0];
    SharedBranch(m, rest);
    SharedOther(rest);
    assert rest[2 := 0][9 := 0][11 := 6][12 := 6] == SHARED_MARKS;
  }

  lemma SharedOther(m: seq<int>)
    requires |m| == 14 && m[6] == 6 && m[13] == 0
    requires m[2] == m[9] == m[11] == m[12] == UNKNOWN
    ensures Walked(SHARED_HANDLER, m, 2, 0, 0) == Passed(m[2 := 0][9 := 0][11 := 6][12 := 6])
  {
    SharedSecondTrap(m);
  }

  lemma SharedBranch(m: seq<int>, rest: seq<int>)
    requires |m| == 14 && m[4] == m[6] == m[7] == m[13] == UNKNOWN
    requires rest == m[4 := 0][13 := 0][6 := 6][7 := 0]
    ensures Walked(SHARED_HANDLER, m, 4, 0, 0) == Passed(rest)
  {
    SharedFirstTrap(m[4 := 0][13 := 0], rest);
    assert Walked(SHARED_HANDLER, m[4 := 0], 13, 0, 0) == Passed(m[4 := 0][13 := 0]);
  }

  /** The states of a run through the second trap. */
  const SHARED_RUN: seq<State> :=
    [State(0, Plain(Null), [], 0), State(2, Plain(Null), [], 0), State(9, Plain(Null), [], 0),
     State(11, Plain(Null), TrapRecord(6, 0), 6), State(6, Plain(Null), [], 0)]

  const SHARED_EVENTS: seq<Event> := [Quiet(0), Quiet(0), Quiet(0), Throws(Plain(Null), 6)]

  lemma SharedStep(i: nat)
    requires i < 4
    ensures Step(SHARED_HANDLER, 0, SHARED_RUN[i], SHARED_EVENTS[i]) == Running(SHARED_RUN[i + 1])
  {
    if i == 2 {
      assert [] + TrapRecord(6, 0) == TrapRecord(6, 0);
    }
  }

  lemma SharedRuns()
    ensures Run(SHARED_HANDLER, 0, SHARED_RUN, SHARED_EVENTS) && AllGiveBack(SHARED_RUN, SHARED_EVENTS)
  {
    forall i {:trigger SHARED_EVENTS[i]} | 0 <= i < |SHARED_EVENTS|
      ensures Step(SHARED_HANDLER, 0, SHARED_RUN[i], SHARED_EVENTS[i]) == Running(SHARED_RUN[i + 1])
    {
      SharedStep(i);
    }
  }

  lemma SharedFaults()
    ensures SHARED_MARKS[SHARED_RUN[4].pc] == |SHARED_RUN[4].stack| + 6
    ensures Step(SHARED_HANDLER, 0, SHARED_RUN[4], Quiet(0)).Fault?
  {
  }

  /** Code that the check accepts, yet an exception reaches its handler six words below the
      handler's mark, and the handler's first instruction reaches below the frame. */
  lemma SharedHandlerMisleads(labels: Labels)
    ensures Linked(SHARED_HANDLER, SHARED_STARTS)
    ensures Walked(SHARED_HANDLER, Unmarked(14), 0, 0, 0) == Passed(SHARED_MARKS)
    ensures Verified(SHARED_HANDLER, SHARED_STARTS, SHARED_MARKS)
    ensures Run(SHARED_HANDLER, 0, SHARED_RUN, SHARED_EVENTS) && AllGiveBack(SHARED_RUN, SHARED_EVENTS)
    ensures SHARED_MARKS[SHARED_RUN[4].pc] == |SHARED_RUN[4].stack| + 6
    ensures Step(SHARED_HANDLER, 0, SHARED_RUN[4], Quiet(0)).Fault?
    ensures LabelAt(labels, 0, []) && |labels| == 14 ==>
      !Protected(SHARED_HANDLER, SHARED_STARTS, SHARED_MARKS, labels)
  {
    hide Walked;
    SharedHandlerVerified();
    SharedWalk();
    SharedRuns();
    SharedFaults();
    if LabelAt(labels, 0, []) && |labels| == 14 {
      UnsafeRun(SHARED_HANDLER, SHARED_STARTS, SHARED_MARKS, labels, SHARED_RUN, SHARED_EVENTS, Quiet(0));
    }
  }

  // A frame that writes `acc` over the handler's address in its own trap record.
  const OVERWRITER: seq<int> := [TRAP, 6, SET_STACK, 3, HASH, END_TRAP, LAST]
  const OVERWRITER_STARTS: seq<bool> := [true, false, true, false, true, true, true]
  const OVERWRITER_MARKS: seq<int> := [0, UNKNOWN, 6, UNKNOWN, 6, 6, 0]
  const OVERWRITER_RUN: seq<State> :=
    [State(0, Plain(Null), [], 0), State(2, Plain(Null), TrapRecord(6, 0), 6),
     State(4, Plain(Null), TrapRecord(6, 0)[2 := Plain(Null)], 6)]

  lemma OverwriterVerified()
    ensures Verified(OVERWRITER, OVERWRITER_STARTS, OVERWRITER_MARKS)
  {
    assert forall i :: 0 <= i < 6 && OVERWRITER_STARTS[i] ==> InstructionOk(OVERWRITER, OVERWRITER_STARTS, i);
    forall k | 0 <= k < 7 && OVERWRITER_MARKS[k] != UNKNOWN
      ensures NodeOk(OVERWRITER, OVERWRITER_MARKS, k, -1, 0)
    {
      OverwriterNode(k);
    }
  }

  lemma OverwriterNode(k: nat)
    requires k < 7 && OVERWRITER_MARKS[k] != UNKNOWN
    ensures NodeOk(OVERWRITER, OVERWRITER_MARKS, k, -1, 0)
  {
    assert k in {0, 2, 4, 5, 6};
  }

  lemma OverwriterWalk()
    ensures Walked(OVERWRITER, Unmarked(7), 0, 0, 0) == Passed(OVERWRITER_MARKS)
  {
    var body := Unmarked(7)[0 := 0][6 := 0];
    assert Walked(OVERWRITER, Unmarked(7)[0 := 0], 6, 0, 0) == Passed(body);
    assert Walked(OVERWRITER, body[2 := 6][4 := 6], 5, 6, 0) == Passed(OVERWRITER_MARKS);
    assert Walked(OVERWRITER, body[2 := 6], 4, 6, 0) == Passed(OVERWRITER_MARKS);
    assert Walked(OVERWRITER, body, 2, 6, 0) == Passed(OVERWRITER_MARKS);
  }

  /** The stack check knows heights, not which words are trap records: an accepted frame can break its own
      record, and then an exception has no handler to go to. */
  lemma RecordsAreUnprotected(labels: Labels)
    ensures Linked(OVERWRITER, OVERWRITER_STARTS)
    ensures Walked(OVERWRITER, Unmarked(7), 0, 0, 0) == Passed(OVERWRITER_MARKS)
    ensures Verified(OVERWRITER, OVERWRITER_STARTS, OVERWRITER_MARKS)
    ensures Run(OVERWRITER, 0, OVERWRITER_RUN, [Quiet(0), Quiet(6)])
    ensures AllGiveBack(OVERWRITER_RUN, [Quiet(0), Quiet(6)])
    ensures Step(OVERWRITER, 0, OVERWRITER_RUN[2], Throws(Plain(Null), 6)).Fault?
    ensures LabelAt(labels, 0, []) && |labels| == 7 ==>
      !Protected(OVERWRITER, OVERWRITER_STARTS, OVERWRITER_MARKS, labels)
  {
    hide Walked;
    OverwriterVerified();
    OverwriterWalk();
    var events := [Quiet(0), Quiet(6)];
    assert [] + TrapRecord(6, 0) == TrapRecord(6, 0);
    assert Step(OVERWRITER, 0, OVERWRITER_RUN[0], events[0]) == Running(OVERWRITER_RUN[1]);
    assert Step(OVERWRITER, 0, OVERWRITER_RUN[1], events[1]) == Running(OVERWRITER_RUN[2]);
    assert Run(OVERWRITER, 0, OVERWRITER_RUN, events);
    if LabelAt(labels, 0, []) && |labels| == 7 {
      UnsafeRun(OVERWRITER, OVERWRITER_STARTS, OVERWRITER_MARKS, labels, OVERWRITER_RUN, events,
        Throws(Plain(Null), 6));
    }
  }

  // A function that returns with its trap still set.
  const LEAVER: seq<int> := [TRAP, 4, RET, 6, LAST]
  const LEAVER_STARTS: seq<bool> := [true, false, true, false, true]
  const LEAVER_MARKS: seq<int> := [0, UNKNOWN, 6, UNKNOWN, 0]
  const LEAVER_RUN: seq<State> := [State(0, Plain(Null), [], 0), State(2, Plain(Null), TrapRecord(4, 0), 6)]

  lemma LeaverVerified()
    ensures Verified(LEAVER, LEAVER_STARTS, LEAVER_MARKS)
  {
    assert forall i :: 0 <= i < 4 && LEAVER_STARTS[i] ==> InstructionOk(LEAVER, LEAVER_STARTS, i);
    assert forall k :: 0 <= k < 5 && LEAVER_MARKS[k] != UNKNOWN ==> NodeOk(LEAVER, LEAVER_MARKS, k, -1, 0);
  }

  lemma LeaverWalk()
    ensures Walked(LEAVER, Unmarked(5), 0, 0, 0) == Passed(LEAVER_MARKS)
  {
    var body := Unmarked(5)[0 := 0][4 := 0];
    assert Walked(LEAVER, Unmarked(5)[0 := 0], 4, 0, 0) == Passed(body);
    assert Walked(LEAVER, body, 2, 6, 0) == Passed(LEAVER_MARKS);
  }

  /** An accepted function can return with the trap above the stack of its caller, whose next exception then
      finds an invalid one. */
  lemma TrapsCanBeLeftBehind(labels: Labels)
    ensures Linked(LEAVER, LEAVER_STARTS)
    ensures Walked(LEAVER, Unmarked(5), 0, 0, 0) == Passed(LEAVER_MARKS)
    ensures Verified(LEAVER, LEAVER_STARTS, LEAVER_MARKS)
    ensures Run(LEAVER, 0, LEAVER_RUN, [Quiet(0)]) && AllGiveBack(LEAVER_RUN, [Quiet(0)])
    ensures Step(LEAVER, 0, LEAVER_RUN[1], Quiet(6)) == Returned([], 6)
    ensures Raise(0, State(0, Plain(Null), [], 6), Plain(Null)).InvalidTrap?
    ensures LabelAt(labels, 0, []) && |labels| == 5 ==> !Protected(LEAVER, LEAVER_STARTS, LEAVER_MARKS, labels)
  {
    hide Walked;
    LeaverVerified();
    LeaverWalk();
    assert [] + TrapRecord(4, 0) == TrapRecord(4, 0);
    assert Step(LEAVER, 0, LEAVER_RUN[0], [Quiet(0)][0]) == Running(LEAVER_RUN[1]);
    assert Run(LEAVER, 0, LEAVER_RUN, [Quiet(0)]);
    if LabelAt(labels, 0, []) && |labels| == 5 {
      UnsafeRun(LEAVER, LEAVER_STARTS, LEAVER_MARKS, labels, LEAVER_RUN, [Quiet(0)], Quiet(6));
    }
  }

  // Two traps, one after the other, with the same handler at the same height.
  const REUSER: seq<int> := [TRAP, 6, END_TRAP, TRAP, 6, END_TRAP, LAST]
  const REUSER_STARTS: seq<bool> := [true, false, true, true, false, true, true]
  const REUSER_MARKS: seq<int> := [0, UNKNOWN, 6, 0, UNKNOWN, 6, 0]
  const REUSER_LABELS: Labels := [[], [], [6], [], [], [6], []]

  lemma ReuserVerified()
    ensures Verified(REUSER, REUSER_STARTS, REUSER_MARKS)
  {
    assert forall i :: 0 <= i < 6 && REUSER_STARTS[i] ==> InstructionOk(REUSER, REUSER_STARTS, i);
    forall k | 0 <= k < 7 && REUSER_MARKS[k] != UNKNOWN
      ensures NodeOk(REUSER, REUSER_MARKS, k, -1, 0)
    {
      assert k in {0, 2, 3, 5, 6};
    }
  }

  /** A handler that has been marked at its own height is compared with the height inside the trap: safe code is
      refused, because its second trap is looked at after its handler has been walked. */
  lemma SafeButRefused()
    ensures Verified(REUSER, REUSER_STARTS, REUSER_MARKS)
    ensures Protected(REUSER, REUSER_STARTS, REUSER_MARKS, REUSER_LABELS)
    ensures Walked(REUSER, Unmarked(7), 0, 0, 0) == Refused
  {
    ReuserVerified();
    forall k | 0 <= k < 7 && REUSER_MARKS[k] != UNKNOWN
      ensures Stacked(REUSER_LABELS[k], REUSER_MARKS[k]) && ProtectedAt(REUSER, REUSER_MARKS, REUSER_LABELS, k)
    {
      assert k in {0, 2, 3, 5, 6};
    }
    var body := Unmarked(7)[0 := 0][6 := 0];
    assert Walked(REUSER, Unmarked(7)[0 := 0], 6, 0, 0) == Passed(body);
    assert Walked(REUSER, body[2 := 6], 3, 0, 0) == Refused;
    assert Walked(REUSER, body, 2, 6, 0) == Refused;
  }
}
