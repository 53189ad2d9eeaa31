/** Frames that call frames. In code whose modules are all verified and protected, every activation gives
    the trap back that was set when it was entered, so that no frame has to rely on its callees. */
module Activations {
  import opened Opcodes
  import opened StackCheck
  import opened FrameMachine
  import opened FrameSafety

  datatype Module = Module(code: seq<int>, starts: seq<bool>, marks: seq<int>, labels: Labels)

  /** Where a step's event comes from: its data and native code, or a function that was called, the
      functions that this one called in its place, and what came back, a result or an exception. The last
      of them may have called native code in its place. */
  datatype Origin =
    | Native(e: Event)
    | Called(chain: seq<Activation>, value: Word)
    | CalledNative(chain: seq<Activation>, e: Event)

  /** How the last function of a chain ends: by itself, or in a tail call of native code. */
  datatype Last = ByItself | InNative(e: Event)

  /** One frame, from its entry to the step that ends it. */
  datatype Activation = Activation(m: Module, base: nat, states: seq<State>, origins: seq<Origin>, last: Origin)

  /** How the frame ends. */
  function Ending(a: Activation): Outcome
    decreases a, 1
  {
    if a.states == [] then Fault
    else Step(a.m.code, a.base, a.states[|a.states| - 1], EventOf(a.last, a.states[|a.states| - 1]))
  }

  function EventOf(origin: Origin, s: State): Event
    decreases origin, 0
  {
    match origin
    case Native(e) => e
    case CalledNative(_, e) => e
    case Called(chain, value) =>
      if chain == [] then Yields(value, s.trap)
      else
        match Ending(chain[|chain| - 1])
        case Returned(_, trap) => Yields(value, trap)
        case Unwound(trap) => Throws(value, trap)
        case _ => Yields(value, s.trap)
  }

  ghost predicate Sound(m: Module) {
    Verified(m.code, m.starts, m.marks) && Protected(m.code, m.starts, m.marks, m.labels)
  }

  /** A function's first cell: its arguments are the frame, and no record of it is live. */
  ghost predicate AtEntry(m: Module, base: nat, s: State) {
    && base <= |s.stack| < base + HEIGHT_LIMIT && MarkedAt(m.marks, s.pc, |s.stack| - base)
    && |m.labels| == |m.marks| && LabelAt(m.labels, s.pc, [])
  }

  /** The activation is one that the machine makes: its steps follow each other, and so do theirs. */
  ghost predicate Happened(a: Activation)
    decreases a, 2
  {
    && Sound(a.m) && |a.states| == |a.origins| + 1 && AtEntry(a.m, a.base, a.states[0])
    && (forall i :: 0 <= i < |a.origins| ==> StepHappened(a, i))
    && CameFrom(a.last, a.m.code, a.states[|a.states| - 1])
  }

  ghost predicate StepHappened(a: Activation, i: nat)
    requires i < |a.origins| && |a.states| == |a.origins| + 1
    decreases a, 1
  {
    && CameFrom(a.origins[i], a.m.code, a.states[i])
    && Step(a.m.code, a.base, a.states[i], EventOf(a.origins[i], a.states[i])) == Running(a.states[i + 1])
  }

  /** Native code gives the trap back; a callee is entered above the words that its caller keeps. */
  ghost predicate CameFrom(origin: Origin, code: seq<int>, s: State)
    decreases origin, 1
  {
    match origin
    case Native(e) => GivesBack(s, e)
    case Called(chain, _) => Above(chain, code, s) && Chained(chain, s.trap, ByItself)
    case CalledNative(chain, e) => Above(chain, code, s) && Chained(chain, s.trap, InNative(e))
  }

  ghost predicate Above(chain: seq<Activation>, code: seq<int>, s: State) {
    && chain != [] && 0 <= s.pc && s.pc + 1 < |code| && MayCall(code[s.pc])
    && |s.stack| - Popped(code[s.pc], code[s.pc + 1]) <= chain[0].base
  }

  /** Each function but the last ends in a tail call of the next, which takes over its place on the stack;
      the last returns or throws, or calls native code in its place, which gives the trap back. */
  ghost predicate Chained(chain: seq<Activation>, trap: int, last: Last)
    requires chain != []
    decreases chain, 0
  {
    var a := chain[0];
    && Happened(a) && a.states[0].trap == trap
    && if |chain| > 1 then
         Ending(a).TailCalled? && chain[1].base == a.base && Chained(chain[1..], Ending(a).trap, last)
       else if last.InNative? then Ending(a).TailCalled? && last.e.trap == Ending(a).trap
       else Ending(a).Returned? || Ending(a).Unwound?
  }

  /** The frame stands at its marks in all its states, ends safely, and every step gives the trap back. */
  ghost predicate Kept(a: Activation) {
    && |a.states| == |a.origins| + 1 && a.base <= |a.states[0].stack|
    && (forall i :: 0 <= i < |a.states| ==>
          && AtMark(a.m.marks, a.m.labels, a.base, a.states[0].trap, a.states[i])
          && a.states[i].stack[..a.base] == a.states[0].stack[..a.base])
    && SafeOutcome(a.m.marks, a.m.labels, a.base, a.states[0].trap, a.states[|a.states| - 1], Ending(a))
  }

  /** A frame's trap is below the words that a step takes off. */
  lemma TrapBelow(m: Module, base: nat, entry: int, s: State)
    requires Sound(m) && AtMark(m.marks, m.labels, base, entry, s) && s.pc + 1 < |m.code| && MayCall(m.code[s.pc])
    ensures s.trap <= |s.stack| - Popped(m.code[s.pc], m.code[s.pc + 1])
  {
    AtNode(m.code, m.starts, m.marks, m.labels, base, entry, s);
    Reaches(m.code, m.starts, m.marks, m.labels, base, entry, s);
  }

  /** Whatever code a step runs outside its frame gives the trap back. */
  lemma {:induction false} OriginGivesBack(origin: Origin, m: Module, base: nat, entry: int, s: State)
    requires Sound(m) && AtMark(m.marks, m.labels, base, entry, s) && CameFrom(origin, m.code, s)
    ensures GivesBack(s, EventOf(origin, s))
    decreases origin, 1
  {
    match origin
    case Native(_) =>
    case Called(chain, _) =>
      TrapBelow(m, base, entry, s);
      ChainGivesBack(chain, s.trap, ByItself);
    case CalledNative(chain, e) =>
      TrapBelow(m, base, entry, s);
      ChainGivesBack(chain, s.trap, InNative(e));
  }

  lemma {:induction false} ChainGivesBack(chain: seq<Activation>, trap: int, last: Last)
    requires chain != [] && Chained(chain, trap, last) && trap <= chain[0].base
    ensures var o := Ending(chain[|chain| - 1]);
      if last.InNative? then last.e.trap == trap else (o.Returned? || o.Unwound?) && o.trap == trap
    decreases chain, 0
  {
    EndingKept(chain[0]);
    if |chain| > 1 {
      assert chain[1..][0] == chain[1] && chain[1..][|chain| - 2] == chain[|chain| - 1];
      ChainGivesBack(chain[1..], trap, last);
    }
  }

  lemma {:induction false} StateKept(a: Activation, i: nat)
    requires Happened(a) && a.states[0].trap <= a.base && i < |a.states|
    ensures AtMark(a.m.marks, a.m.labels, a.base, a.states[0].trap, a.states[i])
    ensures a.states[i].stack[..a.base] == a.states[0].stack[..a.base]
    decreases a, 2, i
  {
    if i > 0 {
      StateKept(a, i - 1);
      assert StepHappened(a, i - 1);
      StepHappenedKept(a, i - 1, a.states[0].trap);
    }
  }

  lemma {:induction false} StepHappenedKept(a: Activation, i: nat, entry: int)
    requires i < |a.origins| && |a.states| == |a.origins| + 1 && StepHappened(a, i) && Sound(a.m)
    requires AtMark(a.m.marks, a.m.labels, a.base, entry, a.states[i])
    ensures AtMark(a.m.marks, a.m.labels, a.base, entry, a.states[i + 1])
    ensures a.states[i + 1].stack[..a.base] == a.states[i].stack[..a.base]
    decreases a, 1
  {
    OriginGivesBack(a.origins[i], a.m, a.base, entry, a.states[i]);
    StepKept(a.m, a.base, entry, a.states[i], EventOf(a.origins[i], a.states[i]), a.states[i + 1]);
  }

  lemma StepKept(m: Module, base: nat, entry: int, s: State, e: Event, s': State)
    requires Sound(m) && AtMark(m.marks, m.labels, base, entry, s) && GivesBack(s, e)
    requires Step(m.code, base, s, e) == Running(s')
    ensures AtMark(m.marks, m.labels, base, entry, s') && s'.stack[..base] == s.stack[..base]
  {
    StepSafe(m.code, m.starts, m.marks, m.labels, base, entry, s, e);
  }

  lemma {:induction false} EndingKept(a: Activation)
    requires Happened(a) && a.states[0].trap <= a.base
    ensures var o := Ending(a); o.Returned? || o.TailCalled? || o.Unwound? ==> o.trap == a.states[0].trap
    decreases a, 4
  {
    ActivationKept(a);
  }

  /** Soundness through calls of any depth: a frame keeps to its marks and labels, its callees
      do as well, and when it returns, throws or calls in its place, the trap is the one that was set on entry. */
  lemma {:induction false} ActivationKept(a: Activation)
    requires Happened(a) && a.states[0].trap <= a.base
    ensures Kept(a)
    decreases a, 3
  {
    forall i | 0 <= i < |a.states|
      ensures AtMark(a.m.marks, a.m.labels, a.base, a.states[0].trap, a.states[i])
      ensures a.states[i].stack[..a.base] == a.states[0].stack[..a.base]
    {
      StateKept(a, i);
    }
    var s := a.states[|a.states| - 1];
    OriginGivesBack(a.last, a.m, a.base, a.states[0].trap, s);
    StepSafe(a.m.code, a.m.starts, a.m.marks, a.m.labels, a.base, a.states[0].trap, s, EventOf(a.last, s));
  }
}
