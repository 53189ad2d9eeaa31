/** What a frame's words are: the operand stack gives back what was put on it. Each law is about steps and runs
    of the interpreter alone. A run above some height is one that neither looks at nor takes off a word below it,
    as the interpreter itself decides; whatever else it does, calls, traps and exceptions included, does not matter. */
module FrameStorage {
  import opened Opcodes
  import opened FrameMachine
  import opened FrameSafety

  // ------------------------------------------------------------------- runs above a height

  /** A step that keeps above `low` leaves the words below it as they are. */
  lemma StepAbove(code: seq<int>, low: nat, s: State, e: Event)
    requires low <= |s.stack| && Step(code, low, s, e).Running?
    ensures var t := Step(code, low, s, e).state; low <= |t.stack| && t.stack[..low] == s.stack[..low]
  {
  }

  lemma {:induction false} RunAbove(code: seq<int>, low: nat, states: seq<State>, events: seq<Event>, n: nat)
    requires Run(code, low, states, events) && n < |states| && low <= |states[0].stack|
    ensures low <= |states[n].stack| && states[n].stack[..low] == states[0].stack[..low]
  {
    hide Step;
    if n > 0 {
      RunAbove(code, low, states, events, n - 1);
      assert Step(code, low, states[n - 1], events[n - 1]) == Running(states[n]);
      StepAbove(code, low, states[n - 1], events[n - 1]);
    }
  }

  /** The instruction at `pc` reads the word `k` below the top. */
  predicate Reads(code: seq<int>, pc: int, k: nat) {
    && 0 <= pc < |code| - 1
    && (|| (code[pc] == ACC_STACK && code[pc + 1] == k)
        || (code[pc] == ACC_STACK_0 && k == 0)
        || (code[pc] == ACC_STACK_1 && k == 1))
  }

  /** The instruction at `pc` has opcode `c` and parameter `p`. */
  predicate Has(code: seq<int>, pc: int, c: int, p: int) {
    0 <= pc < |code| - 1 && code[pc] == c && code[pc + 1] == p
  }

  /** A word is pushed in `s`, and the code runs on above it, in whatever way, to the last state. */
  ghost predicate PushedThen(code: seq<int>, base: nat, s: State, e: Event, states: seq<State>, events: seq<Event>) {
    && base <= |s.stack| && 0 <= s.pc < |code| && code[s.pc] == PUSH && e.Yields?
    && states != [] && Step(code, base, s, e) == Running(states[0])
    && Run(code, |s.stack| + 1, states, events)
  }

  lemma WordBelow(stack: seq<Word>, below: seq<Word>, w: Word)
    requires |below| < |stack| && stack[..|below| + 1] == below + [w]
    ensures stack[|below|] == w && stack[..|below|] == below
  {
    assert stack[|below|] == stack[..|below| + 1][|below|];
    assert stack[..|below|] == stack[..|below| + 1][..|below|];
  }

  lemma PushStays(code: seq<int>, base: nat, s: State, e: Event, states: seq<State>, events: seq<Event>)
    requires PushedThen(code, base, s, e, states, events)
    ensures states[0] == s.(pc := s.pc + 1, stack := s.stack + [s.acc])
    ensures var last := states[|states| - 1];
      |s.stack| < |last.stack| && last.stack[..|s.stack|] == s.stack && last.stack[|s.stack|] == s.acc
  {
    RunAbove(code, |s.stack| + 1, states, events, |states| - 1);
    assert (s.stack + [s.acc])[..|s.stack| + 1] == s.stack + [s.acc];
    WordBelow(states[|states| - 1].stack, s.stack, s.acc);
  }

  // ------------------------------------------------------------------- words

  /** Where `k` words lie on the one pushed, every access to depth `k` gives it back and changes nothing else. */
  lemma PushedIsRead(code: seq<int>, base: nat, s: State, e: Event, states: seq<State>, events: seq<Event>, f: Event)
    requires PushedThen(code, base, s, e, states, events)
    ensures var last := states[|states| - 1];
      && |s.stack| < |last.stack|
      && (Reads(code, last.pc, |last.stack| - |s.stack| - 1) ==>
            var next := if code[last.pc] == ACC_STACK then last.pc + 2 else last.pc + 1;
            Step(code, base, last, f) == Running(last.(pc := next, acc := s.acc)))
  {
    PushStays(code, base, s, e, states, events);
  }

  /** Popping it with the `k` words on it leaves the stack of before. */
  lemma PushedIsPopped(code: seq<int>, base: nat, s: State, e: Event, states: seq<State>, events: seq<Event>, f: Event)
    requires PushedThen(code, base, s, e, states, events)
    ensures var last := states[|states| - 1];
      Has(code, last.pc, POP, |last.stack| - |s.stack|) ==>
        Step(code, base, last, f) == Running(last.(pc := last.pc + 2, stack := s.stack))
  {
    PushStays(code, base, s, e, states, events);
  }

  /** So does returning with them. */
  lemma PushedIsLeft(code: seq<int>, base: nat, s: State, e: Event, states: seq<State>, events: seq<Event>, f: Event)
    requires PushedThen(code, base, s, e, states, events)
    ensures var last := states[|states| - 1];
      Has(code, last.pc, RET, |last.stack| - |s.stack|) ==> Step(code, base, last, f) == Returned(s.stack, last.trap)
  {
    PushStays(code, base, s, e, states, events);
  }

  /** A word is overwritten at depth `k`, and the code runs on above it. */
  ghost predicate SetThen(code: seq<int>, base: nat, s: State, k: nat, e: Event, states: seq<State>,
                          events: seq<Event>) {
    && base + k < |s.stack| && Has(code, s.pc, SET_STACK, k) && e.Yields?
    && states != [] && Step(code, base, s, e) == Running(states[0])
    && Run(code, |s.stack| - k, states, events)
  }

  /** Overwriting changes that word alone; where it then lies at depth `m`, it is read back. */
  lemma SetIsRead(code: seq<int>, base: nat, s: State, k: nat, e: Event, states: seq<State>, events: seq<Event>,
                  f: Event)
    requires SetThen(code, base, s, k, e, states, events)
    ensures states[0].acc == s.acc && states[0].trap == s.trap && |states[0].stack| == |s.stack|
    ensures forall i :: 0 <= i < |s.stack| && i != |s.stack| - 1 - k ==> states[0].stack[i] == s.stack[i]
    ensures var last := states[|states| - 1];
      && |s.stack| - k <= |last.stack|
      && (Reads(code, last.pc, |last.stack| - |s.stack| + k) ==>
            var next := if code[last.pc] == ACC_STACK then last.pc + 2 else last.pc + 1;
            Step(code, base, last, f) == Running(last.(pc := next, acc := s.acc)))
  {
    var below := s.stack[..|s.stack| - 1 - k];
    RunAbove(code, |s.stack| - k, states, events, |states| - 1);
    assert s.stack[|below| := s.acc][..|below| + 1] == below + [s.acc];
    WordBelow(states[|states| - 1].stack, below, s.acc);
  }

  // ------------------------------------------------------------------- arguments

  /** From `pc` on, `n` words are computed and pushed. */
  predicate Pushes(code: seq<int>, pc: int, n: nat) {
    && 0 <= pc && pc + 3 * n < |code|
    && forall j :: 0 <= j < n ==> code[pc + 3 * j] == ACC_INT && code[pc + 3 * j + 2] == PUSH
  }

  /** What remains after running through the events. */
  function After(code: seq<int>, base: nat, s: State, events: seq<Event>): Outcome
    decreases |events|
  {
    if events == [] then Running(s)
    else
      match Step(code, base, s, events[0])
      case Running(t) => After(code, base, t, events[1..])
      case o => o
  }

  /** Each word as the result of the instruction that computes it, and then pushed. */
  function Giving(words: seq<Word>, trap: int): seq<Event> {
    if words == [] then [] else [Yields(words[0], trap), Yields(Plain(Null), trap)] + Giving(words[1..], trap)
  }

  /** They lie on the stack in the order pushed. */
  lemma {:induction false} PushedInOrder(code: seq<int>, base: nat, s: State, words: seq<Word>, trap: int)
    requires base <= |s.stack| && Pushes(code, s.pc, |words|)
    ensures After(code, base, s, Giving(words, trap))
            == Running(State(s.pc + 3 * |words|, if words == [] then s.acc else words[|words| - 1],
                             s.stack + words, s.trap))
    decreases |words|
  {
    if words == [] {
      assert s.stack + [] == s.stack;
    } else {
      var events := Giving(words, trap);
      var t := State(s.pc + 3, words[0], s.stack + [words[0]], s.trap);
      assert events[1..][1..] == Giving(words[1..], trap);
      assert code[s.pc + 3 * 0] == ACC_INT && code[s.pc + 3 * 0 + 2] == PUSH;
      assert Step(code, base, s, events[0]) == Running(s.(pc := s.pc + 2, acc := words[0]));
      assert Step(code, base, s.(pc := s.pc + 2, acc := words[0]), events[1]) == Running(t);
      forall j | 0 <= j < |words| - 1
        ensures code[t.pc + 3 * j] == ACC_INT && code[t.pc + 3 * j + 2] == PUSH
      {
        assert code[s.pc + 3 * (j + 1)] == ACC_INT && code[s.pc + 3 * (j + 1) + 2] == PUSH;
      }
      PushedInOrder(code, base, t, words[1..], trap);
      assert s.stack + [words[0]] + words[1..] == s.stack + words;
    }
  }

  lemma {:induction false} AfterBoth(code: seq<int>, base: nat, s: State, first: seq<Event>, second: seq<Event>)
    ensures After(code, base, s, first + second)
            == match After(code, base, s, first)
               case Running(t) => After(code, base, t, second)
               case o => o
    decreases |first|
  {
    hide Step;
    if first == [] {
      assert [] + second == second;
    } else {
      assert (first + second)[0] == first[0] && (first + second)[1..] == first[1..] + second;
      match Step(code, base, s, first[0])
      case Running(t) => AfterBoth(code, base, t, first[1..], second);
      case o =>
    }
  }

  lemma TailCallStep(code: seq<int>, base: nat, s: State, below: seq<Word>, dropped: nat, args: seq<Word>, e: Event)
    requires base + dropped <= |below| && |args| < 8 && s.stack == below + args
    requires Has(code, s.pc, TAIL_CALL, 8 * (dropped + |args|) + |args|)
    ensures Step(code, base, s, e) == TailCalled(below[..|below| - dropped], args, s.trap)
  {
    var p := code[s.pc + 1];
    assert p / 8 == dropped + |args| && p % 8 == |args|;
    assert s.stack[|s.stack| - |args|..] == args;
    assert s.stack[..|s.stack| - dropped - |args|] == below[..|below| - dropped];
  }

  /** A tail call hands over the words pushed last, in the order pushed, and takes `dropped` more off below them. */
  lemma TailCallHandsOver(code: seq<int>, base: nat, s: State, dropped: nat, args: seq<Word>, trap: int, e: Event)
    requires base + dropped <= |s.stack| && |args| < 8 && Pushes(code, s.pc, |args|)
    requires Has(code, s.pc + 3 * |args|, TAIL_CALL, 8 * (dropped + |args|) + |args|)
    ensures After(code, base, s, Giving(args, trap) + [e])
            == TailCalled(s.stack[..|s.stack| - dropped], args, s.trap)
  {
    hide Step, Pushes, Giving;
    var acc := if args == [] then s.acc else args[|args| - 1];
    var t := State(s.pc + 3 * |args|, acc, s.stack + args, s.trap);
    PushedInOrder(code, base, s, args, trap);
    AfterBoth(code, base, s, Giving(args, trap), [e]);
    TailCallStep(code, base, t, s.stack, dropped, args, e);
    assert [e][1..] == [];
  }

  // ------------------------------------------------------------------- traps

  /** A trap is set in `s`, and the code runs on above its record until that trap is innermost again. */
  ghost predicate TrappedThen(code: seq<int>, base: nat, s: State, handler: int, e: Event, states: seq<State>,
                              events: seq<Event>) {
    && base <= |s.stack| && Has(code, s.pc, TRAP, handler) && e.Yields?
    && states != [] && Step(code, base, s, e) == Running(states[0])
    && Run(code, |s.stack| + 6, states, events)
    && states[|states| - 1].trap == |s.stack| + 6
  }

  lemma RecordStays(code: seq<int>, base: nat, s: State, handler: int, e: Event, states: seq<State>, events: seq<Event>)
    requires TrappedThen(code, base, s, handler, e, states, events)
    ensures states[0] == State(s.pc + 2, s.acc, s.stack + TrapRecord(handler, s.trap), |s.stack| + 6)
    ensures var stack, top := states[|states| - 1].stack, |s.stack| + 6;
      && top <= |stack| && stack[..|s.stack|] == s.stack && IsRecord(stack, top)
      && stack[top - 4] == HandlerAt(handler) && stack[top - 6] == PreviousTrap(s.trap)
  {
    RunAbove(code, |s.stack| + 6, states, events, |states| - 1);
    RecordOnTop(s.stack, handler, s.trap);
    var stack, record := states[|states| - 1].stack, s.stack + TrapRecord(handler, s.trap);
    assert record[..|s.stack| + 6] == record;
    assert stack[..|s.stack|] == stack[..|s.stack| + 6][..|s.stack|] == record[..|s.stack|] == s.stack;
    SamePrefix(record, stack, |s.stack| + 6);
  }

  /** An exception that leaves the words above the record lands at the handler, in the accumulator, with the stack
      and the trap of before. */
  lemma ThrownIsCaught(code: seq<int>, base: nat, s: State, handler: int, e: Event, states: seq<State>,
                       events: seq<Event>, f: Event)
    requires TrappedThen(code, base, s, handler, e, states, events)
    requires f.Throws? && Step(code, |s.stack| + 6, states[|states| - 1], f) == Unwound(|s.stack| + 6)
    ensures Step(code, base, states[|states| - 1], f) == Running(State(handler, f.exception, s.stack, s.trap))
  {
    RecordStays(code, base, s, handler, e, states, events);
  }

  /** Ending the trap leaves the stack and the trap of before, and the accumulator alone. */
  lemma EndedIsGone(code: seq<int>, base: nat, s: State, handler: int, e: Event, states: seq<State>,
                    events: seq<Event>, f: Event)
    requires TrappedThen(code, base, s, handler, e, states, events) && f.Yields?
    ensures var last := states[|states| - 1];
      0 <= last.pc < |code| - 1 && code[last.pc] == END_TRAP && |last.stack| == |s.stack| + 6 ==>
        Step(code, base, last, f) == Running(State(last.pc + 1, last.acc, s.stack, s.trap))
  {
    RecordStays(code, base, s, handler, e, states, events);
  }
}
