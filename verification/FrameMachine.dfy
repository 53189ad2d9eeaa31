/** One function frame of the interpreter loop: what each instruction reads, pops and pushes on
    the operand stack, and how an exception finds its handler. Calls are single steps that pop
    their arguments; results of data operations, and whether they throw, come with the step. */
module FrameMachine {
  import opened Opcodes

  datatype Value = Null | True | False | Int(n: int) | Pointer(address: int)

  /** A word of the operand stack. The last six kinds are the cells of a trap record. */
  datatype Word =
    | Plain(v: Value)
    | CallOffset | SavedThis | SavedEnv | HandlerAt(pc: int) | SavedModule | PreviousTrap(offset: int)

  /** The stack grows at its end: `sp[k]` is the word `k` below the top. A trap is named, as in
      the machine, by the number of words on the stack when its record was complete; the stack
      includes the callers' words, and 0 stands for no trap. */
  datatype State = State(pc: int, acc: Word, stack: seq<Word>, trap: int)

  /** What a step's data, and the code that it runs outside the frame, decide: the result or the exception,
      and the trap that such code leaves behind. */
  datatype Event = Yields(result: Word, trap: int) | Throws(exception: Word, trap: int)

  datatype Outcome =
    | Running(state: State)
    | Returned(rest: seq<Word>, trap: int)
    | TailCalled(rest: seq<Word>, args: seq<Word>, trap: int)
    | Halted(rest: seq<Word>, trap: int)
    | Unwound(trap: int)          // no handler in this frame: the exception leaves it
    | InvalidTrap                 // the innermost record is above the stack top
    | Fault                       // a word below the frame, a broken record, or no instruction

  /** Opcodes whose code in the interpreter reaches `val_throw`. */
  predicate MayThrow(c: int) {
    || ACC_ENV <= c <= ACC_INDEX || SET_ENV <= c <= SET_INDEX || c == PUSH || c == CALL || c == OBJ_CALL
    || c == TRAP || c == END_TRAP || c == MAKE_ENV || ADD <= c <= LTE || c == COMPARE || c == HASH || c == NEW
    || c == APPLY || c == ACC_INDEX_0 || c == ACC_INDEX_1
  }

  /** Opcodes that run other code: a callee, a method of an operand, or the resolver of missing fields. */
  predicate MayCall(c: int) {
    || c == ACC_FIELD || c == ACC_ARRAY || c == ACC_INDEX || c == SET_ARRAY || c == SET_INDEX
    || c == CALL || c == OBJ_CALL || c == APPLY || ADD <= c <= MOD || EQ <= c <= LTE || c == COMPARE
    || c == ACC_INDEX_0 || c == ACC_INDEX_1
  }

  /** The words that are gone when an instruction throws. */
  function PoppedFirst(c: int, p: int): int {
    if c == OBJ_CALL then 1 else if c == MAKE_ENV then p else 0
  }

  /** How many words from the top an instruction looks at or takes off. */
  function Touched(c: int, p: int): int {
    if c == ACC_STACK || c == SET_STACK then p + 1
    else if c == ACC_STACK_0 then 1
    else if c == ACC_STACK_1 then 2
    else Popped(c, p)
  }

  /** How many words an instruction takes off the stack. */
  function Popped(c: int, p: int): int {
    if c == ACC_ARRAY || c == SET_FIELD || c == SET_INDEX then 1
    else if c == SET_ARRAY then 2
    else if c == POP || c == CALL || c == MAKE_ENV || c == MAKE_ARRAY || c == APPLY || c == RET then p
    else if c == OBJ_CALL then p + 1
    else if ADD <= c <= LTE || c == COMPARE || c == PHYS_COMPARE then 1
    else if c == END_TRAP then 6
    else if c == TAIL_CALL then p / 8
    else 0
  }

  /** The words a `TRAP` pushes, bottom first. */
  function TrapRecord(handler: int, previous: int): seq<Word> {
    [PreviousTrap(previous), SavedModule, HandlerAt(handler), SavedEnv, SavedThis, CallOffset]
  }

  function Drop(stack: seq<Word>, n: int): seq<Word>
    requires 0 <= n <= |stack|
  {
    stack[..|stack| - n]
  }

  /** `val_throw` followed by the exception branch of `neko_interp`, seen from one frame. */
  function Raise(base: nat, s: State, exception: Word): Outcome {
    if s.trap <= base then Unwound(s.trap)
    else if s.trap > |s.stack| then InvalidTrap
    else if s.trap < base + 6 then Fault
    else
      var handler, previous := s.stack[s.trap - 4], s.stack[s.trap - 6];
      if !handler.HandlerAt? || !previous.PreviousTrap? then Fault
      else if !s.stack[s.trap - 5].SavedModule? || !s.stack[s.trap - 1].CallOffset? then Fault
      else Running(State(handler.pc, exception, s.stack[..s.trap - 6], previous.offset))
  }

  /** One instruction of the frame whose own words start at index `base`. */
  function Step(code: seq<int>, base: nat, s: State, e: Event): Outcome {
    if !(0 <= s.pc < |code|) || base > |s.stack| then Fault
    else
      var c := code[s.pc];
      if c == LAST then Halted(s.stack, s.trap)
      else if s.pc + 1 >= |code| || !IsOpcode(c) then Fault
      else
        var p := code[s.pc + 1];
        if Popped(c, p) < PoppedFirst(c, p) || Popped(c, p) < 0 || |s.stack| - base < Touched(c, p) || Touched(c, p) < 0
        then Fault
        else
          var s1 := if MayCall(c) then s.(trap := e.trap) else s;
          if e.Throws? && MayThrow(c) then Raise(base, s1.(stack := Drop(s.stack, PoppedFirst(c, p))), e.exception)
          else if c == END_TRAP && s.trap != |s.stack| then Raise(base, s, Plain(Null))
          else Execute(c, p, s1, if e.Yields? then e.result else Plain(Null))
  }

  /** The instruction itself, when it neither throws nor reaches below its frame. */
  function Execute(c: int, p: int, s: State, result: Word): Outcome
    requires 0 <= Popped(c, p) <= Touched(c, p) <= |s.stack|
  {
    var next := s.pc + 1 + ParameterCount(c);
    var top := |s.stack|;
    if c == ACC_STACK && 0 <= p then Running(s.(pc := next, acc := s.stack[top - 1 - p]))
    else if c == ACC_STACK_0 then Running(s.(pc := next, acc := s.stack[top - 1]))
    else if c == ACC_STACK_1 then Running(s.(pc := next, acc := s.stack[top - 2]))
    else if c == SET_STACK && 0 <= p then Running(s.(pc := next, stack := s.stack[top - 1 - p := s.acc]))
    else if c == PUSH then Running(s.(pc := next, stack := s.stack + [s.acc]))
    else if c == JUMP then Running(s.(pc := p))
    else if c == JUMP_IF then Running(s.(pc := if s.acc == Plain(True) then p else next))
    else if c == JUMP_IF_NOT then Running(s.(pc := if s.acc != Plain(True) then p else next))
    else if c == JUMP_TABLE then
      (if s.acc.Plain? && s.acc.v.Int? && 0 <= s.acc.v.n && 2 * s.acc.v.n + 1 < p
       then Running(s.(pc := s.pc + 1 + (2 * s.acc.v.n + 1)))
       else Running(s.(pc := s.pc + 1 + (p + 1))))
    else if c == TRAP then
      Running(s.(pc := next, stack := s.stack + TrapRecord(p, s.trap), trap := top + 6))
    else if c == END_TRAP then
      (if s.stack[top - 6].PreviousTrap?
       then Running(s.(pc := next, stack := Drop(s.stack, 6), trap := s.stack[top - 6].offset))
       else Fault)
    else if c == RET then Returned(Drop(s.stack, p), s.trap)
    else if c == TAIL_CALL then
      (if p % 8 <= p / 8 then TailCalled(Drop(s.stack, p / 8), s.stack[top - p % 8..], s.trap) else Fault)
    else if c == POP || c == SET_GLOBAL || c == SET_THIS then
      Running(s.(pc := next, stack := Drop(s.stack, Popped(c, p))))
    else Running(s.(pc := next, acc := result, stack := Drop(s.stack, Popped(c, p))))
  }
}
