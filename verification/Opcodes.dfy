/** The instruction set: opcode numbers in their declared order and the two static tables that
    give each opcode its parameter count and its effect on the operand stack. */
module Opcodes {

  const ACC_NULL := 0
  const ACC_TRUE := 1
  const ACC_FALSE := 2
  const ACC_THIS := 3
  const ACC_INT := 4
  const ACC_STACK := 5
  const ACC_GLOBAL := 6
  const ACC_ENV := 7
  const ACC_FIELD := 8
  const ACC_ARRAY := 9
  const ACC_INDEX := 10
  const ACC_BUILTIN := 11
  const SET_STACK := 12
  const SET_GLOBAL := 13
  const SET_ENV := 14
  const SET_FIELD := 15
  const SET_ARRAY := 16
  const SET_INDEX := 17
  const SET_THIS := 18
  const PUSH := 19
  const POP := 20
  const CALL := 21
  const OBJ_CALL := 22
  const JUMP := 23
  const JUMP_IF := 24
  const JUMP_IF_NOT := 25
  const TRAP := 26
  const END_TRAP := 27
  const RET := 28
  const MAKE_ENV := 29
  const MAKE_ARRAY := 30
  const BOOL := 31
  const IS_NULL := 32
  const IS_NOT_NULL := 33
  const ADD := 34
  const SUB := 35
  const MULT := 36
  const DIV := 37
  const MOD := 38
  const SHL := 39
  const SHR := 40
  const USHR := 41
  const OR := 42
  const AND := 43
  const XOR := 44
  const EQ := 45
  const NEQ := 46
  const GT := 47
  const GTE := 48
  const LT := 49
  const LTE := 50
  const NOT := 51
  const TYPE_OF := 52
  const COMPARE := 53
  const HASH := 54
  const NEW := 55
  const JUMP_TABLE := 56
  const APPLY := 57
  const ACC_STACK_0 := 58
  const ACC_STACK_1 := 59
  const ACC_INDEX_0 := 60
  const ACC_INDEX_1 := 61
  const PHYS_COMPARE := 62
  const TAIL_CALL := 63
  const LAST := 64

  // Limits on one function frame and on the operands of a call.
  const MAX_STACK_PER_FUNCTION := 128
  const CALL_MAX_ARGS := 5

  // Marker in the stack table: the effect is minus the instruction's own parameter.
  const BY_PARAMETER := -0xFF

  /** Is `c` an opcode that may occur in a module file? */
  predicate IsOpcode(c: int) {
    0 <= c < LAST
  }

  /** The parameter table: how many cells follow the opcode. */
  function ParameterCount(c: int): nat {
    if || ACC_INT <= c <= ACC_FIELD || ACC_INDEX <= c <= SET_FIELD || c == SET_INDEX
       || POP <= c <= TRAP || RET <= c <= MAKE_ARRAY
       || JUMP_TABLE <= c <= APPLY || c == TAIL_CALL
    then 1 else 0
  }

  /** The stack table. */
  function StackTable(c: int): int {
    if c == ACC_ARRAY || c == SET_FIELD || c == SET_INDEX then -1
    else if c == SET_ARRAY then -2
    else if c == PUSH then 1
    else if POP <= c <= OBJ_CALL || c == MAKE_ENV || c == MAKE_ARRAY || c == APPLY then BY_PARAMETER
    else if c == TRAP then 6
    else if c == END_TRAP then -6
    else if ADD <= c <= LTE || c == COMPARE || c == PHYS_COMPARE then -1
    else 0
  }

  predicate IsJump(c: int) {
    c == JUMP || c == JUMP_IF || c == JUMP_IF_NOT || c == TRAP
  }

  /** Control never falls through these opcodes to the next cell. */
  predicate EndsPath(c: int) {
    c == JUMP || c == RET || c == TAIL_CALL || c == LAST
  }

  /** What the loader's checks leave behind for the instruction at `i`: parameters lie inside
      the code, jump targets are instruction starts, and counts are in range. */
  predicate InstructionOk(code: seq<int>, starts: seq<bool>, i: nat)
    requires |code| == |starts| && i + 1 < |code|
  {
    var c := code[i];
    var p := code[i + 1];
    && IsOpcode(c)
    && (if ParameterCount(c) == 1 then i + 2 < |code| && !starts[i + 1] && starts[i + 2] else starts[i + 1])
    && (IsJump(c) ==> 0 <= p < |code| && starts[p])
    && (c == ACC_STACK || c == SET_STACK || c == RET || c == POP || c == ACC_ENV || c == SET_ENV ==> 0 <= p)
    && (c == CALL || c == OBJ_CALL ==> 0 <= p <= CALL_MAX_ARGS)
    && (c == TAIL_CALL ==> p % 8 <= CALL_MAX_ARGS)
    && (c == APPLY ==> 0 < p < CALL_MAX_ARGS)
    && (c == MAKE_ENV ==> 0 <= p <= 0xFF)
    && (c == MAKE_ARRAY ==> 0 <= p <= 0x10000)
    && (c == JUMP_TABLE ==> 0 <= p && p % 2 == 0 && i + 1 + p < |code| - 1)
  }

  /** Code as the loader hands it to the stack check: every start holds a well-formed
      instruction, and the cell after the last instruction is the `LAST` sentinel. */
  ghost predicate Linked(code: seq<int>, starts: seq<bool>) {
    && |code| == |starts| >= 1
    && starts[0]
    && starts[|code| - 1]
    && code[|code| - 1] == LAST
    && forall i {:trigger InstructionOk(code, starts, i)} ::
         0 <= i < |code| - 1 && starts[i] ==> InstructionOk(code, starts, i)
  }

  /** The cell after the instruction at `i`. */
  function Next(code: seq<int>, i: nat): nat
    requires i < |code|
  {
    i + 1 + ParameterCount(code[i])
  }
}
