/** What an instruction of a module file does once it has been linked, in the file's own terms: jumps are relative,
    parameters are signed, and the limits are numbers. */
module FileMeaning {
  import opened Opcodes
  import opened Loader
  import opened StackCheck
  import opened FrameMachine

  // ------------------------------------------------------------------- the tables

  /** The opcodes that have a parameter. */
  const PARAMETERS: set<int> :=
    {4, 5, 6, 7, 8, 10, 11, 12, 13, 14, 15, 17, 20, 21, 22, 23, 24, 25, 26, 28, 29, 30, 56, 57, 63}

  /** The two tables, by opcode number. */
  lemma TablesAsDeclared(code: seq<int>, i: nat)
    requires i + 1 < |code| && 0 <= code[i] < 64
    ensures ParameterCount(code[i]) == if code[i] in PARAMETERS then 1 else 0
    ensures Effect(code, i)
            == if code[i] in {20, 21, 22, 29, 30, 57} then -code[i + 1]
               else if code[i] in {9, 15, 17, 53, 62} || 34 <= code[i] <= 50 then -1
               else if code[i] == 16 then -2
               else if code[i] == 19 then 1
               else if code[i] == 26 then 6
               else if code[i] == 27 then -6
               else 0
  {
  }

  /** The opcodes whose code raises an exception, by number, and those that run other code. */
  lemma ThrowersAsCoded(c: int)
    ensures MayThrow(c)
            <==> 7 <= c <= 10 || 14 <= c <= 17 || 34 <= c <= 50 || c in {19, 21, 22, 26, 27, 29, 53, 54, 55, 57, 60, 61}
    ensures MayCall(c) <==> 34 <= c <= 38 || 45 <= c <= 50 || c in {8, 9, 10, 16, 17, 21, 22, 53, 57, 60, 61}
  {
  }

  // ------------------------------------------------------------------- linking

  /** The tests of the linking loop, which are made on unsigned words, say exactly this of the signed parameter
      `p` of opcode `c` in cell `i`. */
  predicate Permitted(c: int, p: int, i: nat, starts: seq<bool>, ctx: Context) {
    && (c in {ACC_GLOBAL, SET_GLOBAL} ==> 0 <= p < ctx.nglobals)
    && (c in {JUMP, JUMP_IF, JUMP_IF_NOT, TRAP} ==> 0 <= i + p < |starts| && starts[i + p])
    && (c == ACC_STACK ==> -2 <= p < 0x7FFF_FFFE)
    && (c in {SET_STACK, RET, POP, ACC_ENV, SET_ENV} ==> 0 <= p)
    && (c == ACC_BUILTIN ==> (p in ctx.builtins || (p < 0 && p + 0x1_0000_0000 in ctx.builtins)))
    && (c in {CALL, OBJ_CALL} ==> 0 <= p <= 5)
    && (c == TAIL_CALL ==> p % 8 <= 5)
    && (c == APPLY ==> 1 <= p <= 4)
    && (c == MAKE_ENV ==> 0 <= p <= 255)
    && (c == MAKE_ARRAY ==> 0 <= p <= 65536)
    && (c == JUMP_TABLE ==> 0 <= p <= 255 && i + 1 + 2 * p < |starts| - 1)
  }

  lemma AcceptedExactly(code: seq<int>, starts: seq<bool>, i: nat, ctx: Context)
    requires |code| == |starts| <= 0x10_0000 && i + 1 < |code| && ctx.nglobals <= 0xFFFF
    requires forall f <- ctx.builtins :: 0 <= f
    requires 0 <= code[i] && -0x8000_0000 <= code[i + 1] < 0x8000_0000
    ensures Accepts(code, starts, i, ctx)
            <==> code[i] < 64 && (starts[i + 1] <==> code[i] !in PARAMETERS)
                 && Permitted(code[i], code[i + 1], i, starts, ctx)
  {
    var p := code[i + 1];
    UnsignedOf(p);
    UnsignedOf(p + 2);
    if IsJump(code[i]) {
      assert Unsigned(Unsigned(p) + i) == Unsigned(p + i);
      UnsignedOf(p + i);
    }
  }

  // ------------------------------------------------------------------- running

  /** The instruction in cell `k` of the file has been accepted and linked. */
  ghost predicate LinkedFrom(raw: seq<int>, cells: seq<int>, starts: seq<bool>, k: int, ctx: Context) {
    && |raw| == |cells| == |starts| <= 0x10_0000 && 0 <= k && k + 1 < |raw|
    && 0 <= raw[k] && -0x8000_0000 <= raw[k + 1] < 0x8000_0000
    && Accepts(raw, starts, k, ctx) && LinksAt(raw, cells, k, ctx)
  }

  /** A relative jump goes as many cells on as its parameter says, from the cell of its opcode. */
  lemma JumpMeans(raw: seq<int>, cells: seq<int>, starts: seq<bool>, ctx: Context, base: nat, s: State, e: Event)
    requires LinkedFrom(raw, cells, starts, s.pc, ctx) && base <= |s.stack| && e.Yields?
    ensures var k, p := s.pc, raw[s.pc + 1];
      && (raw[k] == JUMP ==> Step(cells, base, s, e) == Running(s.(pc := k + p)))
      && (raw[k] == JUMP_IF ==>
            Step(cells, base, s, e) == Running(s.(pc := if s.acc == Plain(True) then k + p else k + 2)))
      && (raw[k] == JUMP_IF_NOT ==>
            Step(cells, base, s, e) == Running(s.(pc := if s.acc == Plain(True) then k + 2 else k + p)))
      && (raw[k] == TRAP ==>
            exists t ::
              && Step(cells, base, s, e) == Running(t) && t.pc == k + 2 && t.trap == |t.stack| == |s.stack| + 6
              && t.stack[|s.stack| + 2] == HandlerAt(k + p))
  {
    var p := raw[s.pc + 1];
    if IsJump(raw[s.pc]) {
      UnsignedOf(p);
      assert Unsigned(Unsigned(p) + s.pc) == Unsigned(p + s.pc);
      UnsignedOf(p + s.pc);
    }
    if raw[s.pc] == TRAP {
      assert Step(cells, base, s, e).Running?;
      var t := Step(cells, base, s, e).state;
    }
  }

  /** A jump table has its entries two cells apart behind it, and the default after the last. */
  lemma JumpTableMeans(raw: seq<int>, cells: seq<int>, starts: seq<bool>, ctx: Context, base: nat, s: State, e: Event)
    requires LinkedFrom(raw, cells, starts, s.pc, ctx) && base <= |s.stack| && e.Yields?
    requires raw[s.pc] == JUMP_TABLE
    ensures var k, n := s.pc, raw[s.pc + 1];
      forall j {:trigger Int(j)} :: s.acc == Plain(Int(j)) ==>
        Step(cells, base, s, e) == Running(s.(pc := k + 2 + 2 * if 0 <= j < n then j else n))
    ensures !(s.acc.Plain? && s.acc.v.Int?) ==>
        Step(cells, base, s, e) == Running(s.(pc := s.pc + 2 + 2 * raw[s.pc + 1]))
  {
    UnsignedOf(raw[s.pc + 1]);
  }

  /** An access to the stack by parameter starts counting at the third word; a write counts from the first. */
  lemma AccessMeans(raw: seq<int>, cells: seq<int>, starts: seq<bool>, ctx: Context, base: nat, s: State, e: Event)
    requires LinkedFrom(raw, cells, starts, s.pc, ctx) && e.Yields?
    ensures var k, p, top := s.pc, raw[s.pc + 1], |s.stack| - 1;
      && (raw[k] == ACC_STACK && base <= top - (p + 2) ==>
            Step(cells, base, s, e) == Running(s.(pc := k + 2, acc := s.stack[top - (p + 2)])))
      && (raw[k] == SET_STACK && base <= top - p ==>
            Step(cells, base, s, e) == Running(s.(pc := k + 2, stack := s.stack[top - p := s.acc])))
  {
    UnsignedOf(raw[s.pc + 1]);
    UnsignedOf(raw[s.pc + 1] + 2);
  }

  /** Other parameters stay as the file has them, but for the index of an array access. */
  lemma ParameterMeans(raw: seq<int>, cells: seq<int>, starts: seq<bool>, ctx: Context, k: nat)
    requires LinkedFrom(raw, cells, starts, k, ctx) && raw[k] in PARAMETERS
    requires raw[k] !in {ACC_STACK, ACC_BUILTIN, JUMP, JUMP_IF, JUMP_IF_NOT, TRAP, JUMP_TABLE}
    ensures cells[k + 1] == if raw[k] == ACC_INDEX then raw[k + 1] + 2 else raw[k + 1]
  {
  }

  // ------------------------------------------------------------------- the height of a frame

  /** Code that pushes `n` words and pops them again. */
  function Tall(n: nat): seq<int> {
    seq(n, _ => PUSH) + [POP, n, LAST]
  }

  function TallStarts(n: nat): seq<bool> {
    seq(n, _ => true) + [true, false, true]
  }

  function TallMarks(n: nat): seq<int> {
    seq(n, k => k) + [n, UNKNOWN, 0]
  }

  lemma TallLinked(n: nat)
    ensures Linked(Tall(n), TallStarts(n))
  {
  }

  lemma TallNode(n: nat, k: nat)
    requires n < 124 && k < n + 3 && TallMarks(n)[k] != UNKNOWN
    ensures TallStarts(n)[k] && Tall(n)[k] != TRAP
    ensures NodeOk(Tall(n), TallMarks(n), k, -1, 0) && AboveFloor(Tall(n), k, TallMarks(n)[k], 0)
  {
    if k < n {
      assert Tall(n)[k] == PUSH && TallMarks(n)[k + 1] == k + 1;
    } else {
      assert Tall(n)[n..] == [POP, n, LAST] && TallMarks(n)[n..] == [n, UNKNOWN, 0];
    }
  }

  lemma TallConsistent(n: nat)
    requires n < 124
    ensures Consistent(Tall(n), TallStarts(n), TallMarks(n), 0)
  {
    hide NodeOk, AboveFloor;
    TallLinked(n);
    forall k | 0 <= k < n + 3 && TallMarks(n)[k] != UNKNOWN
      ensures TallStarts(n)[k] && Tall(n)[k] != TRAP
      ensures NodeOk(Tall(n), TallMarks(n), k, -1, 0) && AboveFloor(Tall(n), k, TallMarks(n)[k], 0)
    {
      TallNode(n, k);
    }
  }

  /** The walk marks each `PUSH` with the number of those before it, up to the limit. */
  lemma {:induction false} TallRefused(n: nat, marks: seq<int>, k: nat)
    requires n >= 124 && |marks| == n + 3 && k <= 123
    requires forall i :: k <= i < n + 3 ==> marks[i] == UNKNOWN
    ensures Walked(Tall(n), marks, k, k, 0).Refused?
    decreases 124 - k
  {
    if k < 123 {
      TallRefused(n, marks[k := k], k + 1);
    }
  }

  /** A frame holds 123 words: such code passes the stack check if and only if it pushes no more. */
  lemma FrameHolds(n: nat)
    ensures Linked(Tall(n), TallStarts(n))
    ensures Walked(Tall(n), Unmarked(n + 3), 0, 0, 0).Passed? <==> n <= 123
  {
    TallLinked(n);
    if n <= 123 {
      TallConsistent(n);
      assert MarkedAt(TallMarks(n), 0, 0);
      FreshWalk(Tall(n), TallStarts(n), 0, 0);
    } else {
      TallRefused(n, Unmarked(n + 3), 0);
    }
  }
}
