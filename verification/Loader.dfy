/** The code section of a module file: the loop that unpacks opcodes, the loop that checks and
    links them in place, and the stack check started from every entry point. */
module Loader {
  import opened Opcodes
  import opened StackCheck

  type byte = b: int | 0 <= b < 0x100
  const TWO_32 := 0x1_0000_0000

  /** `(int)u`: the signed reading of an unsigned 32-bit word. */
  function Signed(u: int): int
    requires 0 <= u < TWO_32
  {
    if u < 0x8000_0000 then u else u - TWO_32
  }

  /** `(unsigned int)n`. */
  function Unsigned(n: int): int { n % TWO_32 }

  function Long(b: seq<byte>): (u: int)
    requires |b| == 4
    ensures 0 <= u < TWO_32
  {
    (b[0] as int) + 0x100 * (b[1] as int) + 0x1_0000 * (b[2] as int) + 0x100_0000 * (b[3] as int)
  }

  /** How unpacking ends. `Overrun`: the parameter of the last instruction falls on the sentinel
      cell, after which the loader writes past its buffers. */
  datatype Unpacked = Truncated | Overrun | Complete(code: seq<int>, starts: seq<bool>)

  /** Bytes that follow an instruction's first byte. */
  function Extra(t: byte): nat {
    if t % 4 == 2 then 1 else if t % 4 == 3 then 4 else 0
  }

  /** The cells of the instruction at `pos`. */
  function Decoded(input: seq<byte>, pos: nat): (cells: seq<int>)
    requires pos < |input| && pos + 1 + Extra(input[pos]) <= |input|
    ensures 1 <= |cells| <= 2 && 0 <= cells[0]
    ensures forall k :: 0 <= k < |cells| ==> -0x8000_0000 <= cells[k] < 0x8000_0000
  {
    var t := input[pos];
    if t % 4 == 0 then [t / 4]
    else if t % 4 == 1 then [t / 8, t / 4 % 2]
    else if t % 4 == 2 then [t / 4, input[pos + 1]]
    else [t / 4, Signed(Long(input[pos + 1..pos + 5]))]
  }

  function StartFlags(cells: seq<int>): seq<bool> {
    if |cells| == 2 then [true, false] else [true]
  }

  function Join(code: seq<int>, starts: seq<bool>, tail: Unpacked): Unpacked {
    if !tail.Complete? then tail else Complete(code + tail.code, starts + tail.starts)
  }

  lemma JoinJoin(c1: seq<int>, s1: seq<bool>, c2: seq<int>, s2: seq<bool>, tail: Unpacked)
    ensures Join(c1, s1, Join(c2, s2, tail)) == Join(c1 + c2, s1 + s2, tail)
  {
    if tail.Complete? {
      assert c1 + (c2 + tail.code) == c1 + c2 + tail.code;
      assert s1 + (s2 + tail.starts) == s1 + s2 + tail.starts;
    }
  }

  /** What is unpacked into `room` cells from `pos` on, followed by the sentinel. */
  function Unpacking(input: seq<byte>, pos: nat, room: nat): Unpacked
    decreases room
  {
    if room == 0 then Complete([LAST], [true])
    else if pos >= |input| || |input| < pos + 1 + Extra(input[pos]) then Truncated
    else
      var cells := Decoded(input, pos);
      if |cells| > room then Overrun
      else Join(cells, StartFlags(cells), Unpacking(input, pos + 1 + Extra(input[pos]), room - |cells|))
  }

  /** A cell that starts no instruction is a parameter: it directly follows a start and another
      start follows it. */
  ghost predicate Alternates(starts: seq<bool>) {
    && |starts| > 0 && starts[0] && starts[|starts| - 1]
    && forall k {:trigger Between(starts, k)} :: 0 <= k < |starts| && !starts[k] ==> Between(starts, k)
  }

  predicate Between(starts: seq<bool>, k: int) {
    0 < k < |starts| - 1 && starts[k - 1] && starts[k + 1]
  }

  /** Opcodes come from a byte, parameters are signed 32-bit words. */
  ghost predicate WordsOk(code: seq<int>, starts: seq<bool>)
    requires |code| == |starts|
  {
    forall k :: 0 <= k < |code| ==> -0x8000_0000 <= code[k] < 0x8000_0000 && (starts[k] ==> 0 <= code[k])
  }

  /** What every complete unpacking looks like. */
  ghost predicate Shaped(u: Unpacked, room: nat) {
    u.Complete? ==>
      && |u.code| == |u.starts| == room + 1
      && Alternates(u.starts) && WordsOk(u.code, u.starts) && u.code[room] == LAST
  }

  lemma ShapedJoin(cells: seq<int>, tail: Unpacked, room: nat)
    requires 1 <= |cells| <= 2 && Shaped(tail, room)
    requires forall k :: 0 <= k < |cells| ==> -0x8000_0000 <= cells[k] < 0x8000_0000
    requires 0 <= cells[0]
    ensures Shaped(Join(cells, StartFlags(cells), tail), room + |cells|)
  {
    if tail.Complete? {
      var u, m := Join(cells, StartFlags(cells), tail), |cells|;
      forall k | 0 <= k < |u.starts|
        ensures !u.starts[k] ==> Between(u.starts, k)
        ensures -0x8000_0000 <= u.code[k] < 0x8000_0000 && (u.starts[k] ==> 0 <= u.code[k])
      {
        if k >= m {
          assert u.starts[k] == tail.starts[k - m] && u.code[k] == tail.code[k - m];
          if !tail.starts[k - m] {
            assert Between(tail.starts, k - m);
            assert u.starts[k - 1] == tail.starts[k - m - 1] && u.starts[k + 1] == tail.starts[k - m + 1];
          }
        }
      }
    }
  }

  lemma ShapedStep(input: seq<byte>, pos: nat, room: nat)
    requires 0 < room && pos < |input| && pos + 1 + Extra(input[pos]) <= |input|
    requires |Decoded(input, pos)| <= room
    requires Shaped(Unpacking(input, pos + 1 + Extra(input[pos]), room - |Decoded(input, pos)|),
                    room - |Decoded(input, pos)|)
    ensures Shaped(Unpacking(input, pos, room), room)
  {
    hide Shaped, Join;
    var cells := Decoded(input, pos);
    ShapedJoin(cells, Unpacking(input, pos + 1 + Extra(input[pos]), room - |cells|), room - |cells|);
  }

  lemma {:induction false} UnpackingShaped(input: seq<byte>, pos: nat, room: nat)
    ensures Shaped(Unpacking(input, pos, room), room)
    decreases room
  {
    if room > 0 && pos < |input| && pos + 1 + Extra(input[pos]) <= |input| && |Decoded(input, pos)| <= room {
      UnpackingShaped(input, pos + 1 + Extra(input[pos]), room - |Decoded(input, pos)|);
      ShapedStep(input, pos, room);
    }
  }

  /** The unpacking loop has written the cells `c` with start flags `s` and stands at `pos`. */
  ghost predicate UnpackedSoFar(input: seq<byte>, codesize: nat, c: seq<int>, s: seq<bool>, pos: nat) {
    && |c| == |s| <= codesize
    && Unpacking(input, 0, codesize) == Join(c, s, Unpacking(input, pos, codesize - |c|))
  }

  lemma UnpackNone(input: seq<byte>, codesize: nat)
    ensures UnpackedSoFar(input, codesize, [], [], 0)
  {
    JoinJoin([], [], [], [], Unpacking(input, 0, codesize));
  }

  lemma UnpackOne(input: seq<byte>, codesize: nat, c: seq<int>, s: seq<bool>, pos: nat)
    requires |c| < codesize && UnpackedSoFar(input, codesize, c, s, pos)
    ensures if pos >= |input| || pos + 1 + Extra(input[pos]) > |input| then
              Unpacking(input, 0, codesize) == Truncated
            else
              var cells := Decoded(input, pos);
              if |c| + |cells| > codesize then Unpacking(input, 0, codesize) == Overrun
              else UnpackedSoFar(input, codesize, c + cells, s + StartFlags(cells), pos + 1 + Extra(input[pos]))
  {
    if pos < |input| && pos + 1 + Extra(input[pos]) <= |input| {
      var cells := Decoded(input, pos);
      if |c| + |cells| <= codesize {
        JoinJoin(c, s, cells, StartFlags(cells),
                 Unpacking(input, pos + 1 + Extra(input[pos]), codesize - |c| - |cells|));
      }
    }
  }

  lemma UnpackLast(input: seq<byte>, c: seq<int>, s: seq<bool>, pos: nat)
    requires UnpackedSoFar(input, |c|, c, s, pos)
    ensures Unpacking(input, 0, |c|) == Complete(c + [LAST], s + [true])
  {
  }

  /** The unpacking loop. `Overrun` stands for the writes past the end of both buffers. */
  method Unpack(input: seq<byte>, codesize: nat, code: array<int>, starts: array<bool>) returns (r: Unpacked)
    requires code.Length == starts.Length == codesize + 1
    modifies code, starts
    ensures r == Unpacking(input, 0, codesize)
    ensures r.Complete? ==> r == Complete(code[..], starts[..])
  {
    var i, pos := 0, 0;
    UnpackNone(input, codesize);
    assert code[..0] == [] && starts[..0] == [];
    while i < codesize
      invariant 0 <= i <= codesize && 0 <= pos
      invariant UnpackedSoFar(input, codesize, code[..i], starts[..i], pos)
    {
      UnpackOne(input, codesize, code[..i], starts[..i], pos);
      if pos >= |input| || pos + 1 + Extra(input[pos]) > |input| {
        return Truncated;
      }
      var cells := Decoded(input, pos);
      pos := pos + 1 + Extra(input[pos]);
      i := Store(cells, code, starts, i);
      if i > codesize {
        return Overrun;
      }
    }
    UnpackLast(input, code[..i], starts[..i], pos);
    StoreLast(code, starts, i);
    return Complete(code[..], starts[..]);
  }

  /** The sentinel after the code. */
  method StoreLast(code: array<int>, starts: array<bool>, i: nat)
    requires code.Length == starts.Length == i + 1
    modifies code, starts
    ensures code[..] == old(code[..i]) + [LAST] && starts[..] == old(starts[..i]) + [true]
  {
    starts[i] := true;
    code[i] := LAST;
    assert code[..] == code[..i] + [LAST] && starts[..] == starts[..i] + [true];
  }

  /** Write one instruction's cells at `i`; a parameter may land on the sentinel cell. */
  method Store(cells: seq<int>, code: array<int>, starts: array<bool>, i: nat) returns (next: nat)
    requires 1 <= |cells| <= 2 && i + 1 < code.Length == starts.Length
    modifies code, starts
    ensures next == i + |cells|
    ensures code[..next] == old(code[..i]) + cells
    ensures starts[..next] == old(starts[..i]) + StartFlags(cells)
  {
    starts[i] := true;
    code[i] := cells[0];
    next := i + 1;
    if |cells| == 2 {
      starts[next] := false;
      code[next] := cells[1];
      next := next + 1;
    }
  }

  /** What linking needs to know about the rest of the module: how many globals it declares and
      which builtin each field id stands for. */
  datatype Context = Context(nglobals: nat, builtins: map<int, int>)

  /** The tests that the linking loop makes for the instruction at `i`. */
  predicate Accepts(code: seq<int>, starts: seq<bool>, i: nat, ctx: Context)
    requires |code| == |starts| && i + 1 < |code|
  {
    var c := code[i];
    var u := Unsigned(code[i + 1]);
    && c < LAST
    && (if starts[i + 1] then 1 else 0) != ParameterCount(c)
    && (c == ACC_GLOBAL || c == SET_GLOBAL ==> u < ctx.nglobals)
    && (IsJump(c) ==> var target := Unsigned(u + i); target < |code| && starts[target])
    && (c == ACC_STACK ==> Signed(Unsigned(code[i + 1] + 2)) >= 0)
    && (c == SET_STACK || c == RET || c == POP || c == ACC_ENV || c == SET_ENV ==> Signed(u) >= 0)
    && (c == ACC_BUILTIN ==> u in ctx.builtins)
    && (c == CALL || c == OBJ_CALL ==> u <= CALL_MAX_ARGS)
    && (c == TAIL_CALL ==> u % 8 <= CALL_MAX_ARGS)
    && (c == APPLY ==> 0 < u < CALL_MAX_ARGS)
    && (c == MAKE_ENV ==> u <= 0xFF)
    && (c == MAKE_ARRAY ==> u <= 0x10000)
    && (c == JUMP_TABLE ==> u <= 0xFF && i + 1 + u * 2 < |code| - 1)
  }

  /** The parameter of the instruction at `i` after linking: jumps hold the cell they go to. */
  function LinkedParameter(code: seq<int>, i: nat, ctx: Context): int
    requires i + 1 < |code|
    requires code[i] == ACC_BUILTIN ==> Unsigned(code[i + 1]) in ctx.builtins
  {
    var c, p := code[i], code[i + 1];
    if IsJump(c) then Unsigned(Unsigned(p) + i)
    else if c == ACC_STACK || c == ACC_INDEX then p + 2
    else if c == ACC_BUILTIN then ctx.builtins[Unsigned(p)]
    else if c == JUMP_TABLE then 2 * p
    else p
  }

  /** `cells` is `code` with the instruction at `i` linked. */
  ghost predicate LinksAt(code: seq<int>, cells: seq<int>, i: nat, ctx: Context)
    requires i + 1 < |code| == |cells|
  {
    && cells[i] == code[i]
    && (code[i] == ACC_BUILTIN ==> Unsigned(code[i + 1]) in ctx.builtins)
    && (ParameterCount(code[i]) == 1 ==> cells[i + 1] == LinkedParameter(code, i, ctx))
  }

  lemma AcceptedIsOk(code: seq<int>, cells: seq<int>, starts: seq<bool>, i: nat, ctx: Context)
    requires |code| == |cells| == |starts| && i + 1 < |code|
    requires Alternates(starts) && WordsOk(code, starts) && starts[i]
    requires Accepts(code, starts, i, ctx) && LinksAt(code, cells, i, ctx)
    ensures InstructionOk(cells, starts, i)
  {
    assert starts[i + 1] || Between(starts, i + 1);
    UnsignedOf(code[i + 1]);
    UnsignedOf(code[i + 1] + 2);
  }

  lemma UnsignedOf(n: int)
    requires -0x8000_0000 <= n < TWO_32
    ensures Unsigned(n) == if n < 0 then n + TWO_32 else n
  {
  }

  /** The tests look at the instruction's own cells only. */
  lemma AcceptsLocally(code: seq<int>, raw: seq<int>, starts: seq<bool>, i: nat, ctx: Context)
    requires |code| == |raw| == |starts| && i + 1 < |code|
    requires code[i] == raw[i] && code[i + 1] == raw[i + 1]
    ensures Accepts(code, starts, i, ctx) <==> Accepts(raw, starts, i, ctx)
  {
  }

  /** The instructions before cell `i` are linked in `cells`. */
  ghost predicate LinkedUpTo(raw: seq<int>, cells: seq<int>, starts: seq<bool>, i: nat, ctx: Context)
    requires |raw| == |cells| == |starts|
  {
    forall k {:trigger LinksAt(raw, cells, k, ctx)} :: 0 <= k < i && k + 1 < |raw| && starts[k] ==>
      LinksAt(raw, cells, k, ctx)
  }

  /** Linking the instruction at `i` leaves those before it linked. */
  lemma LinkOne(raw: seq<int>, before: seq<int>, after: seq<int>, starts: seq<bool>, i: nat, next: nat, ctx: Context)
    requires |raw| == |before| == |after| == |starts| && i + 1 < |raw|
    requires starts[i] && (starts[i + 1] <==> next == i + 1) && (!starts[i + 1] <==> next == i + 2)
    requires LinkedUpTo(raw, before, starts, i, ctx)
    requires LinksAt(raw, after, i, ctx)
    requires before == after || before[i + 1 := after[i + 1]] == after
    ensures LinkedUpTo(raw, after, starts, next, ctx)
  {
    forall k | 0 <= k < next && k + 1 < |raw| && starts[k]
      ensures LinksAt(raw, after, k, ctx)
    {
      if k < i {
        assert LinksAt(raw, before, k, ctx);
        assert after[k] == before[k] && after[k + 1] == before[k + 1];
      }
    }
  }

  /** The instructions before cell `i` pass their tests. */
  ghost predicate AcceptedUpTo(code: seq<int>, starts: seq<bool>, i: nat, ctx: Context)
    requires |code| == |starts|
  {
    forall k {:trigger Accepts(code, starts, k, ctx)} :: 0 <= k < i && k + 1 < |code| && starts[k] ==>
      Accepts(code, starts, k, ctx)
  }

  lemma AcceptOne(code: seq<int>, starts: seq<bool>, i: nat, next: nat, ctx: Context)
    requires |code| == |starts| && i + 1 < |code|
    requires AcceptedUpTo(code, starts, i, ctx) && Accepts(code, starts, i, ctx)
    requires next == i + 1 || (next == i + 2 && !starts[i + 1])
    ensures AcceptedUpTo(code, starts, next, ctx)
  {
  }

  lemma LinkedToEnd(raw: seq<int>, cells: seq<int>, starts: seq<bool>, i: nat, ctx: Context)
    requires |raw| == |cells| == |starts| <= i + 1
    requires AcceptedUpTo(raw, starts, i, ctx) && LinkedUpTo(raw, cells, starts, i, ctx)
    ensures AllAccepted(raw, starts, ctx) && LinkedUpTo(raw, cells, starts, |raw|, ctx)
  {
  }

  ghost predicate AllAccepted(code: seq<int>, starts: seq<bool>, ctx: Context)
    requires |code| == |starts|
  {
    AcceptedUpTo(code, starts, |code|, ctx)
  }

  lemma AllLinked(raw: seq<int>, cells: seq<int>, starts: seq<bool>, ctx: Context)
    requires |raw| == |cells| == |starts| && Alternates(starts) && WordsOk(raw, starts)
    requires cells[|cells| - 1] == LAST
    requires AllAccepted(raw, starts, ctx) && LinkedUpTo(raw, cells, starts, |raw|, ctx)
    ensures Linked(cells, starts)
  {
    forall i | 0 <= i < |raw| - 1 && starts[i]
      ensures InstructionOk(cells, starts, i)
    {
      assert Accepts(raw, starts, i, ctx);
      assert LinksAt(raw, cells, i, ctx);
      AcceptedIsOk(raw, cells, starts, i, ctx);
    }
  }

  /** The linking loop accepts exactly the code whose every instruction passes its tests, and
      then leaves linked code behind. */
  method LinkCode(code: array<int>, starts: seq<bool>, ctx: Context) returns (ok: bool)
    requires code.Length == |starts| && Alternates(starts) && WordsOk(code[..], starts)
    requires code[code.Length - 1] == LAST
    modifies code
    ensures ok <==> AllAccepted(old(code[..]), starts, ctx)
    ensures ok ==> LinkedUpTo(old(code[..]), code[..], starts, code.Length, ctx)
    ensures ok ==> Linked(code[..], starts)
  {
    ghost var raw := code[..];
    var i := 0;
    while i < code.Length - 1
      invariant 0 <= i < code.Length && starts[i]
      invariant forall k :: i <= k < code.Length ==> code[k] == raw[k]
      invariant AcceptedUpTo(raw, starts, i, ctx) && LinkedUpTo(raw, code[..], starts, i, ctx)
    {
      ghost var before, here := code[..], i;
      AcceptsLocally(before, raw, starts, i, ctx);
      if !Accepts(code[..], starts, i, ctx) {
        assert !Accepts(raw, starts, i, ctx);
        return false;
      }
      assert starts[i + 1] || Between(starts, i + 1);
      if !starts[i + 1] {
        code[i + 1] := LinkedParameter(code[..], i, ctx);
        i := i + 1;
      }
      i := i + 1;
      LinkOne(raw, before, code[..], starts, here, i, ctx);
      AcceptOne(raw, starts, here, i, ctx);
    }
    LinkedToEnd(raw, code[..], starts, i, ctx);
    AllLinked(raw, code[..], starts, ctx);
    return true;
  }

  /** A function of the module: where it starts and how many arguments it takes. */
  datatype Entry = Entry(addr: nat, nargs: int)

  datatype Module = Rejected | Module(code: seq<int>, starts: seq<bool>, marks: seq<int>)

  /** The first `n` entries carry their argument counts as marks. */
  ghost predicate EntriesMarked(marks: seq<int>, entries: seq<Entry>, n: nat) {
    forall j :: 0 <= j < n && j < |entries| ==>
      entries[j].nargs != UNKNOWN && MarkedAt(marks, entries[j].addr, entries[j].nargs)
  }

  lemma EntryMarked(before: seq<int>, after: seq<int>, entries: seq<Entry>, i: nat)
    requires Extends(before, after) && i < |entries|
    requires EntriesMarked(before, entries, i)
    requires entries[i].nargs != UNKNOWN && MarkedAt(after, entries[i].addr, entries[i].nargs)
    ensures EntriesMarked(after, entries, i + 1)
  {
  }

  /** The walks from the functions in the table, in ascending order, each on the marks of those before it. */
  function EntriesWalked(code: seq<int>, starts: seq<bool>, marks: seq<int>, entries: seq<Entry>, prev: nat): Marking
    requires |marks| == |code| == |starts|
    decreases |entries|
  {
    if entries == [] then Passed(marks)
    else
      var e := entries[0];
      if e.addr + 1 >= |code| || !starts[e.addr] || e.addr < prev then Refused
      else
        var r := Walked(code, marks, e.addr, e.nargs, e.nargs);
        if r.Refused? then r else EntriesWalked(code, starts, r.marks, entries[1..], e.addr)
  }

  /** The stack check of a module: from the first cell and then from every function. */
  function ModuleWalked(code: seq<int>, starts: seq<bool>, entries: seq<Entry>): Marking
    requires |code| == |starts|
  {
    var r := Walked(code, Unmarked(|code|), 0, 0, 0);
    if r.Refused? then r else EntriesWalked(code, starts, r.marks, entries, 0)
  }

  /** The loop over the functions, with its mark table. */
  method CheckEntries(code: seq<int>, starts: seq<bool>, entries: seq<Entry>) returns (ok: bool, marks: seq<int>)
    requires Linked(code, starts)
    requires forall e <- entries :: 0 <= e.nargs <= 0xFF
    ensures ok <==> ModuleWalked(code, starts, entries).Passed?
    ensures ok ==> marks == ModuleWalked(code, starts, entries).marks
    ensures ok ==> Verified(code, starts, marks) && marks[0] == 0 && EntriesMarked(marks, entries, |entries|)
  {
    hide Walked, AddedOk;
    var stmp := new int[|code|](_ => UNKNOWN);
    ghost var none := stmp[..];
    assert none == Unmarked(|code|);
    marks := [];
    ok := CheckStack(code, starts, stmp, 0, 0, 0);
    var prev, i := 0, 0;
    while ok && i < |entries|
      invariant 0 <= i <= |entries|
      invariant ok ==> AddedOk(code, starts, none, stmp[..], -1, 0) && stmp[0] == 0
      invariant ok ==> EntriesMarked(stmp[..], entries, i)
      invariant if ok
                then EntriesWalked(code, starts, stmp[..], entries[i..], prev) == ModuleWalked(code, starts, entries)
                else ModuleWalked(code, starts, entries).Refused?
      decreases |entries| - i, ok
    {
      var e := entries[i];
      if e.addr + 1 >= |code| || !starts[e.addr] || e.addr < prev {
        return false, [];
      }
      ghost var before := stmp[..];
      ok := CheckStack(code, starts, stmp, e.addr, e.nargs, e.nargs);
      if ok {
        AddedOkThen(code, starts, none, before, stmp[..], -1, 0, -1, 0);
        EntryMarked(before, stmp[..], entries, i);
        assert entries[i..][1..] == entries[i + 1..];
        i, prev := i + 1, e.addr;
      }
    }
    if ok {
      marks := stmp[..];
      FreshVerified(code, starts, marks);
    }
  }

  /** The code part of `neko_read_module`: unpack, link, then check the stack. An accepted module
      is verified, with the first cell at height 0 and every function at its argument count. */
  method ReadCode(input: seq<byte>, codesize: nat, ctx: Context, entries: seq<Entry>) returns (m: Module)
    requires forall e <- entries :: 0 <= e.nargs <= 0xFF
    ensures m.Module? ==>
      Verified(m.code, m.starts, m.marks) && m.marks[0] == 0 && EntriesMarked(m.marks, entries, |entries|)
    ensures m.Module? ==>
      var raw := Unpacking(input, 0, codesize);
      && raw.Complete? && |raw.code| == |raw.starts| == |m.code| && m.starts == raw.starts
      && AllAccepted(raw.code, raw.starts, ctx) && LinkedUpTo(raw.code, m.code, m.starts, |m.code|, ctx)
      && ModuleWalked(m.code, m.starts, entries) == Passed(m.marks)
    ensures m.Rejected? ==>
      var raw := Unpacking(input, 0, codesize);
      raw.Complete? ==>
        && |raw.code| == |raw.starts|
        && (AllAccepted(raw.code, raw.starts, ctx) ==>
              exists cells: seq<int> :: |cells| == |raw.code| && LinkedUpTo(raw.code, cells, raw.starts, |cells|, ctx)
                                        && ModuleWalked(cells, raw.starts, entries).Refused?)
  {
    var code, flags := new int[codesize + 1], new bool[codesize + 1];
    var unpacked := Unpack(input, codesize, code, flags);
    if !unpacked.Complete? {
      return Rejected;
    }
    UnpackingShaped(input, 0, codesize);
    var starts := flags[..];
    var linked := LinkCode(code, starts, ctx);
    if !linked {
      return Rejected;
    }
    var cells := code[..];
    var ok, marks := CheckEntries(cells, starts, entries);
    return if ok then Module(cells, starts, marks) else Rejected;
  }
}
