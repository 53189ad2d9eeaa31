/** What happens between setting a trap up and processing it: operands and frames come and go,
    inner traps open, close and catch, the array is replaced. Processing the trap undoes it all. */
module TrapChain {
  import opened VmStack

  /** One step of protected code. */
  datatype Op =
    | Push(v: int)
    | Pop(n: nat)
    | Write(k: nat, v: int)                               // the operand `k` below the top
    | EnterCall(pc: int, m: int, vthis: int, env: int)
    | LeaveCall
    | OpenTrap
    | CloseTrap
    | Raise                                               // caught by the innermost trap
    | SetThis(v: int)
    | SetEnv(v: int)

  /** No live record above `floor` covers the word that is the `p`-th from the stack's end. */
  predicate OutsideRecords(ops: seq<int>, trap: int, floor: nat, p: int)
    decreases trap
  {
    trap <= floor || !(6 <= trap <= |ops|) ||
    (!(trap - 5 <= p <= trap) &&
     (RecordAt(ops, trap)[5] < trap ==> OutsideRecords(ops, RecordAt(ops, trap)[5], floor, p)))
  }

  /** The words between the stacks when the array has its greatest size. An array that can still be
      doubled has room for any step. */
  function Room(s: Stacks): int {
    MAX_STACK_SIZE - |s.calls| - |s.ops|
  }

  /** There is room for what the step reserves. */
  predicate Fits(s: Stacks, op: Op) {
    match op
    case Push(_) => Room(s) >= 1
    case OpenTrap => Room(s) >= 6
    case EnterCall(_, _, _, _) => Room(s) >= 4
    case _ => true
  }

  /** By how many words a failing step has moved `sp` when it throws `Stack Overflow`. */
  function Moved(op: Op): nat {
    if op.Push? then 1 else if op.OpenTrap? then 6 else 0
  }

  /** Where `sp` is then: how many words of the array lie below it. */
  function SpAfter(s: Stacks, moved: nat): int {
    |s.calls| + Room(s) - moved
  }

  /** The call stack with its words from `low` on erased. */
  function Hurt(s: Stacks, low: int): Stacks {
    s.(calls := Erased(s.calls, if low < 0 then 0 else low))
  }

  /** An exception with `sp` moved: popping the operands starts at `sp`, inside the call stack perhaps. */
  function AfterOverflow(s: Stacks, moved: nat): Stacks
    requires Processable(s)
  {
    Hurt(AfterProcess(s), SpAfter(s, moved))
  }

  /** The step is well nested in the trap at `floor`: it stays above that trap's record and its
      call stack, and live records are only written or removed as records. A step that does not fit throws
      to an inner trap. */
  predicate Nested(s: Stacks, op: Op, floor: nat) {
    && 6 <= floor <= s.trap <= |s.ops| && Room(s) >= 0
    && (Fits(s, op) || (s.trap > floor && Processable(s)))
    && match op
       case Push(_) => true
       case Pop(n) => s.trap <= |s.ops| - n
       case Write(k, _) => floor < |s.ops| - k && OutsideRecords(s.ops, s.trap, floor, |s.ops| - k)
       case EnterCall(_, _, _, _) => true
       case LeaveCall => |s.calls| >= 4 && RecordAt(s.ops, s.trap)[0] + 1 <= |s.calls| - 4
       case OpenTrap => true
       case CloseTrap => s.trap > floor && s.trap == |s.ops|
       case Raise => s.trap > floor && Processable(s)
       case SetThis(_) => true
       case SetEnv(_) => true
  }

  function Apply(s: Stacks, op: Op, floor: nat): Stacks
    requires Nested(s, op, floor)
  {
    if !Fits(s, op) then AfterOverflow(s, Moved(op)) else
    match op
    case Push(v) => s.(ops := [v] + s.ops)
    case Pop(n) => s.(ops := s.ops[n..])
    case Write(k, v) => s.(ops := s.ops[k := v])
    case EnterCall(pc, m, vthis, env) => s.(calls := s.calls + [pc, s.env, s.vthis, m], vthis := vthis, env := env)
    case LeaveCall =>
      var n := |s.calls|;
      s.(calls := s.calls[..n - 4], env := s.calls[n - 3], vthis := s.calls[n - 2])
    case OpenTrap => AfterSetup(s)
    case CloseTrap => s.(trap := s.ops[5], ops := s.ops[6..])
    case Raise => AfterProcess(s)
    case SetThis(v) => s.(vthis := v)
    case SetEnv(v) => s.(env := v)
  }

  /** The records from `trap` down to `floor`: each names an earlier one, six or more words lower,
      and a call stack no taller than the one it was set on; `n` is the height above it. */
  ghost predicate Chain(ops: seq<int>, trap: int, n: int, floor: nat, base: nat)
    decreases trap
  {
    && 6 <= trap <= |ops|
    && (trap == floor ||
        (&& floor + 6 <= trap
         && var r := RecordAt(ops, trap);
         && base - 1 <= r[0] < n && (n - 1 - r[0]) % 4 == 0
         && r[5] <= trap - 6
         && Chain(ops, r[5], r[0] + 1, floor, base)))
  }

  /** `t` is a state inside the trap that was set up in `s`. */
  ghost predicate Inside(s: Stacks, t: Stacks) {
    var floor, base := |s.ops| + 6, |s.calls|;
    && |t.ops| >= floor && t.ops[|t.ops| - floor..] == AfterSetup(s).ops
    && |t.calls| >= base && t.calls[..base] == s.calls && (|t.calls| - base) % 4 == 0
    && Chain(t.ops, t.trap, |t.calls|, floor, base)
  }

  lemma SetupIsInside(s: Stacks)
    ensures Inside(s, AfterSetup(s))
  {
  }

  /** Records are read from the stack's end, so what is above them does not matter. */
  lemma {:induction false} ChainKept(ops: seq<int>, ops': seq<int>, trap: int, n: int, floor: nat, base: nat)
    requires Chain(ops, trap, n, floor, base)
    requires trap <= |ops'| && ops'[|ops'| - trap..] == ops[|ops| - trap..]
    ensures Chain(ops', trap, n, floor, base)
    decreases trap
  {
    if trap != floor {
      var d, d' := |ops| - trap, |ops'| - trap;
      assert RecordAt(ops', trap) == ops'[d'..][..6] == ops[d..][..6] == RecordAt(ops, trap);
      var previous := RecordAt(ops, trap)[5];
      assert ops'[|ops'| - previous..] == ops'[d'..][trap - previous..];
      assert ops[|ops| - previous..] == ops[d..][trap - previous..];
      ChainKept(ops, ops', previous, RecordAt(ops, trap)[0] + 1, floor, base);
    }
  }

  lemma {:induction false} ChainKeptOutside(ops: seq<int>, trap: int, n: int, floor: nat, base: nat, k: nat, v: int)
    requires Chain(ops, trap, n, floor, base) && k < |ops|
    requires OutsideRecords(ops, trap, floor, |ops| - k) && floor < |ops| - k
    ensures Chain(ops[k := v], trap, n, floor, base)
    decreases trap
  {
    if trap != floor {
      assert RecordAt(ops[k := v], trap) == RecordAt(ops, trap);
      ChainKeptOutside(ops, RecordAt(ops, trap)[5], RecordAt(ops, trap)[0] + 1, floor, base, k, v);
    }
  }

  /** A taller or shorter call stack, as long as whole frames come and go above the record. */
  lemma ChainOnCalls(ops: seq<int>, trap: int, n: int, n': int, floor: nat, base: nat)
    requires Chain(ops, trap, n, floor, base) && (n' - n) % 4 == 0
    requires trap != floor ==> RecordAt(ops, trap)[0] < n'
    ensures Chain(ops, trap, n', floor, base)
  {
  }

  lemma LowerTail(ops: seq<int>, ops': seq<int>, n: nat, k: nat)
    requires k <= n <= |ops| && n <= |ops'| && ops'[|ops'| - n..] == ops[|ops| - n..]
    ensures ops'[|ops'| - k..] == ops[|ops| - k..]
  {
    assert ops'[|ops'| - k..] == ops'[|ops'| - n..][n - k..];
    assert ops[|ops| - k..] == ops[|ops| - n..][n - k..];
  }

  /** Operands change only above `trap`, or not at all. */
  lemma OperandsInside(s: Stacks, t: Stacks, t': Stacks)
    requires Inside(s, t) && t'.calls == t.calls && t'.trap == t.trap
    requires t.trap <= |t'.ops| && t'.ops[|t'.ops| - t.trap..] == t.ops[|t.ops| - t.trap..]
    ensures Inside(s, t')
  {
    var floor := |s.ops| + 6;
    ChainKept(t.ops, t'.ops, t.trap, |t.calls|, floor, |s.calls|);
    ChainAtLeast(t.ops, t.trap, |t.calls|, floor, |s.calls|);
    LowerTail(t.ops, t'.ops, t.trap, floor);
  }

  lemma ChainAtLeast(ops: seq<int>, trap: int, n: int, floor: nat, base: nat)
    requires Chain(ops, trap, n, floor, base)
    ensures 6 <= trap <= |ops| && floor <= trap
  {
  }

  lemma WriteInside(s: Stacks, t: Stacks, k: nat, v: int)
    requires Inside(s, t) && k < |t.ops|
    requires |s.ops| + 6 < |t.ops| - k && OutsideRecords(t.ops, t.trap, |s.ops| + 6, |t.ops| - k)
    ensures Inside(s, t.(ops := t.ops[k := v]))
  {
    var floor := |s.ops| + 6;
    ChainKeptOutside(t.ops, t.trap, |t.calls|, floor, |s.calls|, k, v);
    assert t.ops[k := v][|t.ops| - floor..] == t.ops[|t.ops| - floor..];
  }

  lemma CallsInside(s: Stacks, t: Stacks, t': Stacks)
    requires Inside(s, t) && t'.ops == t.ops && t'.trap == t.trap
    requires (|t'.calls| - |t.calls|) % 4 == 0 && |t'.calls| >= |s.calls| && t'.calls[..|s.calls|] == s.calls
    requires t.trap != |s.ops| + 6 ==> RecordAt(t.ops, t.trap)[0] < |t'.calls|
    ensures Inside(s, t')
  {
    ChainOnCalls(t.ops, t.trap, |t.calls|, |t'.calls|, |s.ops| + 6, |s.calls|);
    WholeFrames(|s.calls|, |t.calls|, |t'.calls|);
  }

  lemma WholeFrames(a: int, b: int, c: int)
    requires (b - a) % 4 == 0 && (c - b) % 4 == 0
    ensures (c - a) % 4 == 0
  {
  }

  lemma LeaveInside(s: Stacks, t: Stacks)
    requires Inside(s, t) && Nested(t, LeaveCall, |s.ops| + 6)
    ensures Inside(s, Apply(t, LeaveCall, |s.ops| + 6))
  {
    var t' := Apply(t, LeaveCall, |s.ops| + 6);
    var saved := RecordAt(t.ops, t.trap)[0];
    assert saved >= |s.calls| - 1 by {
      if t.trap == |s.ops| + 6 {
        assert saved == t.ops[|t.ops| - t.trap..][0] == AfterSetup(s).ops[0];
      }
    }
    assert t'.calls[..|s.calls|] == t.calls[..|s.calls|];
    CallsInside(s, t, t');
  }

  /** A new record on top of a chain makes a chain. */
  lemma ChainOpened(ops: seq<int>, record: seq<int>, trap: int, n: nat, floor: nat, base: nat)
    requires Chain(ops, trap, n, floor, base) && base <= n && |record| == 6 && record[0] == n - 1 && record[5] == trap
    ensures Chain(record + ops, |ops| + 6, n, floor, base)
  {
    var ops' := record + ops;
    ChainAtLeast(ops, trap, n, floor, base);
    SameTail(ops', ops, 6, trap);
    ChainKept(ops, ops', trap, n, floor, base);
    assert RecordAt(ops', |ops| + 6) == record;
  }

  lemma OpenInside(s: Stacks, t: Stacks)
    requires Inside(s, t)
    ensures Inside(s, AfterSetup(t))
  {
    hide Chain, RecordAt;
    var record := TrapRecord(|t.calls| - 1, t.vthis, t.env, t.jit, t.trap);
    assert record[0] == |t.calls| - 1 && record[5] == t.trap;
    ChainOpened(t.ops, record, t.trap, |t.calls|, |s.ops| + 6, |s.calls|);
    SameTail(record + t.ops, t.ops, 6, |s.ops| + 6);
  }

  /** Below an inner record is the chain that was there when it was set up. */
  lemma ChainBelow(ops: seq<int>, ops': seq<int>, trap: int, n: int, floor: nat, base: nat)
    requires Chain(ops, trap, n, floor, base) && trap != floor && ops' == ops[|ops| - trap + 6..]
    ensures Chain(ops', RecordAt(ops, trap)[5], RecordAt(ops, trap)[0] + 1, floor, base)
    ensures floor <= |ops'|
  {
    var r := RecordAt(ops, trap);
    ChainAtLeast(ops, r[5], r[0] + 1, floor, base);
    SameTail(ops, ops', |ops| - trap + 6, r[5]);
    ChainKept(ops, ops', r[5], r[0] + 1, floor, base);
  }

  lemma SameTail(ops: seq<int>, ops': seq<int>, n: nat, k: nat)
    requires n <= |ops| && ops' == ops[n..] && k <= |ops'|
    ensures ops'[|ops'| - k..] == ops[|ops| - k..]
  {
  }

  /** The calls that a record remembers are a whole number of frames above the outer trap's. */
  lemma CallsBelow(ops: seq<int>, trap: int, n: int, floor: nat, base: nat)
    requires Chain(ops, trap, n, floor, base) && trap != floor && (n - base) % 4 == 0
    ensures base <= RecordAt(ops, trap)[0] + 1 <= n && (RecordAt(ops, trap)[0] + 1 - base) % 4 == 0
    ensures n >= base
  {
  }

  /** The same chain counts for the call stack as it is, and as the record remembers it. */
  lemma ChainBelowOnCalls(ops: seq<int>, ops': seq<int>, trap: int, n: int, n': int, floor: nat, base: nat)
    requires Chain(ops, trap, n, floor, base) && trap != floor && ops' == ops[|ops| - trap + 6..]
    requires n' == n || n' == RecordAt(ops, trap)[0] + 1
    ensures Chain(ops', RecordAt(ops, trap)[5], n', floor, base)
    ensures floor <= |ops'|
  {
    ChainBelow(ops, ops', trap, n, floor, base);
    ChainOnCalls(ops', RecordAt(ops, trap)[5], RecordAt(ops, trap)[0] + 1, n', floor, base);
  }

  /** Catching at an inner record, or closing it, goes back to the state it was set up in as far
      as the outer trap is concerned. */
  lemma InnerGone(s: Stacks, t: Stacks, t': Stacks)
    requires Inside(s, t) && t.trap != |s.ops| + 6
    requires t'.trap == RecordAt(t.ops, t.trap)[5] && t'.ops == t.ops[|t.ops| - t.trap + 6..]
    requires t'.calls == t.calls || t'.calls == t.calls[..RecordAt(t.ops, t.trap)[0] + 1]
    ensures Inside(s, t')
  {
    hide Chain, AfterSetup;
    var floor, base := |s.ops| + 6, |s.calls|;
    ChainAtLeast(t.ops, t.trap, |t.calls|, floor, base);
    CallsBelow(t.ops, t.trap, |t.calls|, floor, base);
    ChainBelowOnCalls(t.ops, t'.ops, t.trap, |t.calls|, |t'.calls|, floor, base);
    SameTail(t.ops, t'.ops, |t.ops| - t.trap + 6, floor);
    assert t'.calls[..base] == t.calls[..base];
  }

  /** Operands that come or go above the innermost record. */
  lemma PushInside(s: Stacks, t: Stacks, v: int)
    requires Inside(s, t)
    ensures Inside(s, t.(ops := [v] + t.ops))
  {
    var t' := t.(ops := [v] + t.ops);
    SameTail(t'.ops, t.ops, 1, t.trap);
    OperandsInside(s, t, t');
  }

  lemma PopInside(s: Stacks, t: Stacks, n: nat)
    requires Inside(s, t) && t.trap <= |t.ops| - n
    ensures Inside(s, t.(ops := t.ops[n..]))
  {
    var t' := t.(ops := t.ops[n..]);
    SameTail(t.ops, t'.ops, n, t.trap);
    OperandsInside(s, t, t');
  }

  lemma EnterInside(s: Stacks, t: Stacks, words: seq<int>, vthis: int, env: int)
    requires Inside(s, t) && |words| == 4
    ensures Inside(s, t.(calls := t.calls + words, vthis := vthis, env := env))
  {
    var t' := t.(calls := t.calls + words, vthis := vthis, env := env);
    assert t'.calls[..|s.calls|] == t.calls[..|s.calls|];
    CallsInside(s, t, t');
  }

  lemma InnerStepInside(s: Stacks, t: Stacks, op: Op)
    requires Inside(s, t) && Nested(t, op, |s.ops| + 6) && (op.CloseTrap? || op.Raise?)
    ensures Inside(s, Apply(t, op, |s.ops| + 6))
  {
    if op.CloseTrap? {
      assert RecordAt(t.ops, t.trap)[5] == t.ops[5];
    }
    InnerGone(s, t, Apply(t, op, |s.ops| + 6));
  }

  /** Every well-nested step that fits stays inside. */
  lemma StepInside(s: Stacks, t: Stacks, op: Op)
    requires Inside(s, t) && Nested(t, op, |s.ops| + 6) && Fits(t, op)
    ensures Inside(s, Apply(t, op, |s.ops| + 6))
  {
    match op
    case Push(v) => PushInside(s, t, v);
    case Pop(n) => PopInside(s, t, n);
    case Write(k, v) => WriteInside(s, t, k, v);
    case EnterCall(pc, m, vthis, env) => EnterInside(s, t, [pc, t.env, t.vthis, m], vthis, env);
    case LeaveCall => LeaveInside(s, t);
    case OpenTrap => OpenInside(s, t);
    case CloseTrap => InnerStepInside(s, t, op);
    case Raise => InnerStepInside(s, t, op);
    case SetThis(_) =>
    case SetEnv(_) =>
  }

  /** A step that does not fit goes back to an inner trap like any exception, but the words that `sp` had
      passed are gone, those of the outer trap's call stack included. */
  lemma OverflowInside(s: Stacks, t: Stacks, moved: nat)
    requires Inside(s, t) && t.trap != |s.ops| + 6 && Processable(t)
    ensures Inside(Hurt(s, SpAfter(t, moved)), AfterOverflow(t, moved))
  {
    InnerGone(s, t, AfterProcess(t));
    HurtInside(s, AfterProcess(t), SpAfter(t, moved));
  }

  lemma HurtInside(s: Stacks, t: Stacks, low: int)
    requires Inside(s, t)
    ensures Inside(Hurt(s, low), Hurt(t, low))
  {
    ErasedPrefix(t.calls, |s.calls|, if low < 0 then 0 else low);
  }

  lemma ErasedPrefix(calls: seq<int>, n: nat, from: nat)
    requires n <= |calls|
    ensures |Erased(calls, from)| == |calls| && Erased(calls, from)[..n] == Erased(calls[..n], from)
  {
  }

  lemma HurtTwice(s: Stacks, a: int, b: int)
    ensures Hurt(Hurt(s, a), b) == Hurt(s, if a < b then a else b)
  {
    var x, y := if a < 0 then 0 else a, if b < 0 then 0 else b;
    assert Erased(Erased(s.calls, x), y) == Erased(s.calls, if x < y then x else y);
  }

  lemma HurtKeeps(s: Stacks, low: int)
    ensures Hurt(s, low).ops == s.ops && |Hurt(s, low).calls| == |s.calls|
  {
  }

  lemma NotHurt(s: Stacks, low: int)
    requires |s.calls| <= low
    ensures Hurt(s, low) == s
  {
  }

  /** A run of steps, each well nested in the trap at `floor`. */
  predicate NestedRun(s: Stacks, run: seq<Op>, floor: nat)
    decreases |run|
  {
    run == [] || (Nested(s, run[0], floor) && NestedRun(Apply(s, run[0], floor), run[1..], floor))
  }

  function ApplyAll(s: Stacks, run: seq<Op>, floor: nat): Stacks
    requires NestedRun(s, run, floor)
    decreases |run|
  {
    if run == [] then s else ApplyAll(Apply(s, run[0], floor), run[1..], floor)
  }

  /** How low `sp` is when the run's steps fail; no step that fits counts. */
  function Lowest(s: Stacks, run: seq<Op>, floor: nat): int
    requires NestedRun(s, run, floor)
    decreases |run|
  {
    if run == [] then MAX_STACK_SIZE
    else
      var rest := Lowest(Apply(s, run[0], floor), run[1..], floor);
      if !Fits(s, run[0]) && SpAfter(s, Moved(run[0])) < rest then SpAfter(s, Moved(run[0])) else rest
  }

  /** Every well-nested run stays inside, but for what failing steps have erased. */
  lemma {:induction false} RunInside(s: Stacks, t: Stacks, run: seq<Op>)
    requires Inside(s, t) && NestedRun(t, run, |s.ops| + 6) && |s.calls| <= MAX_STACK_SIZE
    ensures Inside(Hurt(s, Lowest(t, run, |s.ops| + 6)), ApplyAll(t, run, |s.ops| + 6))
    decreases |run|
  {
    hide Inside, Chain, Hurt, AfterOverflow;
    if run == [] {
      NotHurt(s, MAX_STACK_SIZE);
    } else {
      var t', low := Apply(t, run[0], |s.ops| + 6), SpAfter(t, Moved(run[0]));
      if Fits(t, run[0]) {
        StepInside(s, t, run[0]);
        RunInside(s, t', run[1..]);
      } else {
        OverflowInside(s, t, Moved(run[0]));
        HurtKeeps(s, low);
        RunInside(Hurt(s, low), t', run[1..]);
        HurtTwice(s, low, Lowest(t', run[1..], |s.ops| + 6));
      }
    }
  }

  /** The innermost record can always be processed. */
  lemma InsideProcessable(s: Stacks, t: Stacks)
    requires Inside(s, t)
    ensures Processable(t)
    ensures t.trap == |s.ops| + 6 ==>
      && RecordAt(t.ops, t.trap) == TrapRecord(|s.calls| - 1, s.vthis, s.env, s.jit, s.trap)
      && t.ops[|t.ops| - t.trap + 6..] == s.ops
  {
    if t.trap == |s.ops| + 6 {
      assert RecordAt(t.ops, t.trap) == t.ops[|t.ops| - t.trap..][..6];
      assert t.ops[|t.ops| - t.trap + 6..] == t.ops[|t.ops| - t.trap..][6..];
    }
  }

  /** When the outer trap is the innermost again, processing it restores the state of its setup. */
  lemma ProcessRestores(s: Stacks, t: Stacks)
    requires Inside(s, t) && t.trap == |s.ops| + 6 && s.jit % 2 == 0
    ensures Processable(t) && AfterProcess(t) == s
  {
    InsideProcessable(s, t);
  }

  /** An exception that no inner handler keeps: process records until the outer one has been. */
  ghost function Unwind(s: Stacks, t: Stacks): Stacks
    requires Inside(s, t)
    decreases t.trap
  {
    InsideProcessable(s, t);
    if t.trap == |s.ops| + 6 then AfterProcess(t)
    else
      InnerGone(s, t, AfterProcess(t));
      Unwind(s, AfterProcess(t))
  }

  lemma {:induction false} UnwindRestores(s: Stacks, t: Stacks)
    requires Inside(s, t) && s.jit % 2 == 0
    ensures Unwind(s, t) == s
    decreases t.trap
  {
    InsideProcessable(s, t);
    if t.trap == |s.ops| + 6 {
      ProcessRestores(s, t);
    } else {
      InnerGone(s, t, AfterProcess(t));
      UnwindRestores(s, AfterProcess(t));
    }
  }

  /** An exception that the outer trap catches; `moved` is 0, or what the step that failed had moved `sp` by. */
  ghost function Caught(s: Stacks, t: Stacks, moved: nat): Stacks
    requires Inside(s, t)
  {
    InsideProcessable(s, t);
    if t.trap == |s.ops| + 6 then AfterOverflow(t, moved)
    else
      OverflowInside(s, t, moved);
      Unwind(Hurt(s, SpAfter(t, moved)), AfterOverflow(t, moved))
  }

  lemma CaughtRestores(s: Stacks, t: Stacks, moved: nat)
    requires Inside(s, t) && s.jit % 2 == 0
    ensures Caught(s, t, moved) == Hurt(s, SpAfter(t, moved))
  {
    InsideProcessable(s, t);
    if t.trap == |s.ops| + 6 {
      ProcessRestores(s, t);
    } else {
      OverflowInside(s, t, moved);
      UnwindRestores(Hurt(s, SpAfter(t, moved)), AfterOverflow(t, moved));
    }
  }

  function Least(a: int, b: int): int {
    if a < b then a else b
  }

  /** The whole story: set a trap up, run any well-nested code, throw. The call stack, the operands, `this`,
      the environment, the native frame and the previous trap are back, except that the words of the call
      stack are gone that `sp` had passed when a step did not fit. */
  lemma ProtectedRunRestores(s: Stacks, run: seq<Op>, moved: nat)
    requires s.jit % 2 == 0 && NestedRun(AfterSetup(s), run, |s.ops| + 6) && |s.calls| <= MAX_STACK_SIZE
    ensures var low := Lowest(AfterSetup(s), run, |s.ops| + 6);
            var t := ApplyAll(AfterSetup(s), run, |s.ops| + 6);
      && Inside(Hurt(s, low), t) && Caught(Hurt(s, low), t, moved) == Hurt(s, Least(low, SpAfter(t, moved)))
  {
    var low := Lowest(AfterSetup(s), run, |s.ops| + 6);
    var t := ApplyAll(AfterSetup(s), run, |s.ops| + 6);
    SetupIsInside(s);
    RunInside(s, AfterSetup(s), run);
    CaughtRestores(Hurt(s, low), t, moved);
    HurtTwice(s, low, SpAfter(t, moved));
  }

  /** The call stack up to its last word that is not null: all of it when an interpreted function is on top,
      whose last word is its module; all but three words when `val_callEx` has just entered one. */
  function Solid(calls: seq<int>): (n: nat)
    ensures n <= |calls| && (n > 0 ==> calls[n - 1] != ERASE) && forall k :: n <= k < |calls| ==> calls[k] == ERASE
  {
    if calls == [] then 0
    else if calls[|calls| - 1] != ERASE then |calls|
    else Solid(calls[..|calls| - 1])
  }

  /** Everything is restored if and only if `sp` never passed the last word of the call stack that is not null. */
  lemma RestoredIff(s: Stacks, low: int)
    ensures Hurt(s, low) == s <==> Solid(s.calls) <= low || Solid(s.calls) == 0
  {
    var n, from := Solid(s.calls), if low < 0 then 0 else low;
    if from < n {
      assert Erased(s.calls, from)[n - 1] == ERASE;
    } else {
      assert Erased(s.calls, from) == s.calls;
    }
  }

  /** The frame of an interpreted function, and the one that `val_callEx` pushes. */
  lemma SolidFrames(calls: seq<int>, pc: int, env: int, vthis: int, m: int)
    requires pc != ERASE && m != ERASE
    ensures Solid(calls + [pc, env, vthis, m]) == |calls| + 4
    ensures Solid(calls + [pc, 0, 0, 0]) == |calls| + 1
  {
    var frame := calls + [pc, 0, 0, 0];
    assert frame[|calls|] == pc;
  }

  /** Two frames deeper, no failing step can reach that far; in the trap's own frame a failing push does. */
  lemma WhoIsHurt(s: Stacks, t: Stacks, op: Op)
    requires !Fits(t, op) && Room(t) >= 0
    ensures |t.calls| >= |s.calls| + 8 ==> |s.calls| <= SpAfter(t, Moved(op))
    ensures op.Push? && |t.calls| == |s.calls| ==> SpAfter(t, Moved(op)) == |s.calls| - 1
  {
  }

  /** A native pointer with its lowest bit set would not survive the record's tagging. */
  lemma OddNativeFrameIsLost(s: Stacks, t: Stacks)
    requires Inside(s, t) && t.trap == |s.ops| + 6
    ensures Processable(t) && (AfterProcess(t) == s <==> s.jit % 2 == 0)
  {
    InsideProcessable(s, t);
  }

  // ------------------------------------------------------------------- a run that hurts

  function Zeros(n: nat): seq<int> {
    seq(n, _ => 0)
  }

  function Pushes(n: nat): seq<Op> {
    seq(n, _ => Push(0))
  }

  lemma OneLess(n: nat, rest: seq<int>)
    requires n > 0
    ensures Pushes(n) != [] && Pushes(n)[0] == Push(0) && Pushes(n)[1..] == Pushes(n - 1)
    ensures Zeros(n - 1) + ([0] + rest) == Zeros(n) + rest
  {
  }

  lemma {:induction false} ManyPushes(s: Stacks, floor: nat, n: nat)
    requires 6 <= floor <= s.trap <= |s.ops| && Room(s) >= n
    ensures var run, pushed := Pushes(n), s.(ops := Zeros(n) + s.ops);
      NestedRun(s, run, floor) && ApplyAll(s, run, floor) == pushed && Lowest(s, run, floor) == MAX_STACK_SIZE
    decreases n
  {
    if n == 0 {
      assert Zeros(0) + s.ops == s.ops;
    } else {
      hide Zeros, Pushes;
      OneLess(n, s.ops);
      ManyPushes(s.(ops := [0] + s.ops), floor, n - 1);
    }
  }

  lemma {:induction false} RunThen(s: Stacks, run: seq<Op>, op: Op, floor: nat)
    requires NestedRun(s, run, floor) && Nested(ApplyAll(s, run, floor), op, floor)
    ensures NestedRun(s, run + [op], floor)
    ensures ApplyAll(s, run + [op], floor) == Apply(ApplyAll(s, run, floor), op, floor)
    decreases |run|
  {
    if run == [] {
      assert [op][1..] == [] && run + [op] == [op];
    } else {
      assert (run + [op])[1..] == run[1..] + [op] && (run + [op])[0] == run[0];
      RunThen(Apply(s, run[0], floor), run[1..], op, floor);
    }
  }

  /** From an empty machine: a trap, a call, another trap, and pushes until one does not fit. The inner
      handler runs in a frame whose module is gone. */
  lemma OverflowHurts() returns (run: seq<Op>)
    ensures var s := Stacks([], [], 0, 0, 0, 0);
      && NestedRun(AfterSetup(s), run, 6) && |run| > 2 && run[0] == EnterCall(1, 4, 2, 3) && run[1] == OpenTrap
      && Apply(AfterSetup(s), run[0], 6).calls == [1, 0, 0, 4]
      && ApplyAll(AfterSetup(s), run, 6).calls == [1, 0, 0, ERASE]
  {
    var s0 := AfterSetup(Stacks([], [], 0, 0, 0, 0));
    var s1 := Apply(s0, EnterCall(1, 4, 2, 3), 6);
    assert s1.calls == [1, 0, 0, 4];
    var s2 := Apply(s1, OpenTrap, 6);
    var n: nat := Room(s2);
    ManyPushes(s2, 6, n);
    var pushes := Pushes(n);
    var s3 := ApplyAll(s2, pushes, 6);
    FullRecord(s1, n);
    RunThen(s2, pushes, Push(9), 6);
    var tail := pushes + [Push(9)];
    run := [EnterCall(1, 4, 2, 3)] + ([OpenTrap] + tail);
    assert run[1..] == [OpenTrap] + tail && run[1..][1..] == tail;
    assert ApplyAll(s1, [OpenTrap] + tail, 6) == ApplyAll(s2, tail, 6);
  }

  lemma FullRecord(s1: Stacks, n: nat)
    requires s1.calls == [1, 0, 0, 4] && |s1.ops| >= 6 && n == Room(AfterSetup(s1))
    ensures var s3 := AfterSetup(s1).(ops := Zeros(n) + AfterSetup(s1).ops);
      && Processable(s3) && !Fits(s3, Push(9)) && AfterOverflow(s3, 1).calls == [1, 0, 0, ERASE]
  {
    var s2 := AfterSetup(s1);
    var s3 := s2.(ops := Zeros(n) + s2.ops);
    assert RecordAt(s3.ops, s3.trap) == s3.ops[n..n + 6] == s2.ops[..6];
    assert s2.ops[..6] == VmStack.TrapRecord(3, s1.vthis, s1.env, s1.jit, s1.trap);
    assert AfterProcess(s3).calls == s1.calls[..4] == s1.calls;
    assert SpAfter(s3, 1) == 3;
  }

  // ------------------------------------------------------------------- callbacks

  /** How a callback ends: normally, with everything it opened closed again; by an exception of the callee, or
      a step of it that did not fit; without room for the trap itself, where `words` is what lies below the
      operands then; or, after the trap, without room for the callee's frame. */
  datatype Ending = Result | Exception(moved: nat) | NoRoomForTrap(words: seq<int>) | NoRoomForFrame

  predicate Ends(s: Stacks, run: seq<Op>, ending: Ending)
    requires NestedRun(AfterSetup(s), run, |s.ops| + 6)
  {
    match ending
    case Result => ApplyAll(AfterSetup(s), run, |s.ops| + 6).trap == |s.ops| + 6
    case Exception(_) => true
    case NoRoomForTrap(words) => !Fits(s, OpenTrap) && |words| == 6 && (s.trap != 0 ==> Processable(s))
    case NoRoomForFrame => true
  }

  /** The end of `val_callEx` with an exception slot, whose trap was set in `entered` and whose callee has come
      to `t`: the trap is processed, and `vthis` and `env` are put back by hand. Its `setjmp` comes before the
      trap: when there is no room for that, what it processes is the trap of its caller. */
  ghost function AfterCall(s: Stacks, entered: Stacks, t: Stacks, ending: Ending): Stacks
    requires Inside(entered, t) && (ending.NoRoomForTrap? && s.trap != 0 ==> Processable(s))
  {
    InsideProcessable(entered, t);
    match ending
    case Result => AfterProcess(t).(vthis := s.vthis, env := s.env)
    case Exception(moved) => Caught(entered, t, moved).(vthis := s.vthis, env := s.env)
    case NoRoomForTrap(words) =>
      if s.trap == 0 then s.(ops := words + s.ops) else AfterOverflow(s, 6).(vthis := s.vthis, env := s.env)
    case NoRoomForFrame =>
      var ready := s.(vthis := entered.vthis);
      SetupIsInside(ready);
      InsideProcessable(ready, AfterSetup(ready));
      AfterProcess(AfterSetup(ready))
  }

  /** `val_callEx` with an exception slot: `vthis` is changed before the trap is set up and the callee runs. */
  ghost function ProtectedCall(s: Stacks, receiver: int, run: seq<Op>, ending: Ending): Stacks
    requires NestedRun(AfterSetup(s.(vthis := receiver)), run, |s.ops| + 6) && |s.calls| <= MAX_STACK_SIZE
    requires Ends(s.(vthis := receiver), run, ending)
  {
    var entered := s.(vthis := receiver);
    SetupIsInside(entered);
    RunInside(entered, AfterSetup(entered), run);
    AfterCall(s, Hurt(entered, Lowest(AfterSetup(entered), run, |s.ops| + 6)),
              ApplyAll(AfterSetup(entered), run, |s.ops| + 6), ending)
  }

  /** How far down `sp` was while the callee ran. */
  ghost function LowestInCall(s: Stacks, receiver: int, run: seq<Op>, ending: Ending): int
    requires NestedRun(AfterSetup(s.(vthis := receiver)), run, |s.ops| + 6)
  {
    var entered := s.(vthis := receiver);
    var low := Lowest(AfterSetup(entered), run, |s.ops| + 6);
    if ending.Exception? then Least(low, SpAfter(ApplyAll(AfterSetup(entered), run, |s.ops| + 6), ending.moved))
      else low
  }

  lemma AfterCallRestores(s: Stacks, receiver: int, low: int, t: Stacks, ending: Ending)
    requires Inside(Hurt(s.(vthis := receiver), low), t) && s.jit % 2 == 0
    requires ending.Exception? || (ending.Result? && t.trap == |s.ops| + 6)
    ensures AfterCall(s, Hurt(s.(vthis := receiver), low), t, ending)
         == Hurt(s, if ending.Exception? then Least(low, SpAfter(t, ending.moved)) else low)
  {
    var entered := s.(vthis := receiver);
    if ending.Result? {
      ProcessRestores(Hurt(entered, low), t);
    } else {
      CaughtRestores(Hurt(entered, low), t, ending.moved);
      HurtTwice(entered, low, SpAfter(t, ending.moved));
    }
  }

  /** Once its trap is set up, the call leaves both stacks, `vthis`, `env` and the trap as it found them,
      whether the callee returned or threw, but for call words that `sp` had passed. */
  lemma ProtectedCallRestores(s: Stacks, receiver: int, run: seq<Op>, ending: Ending)
    requires s.jit % 2 == 0 && |s.calls| <= MAX_STACK_SIZE
    requires NestedRun(AfterSetup(s.(vthis := receiver)), run, |s.ops| + 6) && Ends(s.(vthis := receiver), run, ending)
    requires ending.Result? || ending.Exception?
    ensures ProtectedCall(s, receiver, run, ending) == Hurt(s, LowestInCall(s, receiver, run, ending))
  {
    var entered := s.(vthis := receiver);
    SetupIsInside(entered);
    RunInside(entered, AfterSetup(entered), run);
    AfterCallRestores(s, receiver, Lowest(AfterSetup(entered), run, |s.ops| + 6),
                      ApplyAll(AfterSetup(entered), run, |s.ops| + 6), ending);
  }

  /** Without room for its trap the call never gives back what it found: it has used up the trap of its
      caller, or left `sp` where the record was to go. */
  lemma FailedSetupLosesTrap(s: Stacks, receiver: int, run: seq<Op>, words: seq<int>)
    requires NestedRun(AfterSetup(s.(vthis := receiver)), run, |s.ops| + 6) && |s.calls| <= MAX_STACK_SIZE
    requires Ends(s.(vthis := receiver), run, NoRoomForTrap(words))
    ensures ProtectedCall(s, receiver, run, NoRoomForTrap(words)) != s
    ensures s.trap != 0 ==>
      var back := ProtectedCall(s, receiver, run, NoRoomForTrap(words));
      |back.ops| == s.trap - 6 && back.trap == RecordAt(s.ops, s.trap)[5]
  {
    var back := ProtectedCall(s, receiver, run, NoRoomForTrap(words));
    if s.trap == 0 {
      assert |back.ops| == |s.ops| + 6;
    } else {
      assert |back.ops| == s.trap - 6 < |s.ops|;
    }
  }

  /** Without room for the callee's frame everything is given back except `vthis`, and the failure goes on to
      the caller's trap. */
  lemma FailedFrameKeepsReceiver(s: Stacks, receiver: int, run: seq<Op>)
    requires s.jit % 2 == 0 && |s.calls| <= MAX_STACK_SIZE
    requires NestedRun(AfterSetup(s.(vthis := receiver)), run, |s.ops| + 6)
    ensures ProtectedCall(s, receiver, run, NoRoomForFrame) == s.(vthis := receiver)
  {
    var entered := s.(vthis := receiver);
    SetupIsInside(entered);
    ProcessRestores(entered, AfterSetup(entered));
  }
}
