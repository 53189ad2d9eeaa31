/** Protected code on the machine itself: the class goes through exactly the states that the chain of traps
    is proved about, through expansions of the array and through overflows. */
module VmRun {
  import opened VmStack
  import opened TrapChain

  /** The array doubles from its first size to its last. */
  predicate SizeOk(n: nat) {
    n in {0x100, 0x200, 0x400, 0x800, 0x1000, 0x2000, 0x4000, 0x8000, 0x1_0000, 0x2_0000, 0x4_0000}
  }

  lemma ResizedOk(before: nat, after: nat)
    requires SizeOk(before) && Resized(before, after)
    ensures SizeOk(after) && (2 * after > MAX_STACK_SIZE ==> after == MAX_STACK_SIZE)
  {
  }

  /** A failing step does not move `sp` out of the array. */
  predicate InArray(s: Stacks, op: Op) {
    !Fits(s, op) ==> SpAfter(s, Moved(op)) >= 0
  }

  /** Words left above the operands do not matter to the record. */
  lemma ProcessBelow(s: Stacks, words: seq<int>)
    requires Processable(s)
    ensures Processable(s.(ops := words + s.ops)) && AfterProcess(s.(ops := words + s.ops)) == AfterProcess(s)
  {
    var ops := words + s.ops;
    assert RecordAt(ops, s.trap) == RecordAt(s.ops, s.trap);
    assert ops[|ops| - s.trap + 6..] == s.ops[|s.ops| - s.trap + 6..];
  }

  lemma ProcessShrinks(s: Stacks)
    requires Processable(s)
    ensures |AfterProcess(s).calls| <= |s.calls| && |AfterProcess(s).ops| <= |s.ops|
  {
  }

  lemma WordsAbove(mem: seq<int>, sp: nat, moved: nat)
    requires sp + moved <= |mem|
    ensures mem[sp..] == mem[sp..sp + moved] + mem[sp + moved..]
  {
  }

  lemma SameArray(before: seq<int>, after: seq<int>, sp: nat)
    requires before == after && sp <= |before|
    ensures before[sp..] == after[sp..]
  {
  }

  /** The machine stands where `s` is, but for `sp`, which has moved down by `moved` words. */
  ghost predicate Moving(vm: Vm, s: Stacks, moved: nat)
    reads vm, vm.mem
  {
    && vm.csp + 1 == |s.calls| <= vm.mem.Length && 0 <= vm.sp && vm.sp + moved == vm.mem.Length - |s.ops|
    && vm.mem[..|s.calls|] == s.calls && vm.mem[vm.sp + moved..] == s.ops
    && vm.trap == s.trap && vm.vthis == s.vthis && vm.env == s.env && vm.jit == s.jit
  }

  /** `val_throw` of "Stack Overflow", and the handler that takes it. */
  method Overflow(vm: Vm, ghost s: Stacks, moved: nat)
    requires Moving(vm, s, moved) && vm.mem.Length == MAX_STACK_SIZE && Room(s) >= 0 && Processable(s)
    modifies vm`sp, vm`csp, vm`trap, vm`vthis, vm`env, vm`jit, vm`excStack, vm.mem
    ensures vm.Valid() && vm.mem == old(vm.mem) && vm.Abs() == AfterOverflow(s, moved)
  {
    ghost var words := vm.mem[vm.sp..vm.sp + moved];
    WordsAbove(vm.mem[..], vm.sp, moved);
    ProcessBelow(s, words);
    assert vm.Abs() == s.(ops := words + s.ops);
    assert SpAfter(s, moved) == vm.sp;
    ProcessShrinks(s);
    vm.ProcessTrap();
  }

  method PerformPush(vm: Vm, v: int, ghost floor: nat)
    requires vm.Valid() && SizeOk(vm.mem.Length) && Nested(vm.Abs(), Push(v), floor) && InArray(vm.Abs(), Push(v))
    modifies vm, vm.mem
    ensures vm.Valid() && SizeOk(vm.mem.Length) && (vm.mem == old(vm.mem) || fresh(vm.mem))
    ensures vm.Abs() == Apply(old(vm.Abs()), Push(v), floor)
  {
    ghost var s := vm.Abs();
    var ok := vm.Push(v);
    ResizedOk(old(vm.mem.Length), vm.mem.Length);
    assert |[v] + s.ops| == |s.ops| + 1;
    if !ok {
      SameArray(old(vm.mem[..]), vm.mem[..], vm.sp + 1);
      Overflow(vm, s, 1);
    }
  }

  method PerformOpen(vm: Vm, ghost floor: nat)
    requires vm.Valid() && SizeOk(vm.mem.Length) && Nested(vm.Abs(), OpenTrap, floor) && InArray(vm.Abs(), OpenTrap)
    modifies vm, vm.mem
    ensures vm.Valid() && SizeOk(vm.mem.Length) && (vm.mem == old(vm.mem) || fresh(vm.mem))
    ensures vm.Abs() == Apply(old(vm.Abs()), OpenTrap, floor)
  {
    ghost var s := vm.Abs();
    var ok := vm.SetupTrap();
    ResizedOk(old(vm.mem.Length), vm.mem.Length);
    assert |AfterSetup(s).ops| == |s.ops| + 6;
    if !ok {
      SameArray(old(vm.mem[..]), vm.mem[..], vm.sp + 6);
      Overflow(vm, s, 6);
    }
  }

  method PerformEnter(vm: Vm, pc: int, m: int, vthis: int, env: int, ghost floor: nat)
    requires vm.Valid() && SizeOk(vm.mem.Length) && Nested(vm.Abs(), EnterCall(pc, m, vthis, env), floor)
    modifies vm, vm.mem
    ensures vm.Valid() && SizeOk(vm.mem.Length) && (vm.mem == old(vm.mem) || fresh(vm.mem))
    ensures vm.Abs() == Apply(old(vm.Abs()), EnterCall(pc, m, vthis, env), floor)
  {
    hide OutsideRecords, Erased;
    ghost var s := vm.Abs();
    var ok := vm.PushInfos(pc, m);
    ResizedOk(old(vm.mem.Length), vm.mem.Length);
    assert |s.calls + [pc, s.env, s.vthis, m]| == |s.calls| + 4;
    if ok {
      vm.vthis, vm.env := vthis, env;
    } else {
      Overflow(vm, s, 0);
    }
  }

  /** One step of protected code. */
  method Perform(vm: Vm, op: Op, ghost floor: nat)
    requires vm.Valid() && SizeOk(vm.mem.Length) && Nested(vm.Abs(), op, floor) && InArray(vm.Abs(), op)
    modifies vm, vm.mem
    ensures vm.Valid() && SizeOk(vm.mem.Length) && (vm.mem == old(vm.mem) || fresh(vm.mem))
    ensures vm.Abs() == Apply(old(vm.Abs()), op, floor)
  {
    hide OutsideRecords;
    match op
    case Push(v) => PerformPush(vm, v, floor);
    case Pop(n) => vm.Pop(n);
    case Write(k, v) => vm.SetStack(k, v);
    case EnterCall(pc, m, vthis, env) => PerformEnter(vm, pc, m, vthis, env, floor);
    case LeaveCall => var pc, m := vm.PopInfos();
    case OpenTrap => PerformOpen(vm, floor);
    case CloseTrap => var ok := vm.EndTrap();
    case Raise => vm.ProcessTrap();
    case SetThis(v) => vm.vthis := v;
    case SetEnv(v) => vm.env := v;
  }

  ghost predicate AllInArray(s: Stacks, run: seq<Op>, floor: nat)
    requires NestedRun(s, run, floor)
    decreases |run|
  {
    run != [] ==> InArray(s, run[0]) && AllInArray(Apply(s, run[0], floor), run[1..], floor)
  }

  /** A run of protected code: the machine is afterwards where `ApplyAll` says. */
  method PerformAll(vm: Vm, run: seq<Op>, ghost floor: nat)
    requires vm.Valid() && SizeOk(vm.mem.Length)
    requires NestedRun(vm.Abs(), run, floor) && AllInArray(vm.Abs(), run, floor)
    modifies vm, vm.mem
    ensures vm.Valid() && SizeOk(vm.mem.Length) && (vm.mem == old(vm.mem) || fresh(vm.mem))
    ensures vm.Abs() == ApplyAll(old(vm.Abs()), run, floor)
  {
    hide Nested, Apply;
    ghost var whole := ApplyAll(vm.Abs(), run, floor);
    var k := 0;
    while k < |run|
      invariant 0 <= k <= |run|
      invariant vm.Valid() && SizeOk(vm.mem.Length) && (vm.mem == old(vm.mem) || fresh(vm.mem))
      invariant NestedRun(vm.Abs(), run[k..], floor) && AllInArray(vm.Abs(), run[k..], floor)
      invariant ApplyAll(vm.Abs(), run[k..], floor) == whole
    {
      assert run[k..][1..] == run[k + 1..];
      Perform(vm, run[k], floor);
      k := k + 1;
    }
  }

  /** One more record processed, the outer one or an inner one. */
  lemma RecordGone(h: Stacks, t: Stacks)
    requires Inside(h, t) && h.jit % 2 == 0
    ensures Processable(t)
    ensures if t.trap == |h.ops| + 6 then AfterProcess(t) == h
            else Inside(h, AfterProcess(t)) && AfterProcess(t).trap < t.trap
  {
    InsideProcessable(h, t);
    if t.trap == |h.ops| + 6 {
      ProcessRestores(h, t);
    } else {
      InnerGone(h, t, AfterProcess(t));
    }
  }

  /** An exception that no inner handler keeps. */
  method UnwindTo(vm: Vm, floor: int, ghost h: Stacks)
    requires vm.Valid() && Inside(h, vm.Abs()) && h.jit % 2 == 0 && floor == |h.ops| + 6
    modifies vm`sp, vm`csp, vm`trap, vm`vthis, vm`env, vm`jit, vm`excStack, vm.mem
    ensures vm.Valid() && vm.Abs() == h
  {
    var done := false;
    while !done
      invariant vm.Valid() && vm.mem == old(vm.mem)
      invariant if done then vm.Abs() == h else Inside(h, vm.Abs())
      decreases !done, vm.trap
    {
      RecordGone(h, vm.Abs());
      done := vm.trap == floor;
      vm.ProcessTrap();
    }
  }

  /** Set a trap up, run protected code, throw: on the machine itself everything is as it was, but for call
      words that `sp` has passed when a step did not fit. */
  method ProtectedRun(vm: Vm, run: seq<Op>) returns (ok: bool)
    requires vm.Valid() && SizeOk(vm.mem.Length) && vm.jit % 2 == 0
    requires var s := vm.Abs();
      NestedRun(AfterSetup(s), run, |s.ops| + 6) && AllInArray(AfterSetup(s), run, |s.ops| + 6)
    modifies vm, vm.mem
    ensures var s := old(vm.Abs());
      && (ok <==> Fits(s, OpenTrap))
      && (ok ==> vm.Valid() && vm.Abs() == Hurt(s, Lowest(AfterSetup(s), run, |s.ops| + 6)))
  {
    hide Inside, Lowest, ApplyAll, NestedRun, AllInArray, Erased;
    ghost var s := vm.Abs();
    var floor := vm.mem.Length - vm.sp + 6;
    ok := vm.SetupTrap();
    ResizedOk(old(vm.mem.Length), vm.mem.Length);
    assert |AfterSetup(s).ops| == |s.ops| + 6;
    if !ok {
      return;
    }
    SetupIsInside(s);
    RunInside(s, AfterSetup(s), run);
    PerformAll(vm, run, floor);
    UnwindTo(vm, floor, Hurt(s, Lowest(AfterSetup(s), run, |s.ops| + 6)));
  }
}
