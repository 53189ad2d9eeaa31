/** The virtual machine's one array with two stacks: call information grows from its start,
    operands from its end, and trap records on the operand side name places by their distance
    from the ends, so that they stay right when the array is replaced by a larger one. */
module VmStack {
  const INIT_STACK_SIZE := 0x100
  const MAX_STACK_SIZE := 0x4_0000
  const ERASE := 0

  /** One frame of call information, as an exception trace reports it. */
  datatype Site = Site(pc: int, m: int)

  /** What the array stands for. `calls` lists the call stack from its bottom, `ops` the operand
      stack from its top. A trap is the number of operands at its record; 0 is none. */
  datatype Stacks = Stacks(calls: seq<int>, ops: seq<int>, trap: int, vthis: int, env: int, jit: int)

  /** Pointers are stored with their lowest bit set, so that the collector takes them for integers. */
  function AddressInt(a: int): (r: int)
    ensures r % 2 == 1 && a <= r <= a + 1
  {
    if a % 2 == 0 then a + 1 else a
  }

  function IntAddress(a: int): int { a - a % 2 }

  /** The six words of a record, from the top: the offset of the call stack's last word, the
      saved state, and the previous trap. */
  function TrapRecord(csp: int, vthis: int, env: int, jit: int, trap: int): (r: seq<int>)
    ensures |r| == 6 && r[3] % 2 == 1 && r[4] == 0
  {
    [csp, vthis, env, AddressInt(jit), 0, trap]
  }

  /** `neko_setup_trap`. */
  function AfterSetup(s: Stacks): Stacks {
    s.(ops := TrapRecord(|s.calls| - 1, s.vthis, s.env, s.jit, s.trap) + s.ops, trap := |s.ops| + 6)
  }

  /** The record that `trap` names. */
  function RecordAt(ops: seq<int>, trap: int): seq<int>
    requires 6 <= trap <= |ops|
  {
    ops[|ops| - trap..|ops| - trap + 6]
  }

  /** The record can be processed: it lies on the stack, and its call stack is a number of whole
      frames below the current one. */
  predicate Processable(s: Stacks) {
    && 6 <= s.trap <= |s.ops|
    && var saved := RecordAt(s.ops, s.trap)[0];
       -1 <= saved < |s.calls| && (|s.calls| - 1 - saved) % 4 == 0
  }

  /** `neko_process_trap` on a non-empty chain. */
  function AfterProcess(s: Stacks): Stacks
    requires Processable(s)
  {
    var r := RecordAt(s.ops, s.trap);
    Stacks(s.calls[..r[0] + 1], s.ops[|s.ops| - s.trap + 6..], r[5], r[1], r[2], IntAddress(r[3]))
  }

  /** The frames of call information in `calls`, outermost first. */
  function Sites(calls: seq<int>): seq<Site>
    requires |calls| % 4 == 0
  {
    if calls == [] then [] else [Site(calls[0], calls[3])] + Sites(calls[4..])
  }

  lemma {:induction false} SitesAppend(calls: seq<int>, site: seq<int>)
    requires |calls| % 4 == 0 && |site| == 4
    ensures Sites(calls + site) == Sites(calls) + [Site(site[0], site[3])]
  {
    if calls == [] {
      assert calls + site == site;
      assert site[4..] == [];
    } else {
      assert (calls + site)[4..] == calls[4..] + site;
      SitesAppend(calls[4..], site);
    }
  }

  /** `calls` after the words from index `from` on have been erased. */
  function Erased(calls: seq<int>, from: nat): seq<int> {
    if from >= |calls| then calls else calls[..from] + seq(|calls| - from, _ => ERASE)
  }

  /** Words written at the end of the call stack, below the operands. */
  lemma WrittenAbove(before: seq<int>, after: seq<int>, at: nat, sp: nat, words: seq<int>)
    requires at + |words| <= sp <= |before| == |after|
    requires after[..at] == before[..at] && after[at..at + |words|] == words
    requires after[at + |words|..] == before[at + |words|..]
    ensures after[..at + |words|] == before[..at] + words
    ensures after[sp..] == before[sp..]
  {
    assert after[..at + |words|] == after[..at] + after[at..at + |words|];
    assert after[sp..] == after[at + |words|..][sp - at - |words|..];
    assert before[sp..] == before[at + |words|..][sp - at - |words|..];
  }

  /** Words written at the top of the operands, above the call stack. */
  lemma WrittenBelow(before: seq<int>, after: seq<int>, calls: nat, at: nat, words: seq<int>)
    requires calls <= at && at + |words| <= |before| == |after|
    requires after[..at] == before[..at] && after[at..at + |words|] == words
    requires after[at + |words|..] == before[at + |words|..]
    ensures after[..calls] == before[..calls]
    ensures after[at..] == words + before[at + |words|..]
  {
    assert after[at..] == after[at..at + |words|] + after[at + |words|..];
    assert after[..calls] == after[..at][..calls] && before[..calls] == before[..at][..calls];
  }

  /** `AfterProcess`, read from the array. */
  lemma ProcessedInPlace(mem: seq<int>, csp: int, sp: nat, s: Stacks)
    requires 0 <= csp + 1 <= |mem| && sp <= |mem| && s.calls == mem[..csp + 1] && s.ops == mem[sp..]
    requires Processable(s)
    ensures var at := |mem| - s.trap;
            && sp <= at <= |mem| - 6 && -1 <= mem[at] <= csp && (csp - mem[at]) % 4 == 0
            && AfterProcess(s) == Stacks(mem[..mem[at] + 1], mem[at + 6..], mem[at + 5], mem[at + 1], mem[at + 2],
                                         IntAddress(mem[at + 3]))
            && s.calls[mem[at] + 1..] == mem[mem[at] + 1..csp + 1]
  {
    var at := |mem| - s.trap;
    var r := RecordAt(s.ops, s.trap);
    assert |s.ops| - s.trap == at - sp;
    assert r == mem[at..at + 6];
    assert r[0] == mem[at] && r[1] == mem[at + 1] && r[2] == mem[at + 2] && r[3] == mem[at + 3] && r[5] == mem[at + 5];
    assert s.ops[at - sp + 6..] == mem[at + 6..];
    assert s.calls[..mem[at] + 1] == mem[..mem[at] + 1];
  }

  lemma Tail(before: seq<int>, after: seq<int>, at: nat)
    requires at <= |before| == |after| && before[at..] == after[at..]
    ensures forall k :: at <= k < |before| ==> before[k] == after[k]
  {
    forall k | at <= k < |before|
      ensures before[k] == after[k]
    {
      assert before[k] == before[at..][k - at] && after[k] == after[at..][k - at];
    }
  }

  /** One more frame read and erased. */
  lemma FlushedOne(before: seq<int>, mid: seq<int>, after: seq<int>, low: int, at: int)
    requires |before| == |mid| == |after| && -1 <= low <= at < |before| - 4 && (at - low) % 4 == 0
    requires mid[..low + 1] == before[..low + 1] && mid[at + 1..] == before[at + 1..]
    requires after[..at + 1] == mid[..at + 1] && after[at + 5..] == mid[at + 5..]
    ensures after[..low + 1] == before[..low + 1] && after[at + 5..] == before[at + 5..]
    ensures (at + 4 - low) % 4 == 0
    ensures Sites(before[low + 1..at + 5]) == Sites(before[low + 1..at + 1]) + [Site(mid[at + 1], mid[at + 4])]
  {
    Tail(before, mid, at + 1);
    assert after[..low + 1] == after[..at + 1][..low + 1] == mid[..at + 1][..low + 1] == mid[..low + 1];
    assert after[at + 5..] == mid[at + 5..] == mid[at + 1..][4..] == before[at + 1..][4..] == before[at + 5..];
    SitesAppend(before[low + 1..at + 1], before[at + 1..at + 5]);
    assert before[low + 1..at + 5] == before[low + 1..at + 1] + before[at + 1..at + 5];
  }

  /** The array after frames above `low` and operands below `top` have been erased. */
  lemma Unwound(before: seq<int>, flushed: seq<int>, after: seq<int>, low: int, sp: nat, top: nat)
    requires |before| == |flushed| == |after| && -1 <= low && low + 1 <= top <= |after| && sp <= top && 6 <= top
    requires flushed[..low + 1] == before[..low + 1] && flushed[top - 6..] == before[top - 6..]
    requires after[..sp] == flushed[..sp] && after[top..] == flushed[top..]
    requires forall k :: sp <= k < top ==> after[k] == ERASE
    ensures after[..low + 1] == Erased(before[..low + 1], sp)
    ensures after[top..] == before[top..]
  {
    if low + 1 <= sp {
      assert after[..low + 1] == after[..sp][..low + 1] == flushed[..sp][..low + 1] == flushed[..low + 1];
    } else {
      assert after[..sp] == flushed[..low + 1][..sp] == before[..low + 1][..sp];
    }
    assert after[top..] == flushed[top - 6..][6..] == before[top - 6..][6..];
  }

  /** The array is what it was, or twice as large. */
  predicate Resized(before: nat, after: nat) {
    after == before || (after == 2 * before <= MAX_STACK_SIZE)
  }

  class Vm {
    var mem: array<int>
    var sp: int
    var csp: int
    var trap: int
    var vthis: int
    var env: int
    var jit: int
    var excStack: seq<Site>

    /** The two stacks lie inside the array and do not meet. */
    ghost predicate Valid()
      reads this
    {
      0 <= csp + 1 <= sp <= mem.Length && INIT_STACK_SIZE <= mem.Length
    }

    ghost function Abs(): Stacks
      requires 0 <= csp + 1 <= mem.Length && 0 <= sp <= mem.Length
      reads this, mem
    {
      Stacks(mem[..csp + 1], mem[sp..], trap, vthis, env, jit)
    }

    constructor ()
      ensures Valid() && fresh(mem) && mem.Length == 256
      ensures Abs() == Stacks([], [], 0, 0, 0, 0) && excStack == []
    {
      mem := new int[INIT_STACK_SIZE];
      sp, csp := INIT_STACK_SIZE, -1;
      trap, vthis, env, jit, excStack := 0, 0, 0, 0, [];
    }

    /** `neko_stack_expand`, called with the interpreter's own `sp` and `csp`, which may already
        have been moved for the words about to be written: then the copy takes in words that
        belong to neither stack, even from before the array, and the caller overwrites them. */
    method StackExpand(sp': int, csp': int) returns (ok: bool)
      requires 0 <= csp' + 1 <= mem.Length && csp' + 1 - mem.Length <= sp' <= mem.Length
      modifies this`sp, this`csp, this`mem
      ensures ok <==> 2 * old(mem.Length) <= 0x4_0000
      ensures !ok ==> mem == old(mem) && sp == sp' && csp == csp'
      ensures ok ==> fresh(mem) && mem.Length == 2 * old(mem.Length)
      ensures ok ==> csp == csp' && sp == sp' + old(mem.Length)
      ensures ok ==> mem[..csp + 1] == old(mem[..csp' + 1])
      ensures ok ==> forall k :: 0 <= k < old(mem.Length) && sp' <= k ==> mem[k + old(mem.Length)] == old(mem[k])
    {
      var size := 2 * mem.Length;
      if size > MAX_STACK_SIZE {
        sp, csp := sp', csp';
        return false;
      }
      var nsp := new int[size];
      forall k | 0 <= k <= csp' {
        nsp[k] := mem[k];
      }
      var shift := size - mem.Length;
      forall k | 0 <= k < mem.Length && sp' <= k {
        nsp[k + shift] := mem[k];
      }
      assert forall k :: 0 <= k <= csp' ==> nsp[k] == mem[k];
      csp, sp, mem := csp', sp' + shift, nsp;
      return true;
    }

    /** Consecutive words, as the machine stores call information and trap records. */
    method Write(at: nat, words: seq<int>)
      requires at + |words| <= mem.Length
      modifies mem
      ensures mem[..at] == old(mem[..at]) && mem[at + |words|..] == old(mem[at + |words|..])
      ensures mem[at..at + |words|] == words
    {
      for k := 0 to |words|
        invariant mem[..at] == old(mem[..at]) && mem[at + |words|..] == old(mem[at + |words|..])
        invariant mem[at..at + k] == words[..k]
      {
        mem[at + k] := words[k];
        assert mem[at..at + k + 1] == mem[at..at + k] + [words[k]];
      }
    }

    /** Move `sp` down by `n` words about to be written, replacing the array when that meets the
        call stack. On failure (`Stack Overflow`) `sp` has still moved. */
    method Reserve(n: nat) returns (ok: bool)
      requires Valid() && n <= 6
      modifies this`sp, this`csp, this`mem
      ensures ok ==> Valid() && (mem == old(mem) || fresh(mem)) && sp + n <= mem.Length
      ensures ok ==> mem[..csp + 1] == old(mem[..csp + 1]) && mem[sp + n..] == old(mem[sp..])
      ensures ok ==> csp == old(csp) && csp < sp
      ensures !ok ==> mem == old(mem) && csp == old(csp) && sp == old(sp) - n <= csp
      ensures !ok ==> 2 * mem.Length > MAX_STACK_SIZE
      ensures Resized(old(mem.Length), mem.Length)
    {
      sp := sp - n;
      if sp <= csp {
        ghost var before, from := mem[..], sp + n;
        ok := StackExpand(sp, csp);
        if !ok {
          return;
        }
        forall k | 0 <= k < |before| - from
          ensures mem[sp + n..][k] == before[from..][k]
        {
          assert mem[from + k + |before|] == before[from + k];
        }
        assert mem[sp + n..] == before[from..];
      }
      return true;
    }

    /** The `Push` instruction. */
    method Push(acc: int) returns (ok: bool)
      requires Valid()
      modifies this`sp, this`csp, this`mem, mem
      ensures ok ==> Valid() && (mem == old(mem) || fresh(mem))
      ensures ok ==> Abs() == old(Abs()).(ops := [acc] + old(Abs()).ops)
      ensures !ok ==> mem == old(mem) && mem[..] == old(mem[..]) && csp == old(csp) && sp == old(sp) - 1 <= csp
      ensures !ok ==> 2 * mem.Length > MAX_STACK_SIZE
      ensures Resized(old(mem.Length), mem.Length)
    {
      ok := Reserve(1);
      if ok {
        ghost var ops := mem[sp + 1..];
        ghost var calls := mem[..csp + 1];
        mem[sp] := acc;
        assert mem[sp..] == [acc] + mem[sp + 1..];
        assert mem[sp + 1..] == ops && mem[..csp + 1] == calls;
      }
    }

    /** The stores of `neko_setup_trap`. */
    method WriteTrap()
      requires 0 <= csp + 1 <= sp <= mem.Length - 6
      modifies mem, this`trap
      ensures mem[..csp + 1] == old(mem[..csp + 1])
      ensures mem[sp..] == TrapRecord(csp, vthis, env, jit, old(trap)) + old(mem[sp + 6..])
      ensures trap == mem.Length - sp
    {
      ghost var before := mem[..];
      var words := TrapRecord(csp, vthis, env, jit, trap);
      Write(sp, words);
      trap := mem.Length - sp;
      WrittenBelow(before, mem[..], csp + 1, sp, words);
    }

    /** `neko_setup_trap`. */
    method SetupTrap() returns (ok: bool)
      requires Valid()
      modifies this`sp, this`csp, this`mem, this`trap, mem
      ensures ok ==> Valid() && (mem == old(mem) || fresh(mem)) && Abs() == AfterSetup(old(Abs()))
      ensures !ok ==> mem == old(mem) && mem[..] == old(mem[..]) && trap == old(trap)
      ensures !ok ==> csp == old(csp) && sp == old(sp) - 6 <= csp && 2 * mem.Length > MAX_STACK_SIZE
      ensures Resized(old(mem.Length), mem.Length)
    {
      ok := Reserve(6);
      if ok {
        WriteTrap();
      }
    }

    /** Make room for four words of call information and one operand. */
    method ReserveInfos() returns (ok: bool)
      requires Valid()
      modifies this`sp, this`csp, this`mem
      ensures ok ==> Valid() && (mem == old(mem) || fresh(mem)) && csp + 4 < sp
      ensures ok ==> mem[..csp + 1] == old(mem[..csp + 1]) && mem[sp..] == old(mem[sp..])
      ensures !ok ==> mem == old(mem) && csp == old(csp) && sp == old(sp) <= csp + 4
      ensures !ok ==> 2 * mem.Length > MAX_STACK_SIZE
      ensures Resized(old(mem.Length), mem.Length)
    {
      if csp + 4 >= sp {
        ghost var before, from := mem[..], sp;
        ok := StackExpand(sp, csp);
        if !ok {
          return;
        }
        forall k | 0 <= k < |before| - from
          ensures mem[sp..][k] == before[from..][k]
        {
          assert mem[from + k + |before|] == before[from + k];
        }
        assert mem[sp..] == before[from..];
      }
      return true;
    }

    /** The stores of call information. */
    method WriteInfos(words: seq<int>)
      requires |words| == 4 && 0 <= csp + 1 && csp + 4 < sp <= mem.Length
      modifies this`csp, mem
      ensures csp == old(csp) + 4 && mem[..csp + 1] == old(mem[..csp + 1]) + words && mem[sp..] == old(mem[sp..])
    {
      ghost var before := mem[..];
      Write(csp + 1, words);
      csp := csp + 4;
      WrittenAbove(before, mem[..], csp - 3, sp, words);
    }

    /** Call information for a call from `pc` in module `m`. */
    method PushInfos(pc: int, m: int) returns (ok: bool)
      requires Valid()
      modifies this`sp, this`csp, this`mem, mem
      ensures ok ==> Valid() && (mem == old(mem) || fresh(mem))
      ensures ok ==> Abs() == old(Abs()).(calls := old(Abs()).calls + [pc, old(env), old(vthis), m])
      ensures !ok ==> mem == old(mem) && mem[..] == old(mem[..]) && csp == old(csp) && sp == old(sp) <= csp + 4
      ensures !ok ==> 2 * mem.Length > MAX_STACK_SIZE
      ensures Resized(old(mem.Length), mem.Length)
    {
      ok := ReserveInfos();
      if ok {
        WriteInfos([pc, env, vthis, m]);
      }
    }

    /** Return to the caller's information: the four words are erased. */
    method PopInfos() returns (pc: int, m: int)
      requires Valid() && csp >= 3
      modifies this`csp, this`vthis, this`env, mem
      ensures Valid() && mem == old(mem)
      ensures Abs()
        == old(Abs()).(calls := old(Abs()).calls[..old(csp) - 3], env := old(mem[csp - 2]), vthis := old(mem[csp - 1]))
      ensures pc == old(mem[csp - 3]) && m == old(mem[csp])
    {
      ghost var ops, calls := mem[sp..], mem[..csp - 3];
      m := mem[csp];
      mem[csp] := ERASE;
      vthis := mem[csp - 1];
      mem[csp - 1] := ERASE;
      env := mem[csp - 2];
      mem[csp - 2] := ERASE;
      pc := mem[csp - 3];
      mem[csp - 3] := ERASE;
      csp := csp - 4;
      assert mem[sp..] == ops && mem[..csp + 1] == calls;
      assert old(Abs()).calls[..old(csp) - 3] == calls;
    }

    /** Read and erase the frame above `at`. */
    method EraseFrame(at: int) returns (site: Site)
      requires -1 <= at < mem.Length - 4
      modifies mem
      ensures site == Site(old(mem[at + 1]), old(mem[at + 4]))
      ensures mem[..at + 1] == old(mem[..at + 1]) && mem[at + 5..] == old(mem[at + 5..])
    {
      site := Site(mem[at + 1], mem[at + 4]);
      mem[at + 1], mem[at + 2], mem[at + 3], mem[at + 4] := ERASE, ERASE, ERASE, ERASE;
    }

    /** `neko_flush_stack`: turn the frames above `low` into a trace before `previous`, erasing
        them. */
    method FlushStack(high: int, low: int, previous: seq<Site>) returns (trace: seq<Site>)
      requires -1 <= low <= high < mem.Length && (high - low) % 4 == 0
      modifies mem
      ensures trace == Sites(old(mem[low + 1..high + 1])) + previous
      ensures mem[..low + 1] == old(mem[..low + 1]) && mem[high + 1..] == old(mem[high + 1..])
    {
      ghost var before := mem[..];
      var at := low;
      trace := [];
      while at != high
        invariant low <= at <= high && (at - low) % 4 == 0
        invariant trace == Sites(before[low + 1..at + 1])
        invariant mem[..low + 1] == before[..low + 1] && mem[at + 1..] == before[at + 1..]
        decreases high - at
      {
        ghost var mid := mem[..];
        var site := EraseFrame(at);
        FlushedOne(before, mid, mem[..], low, at);
        trace := trace + [site];
        at := at + 4;
      }
      trace := trace + previous;
    }

    /** Pop the operands up to `top`, erasing them; where `sp` has run into the call stack, so
        have the erasures. */
    method PopTo(top: int)
      requires 0 <= sp <= top <= mem.Length
      modifies mem, this`sp
      ensures sp == top && mem[top..] == old(mem[top..]) && mem[..old(sp)] == old(mem[..sp])
      ensures forall k :: old(sp) <= k < top ==> mem[k] == ERASE
    {
      ghost var from := sp;
      while sp < top
        invariant from <= sp <= top
        invariant mem[top..] == old(mem[top..]) && mem[..from] == old(mem[..sp])
        invariant forall k :: from <= k < sp ==> mem[k] == ERASE
      {
        mem[sp] := ERASE;
        sp := sp + 1;
      }
    }

    /** `neko_process_trap`: back to the state at the innermost record. The call stack below the
        record's is untouched, except where a failed reservation has left `sp` inside it. */
    method ProcessTrap()
      requires 0 <= csp + 1 <= mem.Length && 0 <= sp <= mem.Length
      requires trap != 0 ==> Processable(Abs()) && csp < mem.Length - trap
      modifies this`sp, this`csp, this`trap, this`vthis, this`env, this`jit, this`excStack, mem
      ensures mem == old(mem) && 0 <= csp + 1 <= mem.Length && 0 <= sp <= mem.Length
      ensures old(trap) == 0 ==> Abs() == old(Abs()) && excStack == old(excStack)
      ensures old(trap) != 0 ==>
        var after := AfterProcess(old(Abs()));
        && Abs() == after.(calls := Erased(after.calls, old(sp)))
        && excStack == Sites(old(Abs()).calls[|after.calls|..]) + old(excStack)
      ensures old(trap) != 0 && old(Valid()) ==> Valid() && Abs() == AfterProcess(old(Abs()))
    {
      if trap == 0 {
        return;
      }
      ghost var s := Abs();
      ProcessedInPlace(mem[..], csp, sp, s);
      ProcessRecord(mem.Length - trap);
    }

    /** Process the record at `at`: frames first, then the saved state, then the operands. */
    method ProcessRecord(at: nat)
      requires 0 <= sp <= at <= mem.Length - 6 && -1 <= mem[at] <= csp < at && (csp - mem[at]) % 4 == 0
      modifies this`sp, this`csp, this`trap, this`vthis, this`env, this`jit, this`excStack, mem
      ensures mem == old(mem) && csp == old(mem[at]) && sp == at + 6
      ensures mem[..csp + 1] == Erased(old(mem[..mem[at] + 1]), old(sp)) && mem[sp..] == old(mem[at + 6..])
      ensures vthis == old(mem[at + 1]) && env == old(mem[at + 2]) && jit == IntAddress(old(mem[at + 3]))
      ensures trap == old(mem[at + 5]) && excStack == Sites(old(mem[mem[at] + 1..csp + 1])) + old(excStack)
    {
      ghost var before, from := mem[..], sp;
      var low := mem[at];
      PopFrames(low, at);
      ghost var flushed := mem[..];
      Tail(before, flushed, at);
      Restore(at);
      PopTo(at + 6);
      Unwound(before, flushed, mem[..], low, from, at + 6);
    }

    /** Pop the call information above `low`, adding it to the exception's trace. */
    method PopFrames(low: int, at: nat)
      requires -1 <= low <= csp < at <= mem.Length && (csp - low) % 4 == 0
      modifies mem, this`csp, this`excStack
      ensures csp == low && excStack == Sites(old(mem[low + 1..csp + 1])) + old(excStack)
      ensures mem[..low + 1] == old(mem[..low + 1]) && mem[at..] == old(mem[at..])
    {
      ghost var before := mem[..];
      excStack := FlushStack(csp, low, excStack);
      assert before[csp + 1..][at - csp - 1..] == before[at..] && mem[csp + 1..][at - csp - 1..] == mem[at..];
      csp := low;
    }

    /** Reload the saved state from the record at `at`. */
    method Restore(at: nat)
      requires at + 6 <= mem.Length
      modifies this`trap, this`vthis, this`env, this`jit
      ensures vthis == mem[at + 1] && env == mem[at + 2] && jit == IntAddress(mem[at + 3]) && trap == mem[at + 5]
    {
      vthis := mem[at + 1];
      env := mem[at + 2];
      jit := IntAddress(mem[at + 3]);
      trap := mem[at + 5];
    }

    /** The `EndTrap` instruction, in code whose frame holds at least six words: it fails unless
        the innermost record is on top. */
    method EndTrap() returns (ok: bool)
      requires Valid() && sp + 6 <= mem.Length
      modifies this`trap, this`sp, mem
      ensures mem == old(mem)
      ensures ok <==> old(trap) == |old(Abs()).ops|
      ensures !ok ==> trap == old(trap) && mem[..] == old(mem[..]) && sp == old(sp)
      ensures ok ==> Valid() && Abs() == old(Abs()).(trap := old(Abs()).ops[5], ops := old(Abs()).ops[6..])
    {
      if mem.Length - trap != sp {
        return false;
      }
      trap := mem[sp + 5];
      PopTo(sp + 6);
      return true;
    }

    /** `PopMacro(n)`, as in `Pop`, `Ret` and every instruction that takes operands. */
    method Pop(n: nat)
      requires Valid() && sp + n <= mem.Length
      modifies this`sp, mem
      ensures Valid() && mem == old(mem) && Abs() == old(Abs()).(ops := old(Abs()).ops[n..])
    {
      ghost var calls, ops := mem[..csp + 1], mem[sp + n..];
      assert mem[..sp][..csp + 1] == calls;
      PopTo(sp + n);
      assert mem[..csp + 1] == mem[..old(sp)][..csp + 1];
    }

    /** The `SetStack` instruction: the operand `k` below the top. */
    method SetStack(k: nat, acc: int)
      requires Valid() && sp + k < mem.Length
      modifies mem
      ensures Abs() == old(Abs()).(ops := old(Abs()).ops[k := acc])
    {
      mem[sp + k] := acc;
    }
  }
}
