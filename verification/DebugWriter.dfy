/** The compiler's writer for the position table. What it writes, the loader reads back. */
module DebugWriter {
  import opened MachineInt
  import opened DebugTable

  /** What the writer remembers: where the reader will stand, and how many instructions there are still to be
      written as a run. */
  datatype Pen = Pen(file: nat, line: int, repeats: nat)

  /** `write_byte`: the low eight bits. */
  function LowByte(n: int): Byte { n % 256 }

  /** `flush_repeat`: runs of at most 15, the last of which moves the line on by up to three towards `line`. */
  function Flushed(pen: Pen, line: int): (seq<Byte>, Pen)
    decreases pen.repeats
  {
    if pen.repeats == 0 then ([], pen)
    else if pen.repeats > 15 then
      var rest := Flushed(pen.(repeats := pen.repeats - 15), line);
      ([15 * 4 + 2] + rest.0, rest.1)
    else
      var delta := if 0 < line - pen.line < 4 then line - pen.line else 0;
      ([delta * 64 + pen.repeats * 4 + 2], Pen(pen.file, pen.line + delta, 0))
  }

  /** The bytes that change the file. */
  function FileBytes(file: nat, lots: bool): seq<Byte> {
    if lots then [LowByte(file / 256 * 2 + 1), LowByte(file)] else [LowByte(file * 2 + 1)]
  }

  /** The bytes for one instruction on another line: a small step on, or the line itself in 21 bits. */
  function LineBytes(from: int, to: int): seq<Byte> {
    if 0 < to - from < 32 then [(to - from) * 8 + 4] else [LowByte(to * 8), LowByte(to / 32), LowByte(to / 8192)]
  }

  /** The file of an instruction, written when it changes. */
  function FilePart(pen: Pen, at: Position, lots: bool): (seq<Byte>, Pen) {
    if at.file == pen.file then ([], pen)
    else
      var f := Flushed(pen, at.line);
      (f.0 + FileBytes(at.file, lots), f.1.(file := at.file))
  }

  /** Its line: one more for the run, or written out. */
  function LinePart(pen: Pen, line: int): (seq<Byte>, Pen) {
    var f := if line == pen.line then ([], pen) else Flushed(pen, line);
    if line == f.1.line then (f.0, f.1.(repeats := f.1.repeats + 1))
    else (f.0 + LineBytes(f.1.line, line), f.1.(line := line))
  }

  /** One instruction. */
  function Written(pen: Pen, at: Position, lots: bool): (seq<Byte>, Pen) {
    var f := FilePart(pen, at, lots);
    var l := LinePart(f.1, at.line);
    (f.0 + l.0, l.1)
  }

  /** All instructions, and the run that is left. */
  function Entries(pen: Pen, table: seq<Position>, lots: bool): seq<Byte>
    decreases |table|
  {
    if table == [] then Flushed(pen, pen.line).0
    else
      var w := Written(pen, table[0], lots);
      w.0 + Entries(w.1, table[1..], lots)
  }

  // ------------------------------------------------------------------- what the reader makes of them

  predicate Has(b: seq<Byte>, p: nat, bytes: seq<Byte>) {
    p + |bytes| <= |b| && b[p..p + |bytes|] == bytes
  }

  lemma HasBoth(b: seq<Byte>, p: nat, x: seq<Byte>, y: seq<Byte>)
    requires Has(b, p, x + y)
    ensures Has(b, p, x) && Has(b, p + |x|, y)
  {
    var all := b[p..p + |x + y|];
    assert b[p..p + |x|] == all[..|x|] && (x + y)[..|x|] == x;
    assert b[p + |x|..p + |x| + |y|] == all[|x|..] && (x + y)[|x|..] == y;
  }

  function Times(n: nat, at: Position): (s: seq<Position>)
    ensures |s| == n
  {
    seq(n, _ => at)
  }

  lemma RunByte(delta: nat, count: nat)
    requires delta < 4 && count < 16
    ensures var c := delta * 64 + count * 4 + 2;
      c < 256 && c % 2 == 0 && c / 2 % 2 == 1 && c / 64 == delta && c / 4 % 16 == count
  {
  }

  lemma RunStep(b: seq<Byte>, p: nat, npos: nat, nfiles: nat, lots: bool, at: Position, open: bool,
                acc: seq<Position>, delta: nat, count: nat)
    requires delta < 4 && 0 < count < 16 && |acc| + count <= npos && p < |b| && b[p] == delta * 64 + count * 4 + 2
    ensures Decode(b, p, npos, nfiles, lots, at, open, acc)
            == Decode(b, p + 1, npos, nfiles, lots, at.(line := at.line + delta), delta == 0, acc + Times(count, at))
  {
    RunByte(delta, count);
    assert Times(count, at) == seq(count, _ => at);
  }

  /** A run is read as that many instructions. */
  lemma {:induction false} FlushRead(b: seq<Byte>, p: nat, npos: nat, nfiles: nat, lots: bool, pen: Pen, line: int,
                                     open: bool, acc: seq<Position>) returns (open1: bool)
    requires Has(b, p, Flushed(pen, line).0) && |acc| + pen.repeats <= npos
    ensures var f := Flushed(pen, line);
      Decode(b, p, npos, nfiles, lots, Position(pen.file, pen.line), open, acc)
      == Decode(b, p + |f.0|, npos, nfiles, lots, Position(f.1.file, f.1.line), open1,
                acc + Times(pen.repeats, Position(pen.file, pen.line)))
    decreases pen.repeats
  {
    hide Decode;
    var at, f := Position(pen.file, pen.line), Flushed(pen, line);
    if pen.repeats == 0 {
      assert acc + Times(0, at) == acc;
      open1 := open;
    } else {
      assert b[p] == b[p..p + |f.0|][0];
      if pen.repeats > 15 {
        var rest := Flushed(pen.(repeats := pen.repeats - 15), line);
        HasBoth(b, p, [15 * 4 + 2], rest.0);
        RunStep(b, p, npos, nfiles, lots, at, open, acc, 0, 15);
        open1 := FlushRead(b, p + 1, npos, nfiles, lots, pen.(repeats := pen.repeats - 15), line, true,
          acc + Times(15, at));
        assert acc + Times(15, at) + Times(pen.repeats - 15, at) == acc + Times(pen.repeats, at);
      } else {
        RunStep(b, p, npos, nfiles, lots, at, open, acc, f.1.line - pen.line, pen.repeats);
        open1 := f.1.line == pen.line;
      }
    }
  }

  lemma FileStep(b: seq<Byte>, p: nat, npos: nat, nfiles: nat, lots: bool, at: Position, open: bool,
                 acc: seq<Position>, high: nat)
    requires |acc| < npos && p < |b| && b[p] == high * 2 + 1 && (lots ==> p + 1 < |b|)
    requires (if lots then high * 256 + b[p + 1] as int else high) < nfiles
    ensures var file := if lots then high * 256 + b[p + 1] as int else high;
      Decode(b, p, npos, nfiles, lots, at, open, acc)
      == Decode(b, if lots then p + 2 else p + 1, npos, nfiles, lots, at.(file := file), false, acc)
  {
    assert b[p] % 2 == 1 && b[p] / 2 == high;
  }

  lemma FileRead(b: seq<Byte>, p: nat, npos: nat, nfiles: nat, lots: bool, at: Position, open: bool,
                 acc: seq<Position>, file: nat)
    requires Has(b, p, FileBytes(file, lots)) && |acc| < npos && file < nfiles <= if lots then 0x7FFF else 0x7F
    ensures Decode(b, p, npos, nfiles, lots, at, open, acc)
            == Decode(b, p + |FileBytes(file, lots)|, npos, nfiles, lots, at.(file := file), false, acc)
  {
    hide Decode;
    var bytes := FileBytes(file, lots);
    assert b[p] == b[p..p + |bytes|][0] && (lots ==> b[p + 1] == b[p..p + |bytes|][1]);
    FileStep(b, p, npos, nfiles, lots, at, open, acc, if lots then file / 256 else file);
  }

  lemma NearStep(b: seq<Byte>, p: nat, npos: nat, nfiles: nat, lots: bool, at: Position, open: bool,
                 acc: seq<Position>, delta: nat)
    requires |acc| < npos && p < |b| && delta < 32 && b[p] == delta * 8 + 4
    ensures Decode(b, p, npos, nfiles, lots, at, open, acc)
            == Decode(b, p + 1, npos, nfiles, lots, at.(line := at.line + delta), true,
                      acc + [at.(line := at.line + delta)])
  {
    assert b[p] % 2 == 0 && b[p] / 2 % 2 == 0 && b[p] / 4 % 2 == 1 && b[p] / 8 == delta;
  }

  lemma FarStep(b: seq<Byte>, p: nat, npos: nat, nfiles: nat, lots: bool, at: Position, open: bool,
                acc: seq<Position>, low: nat)
    requires |acc| < npos && p + 3 <= |b| && low < 32 && b[p] == low * 8
    ensures var line := low + (b[p + 1] as int) * 32 + (b[p + 2] as int) * 8192;
      Decode(b, p, npos, nfiles, lots, at, open, acc)
      == Decode(b, p + 3, npos, nfiles, lots, at.(line := line), true, acc + [at.(line := line)])
  {
    assert b[p] % 2 == 0 && b[p] / 2 % 2 == 0 && b[p] / 4 % 2 == 0 && b[p] / 8 == low;
  }

  lemma LineRead(b: seq<Byte>, p: nat, npos: nat, nfiles: nat, lots: bool, at: Position, open: bool,
                 acc: seq<Position>, line: int)
    requires Has(b, p, LineBytes(at.line, line)) && |acc| < npos && 0 <= line < 0x20_0000
    ensures Decode(b, p, npos, nfiles, lots, at, open, acc)
            == Decode(b, p + |LineBytes(at.line, line)|, npos, nfiles, lots, at.(line := line), true,
                      acc + [at.(line := line)])
  {
    hide Decode;
    var bytes := LineBytes(at.line, line);
    assert b[p] == b[p..p + |bytes|][0];
    if 0 < line - at.line < 32 {
      NearStep(b, p, npos, nfiles, lots, at, open, acc, line - at.line);
    } else {
      assert b[p + 1] == b[p..p + |bytes|][1] && b[p + 2] == b[p..p + |bytes|][2];
      LineDigits(line);
      FarStep(b, p, npos, nfiles, lots, at, open, acc, line % 32);
    }
  }

  lemma LineDigits(line: int)
    requires 0 <= line < 0x20_0000
    ensures line * 8 % 256 == line % 32 * 8
    ensures line == line % 32 + (line / 32 % 256) * 32 + (line / 8192 % 256) * 8192
  {
    assert line == line % 32 + 32 * (line / 32);
    assert line * 8 == line % 32 * 8 + 256 * (line / 32);
    assert line / 8192 == line / 32 / 256;
  }

  lemma {:induction false} FlushedNone(pen: Pen, line: int)
    ensures Flushed(pen, line).1.repeats == 0 && Flushed(pen, line).1.file == pen.file
    decreases pen.repeats
  {
    if pen.repeats > 15 {
      FlushedNone(pen.(repeats := pen.repeats - 15), line);
    }
  }

  function At(pen: Pen): Position { Position(pen.file, pen.line) }

  lemma FilePartRead(b: seq<Byte>, p: nat, npos: nat, nfiles: nat, lots: bool, pen: Pen, open: bool,
                     acc: seq<Position>, next: Position) returns (open1: bool, acc1: seq<Position>)
    requires Has(b, p, FilePart(pen, next, lots).0) && |acc| + pen.repeats < npos
    requires next.file < nfiles <= if lots then 0x7FFF else 0x7F
    ensures var f := FilePart(pen, next, lots);
      && Decode(b, p, npos, nfiles, lots, At(pen), open, acc)
         == Decode(b, p + |f.0|, npos, nfiles, lots, At(f.1), open1, acc1)
      && acc1 + Times(f.1.repeats, At(f.1)) == acc + Times(pen.repeats, At(pen)) && f.1.file == next.file
  {
    hide Decode, FileBytes;
    open1, acc1 := open, acc;
    if next.file != pen.file {
      var f := Flushed(pen, next.line);
      HasBoth(b, p, f.0, FileBytes(next.file, lots));
      open1 := FlushRead(b, p, npos, nfiles, lots, pen, next.line, open, acc);
      acc1 := acc + Times(pen.repeats, At(pen));
      FlushedNone(pen, next.line);
      FileRead(b, p + |f.0|, npos, nfiles, lots, At(f.1), open1, acc1, next.file);
      open1 := false;
      assert acc1 + Times(0, At(f.1.(file := next.file))) == acc1;
    }
  }

  lemma LinePartRead(b: seq<Byte>, p: nat, npos: nat, nfiles: nat, lots: bool, pen: Pen, open: bool,
                     acc: seq<Position>, line: int) returns (open1: bool, acc1: seq<Position>)
    requires Has(b, p, LinePart(pen, line).0) && |acc| + pen.repeats < npos && 0 <= line < 0x20_0000
    ensures var l := LinePart(pen, line);
      && Decode(b, p, npos, nfiles, lots, At(pen), open, acc)
         == Decode(b, p + |l.0|, npos, nfiles, lots, At(l.1), open1, acc1)
      && acc1 + Times(l.1.repeats, At(l.1)) == acc + Times(pen.repeats, At(pen)) + [Position(pen.file, line)]
  {
    hide Decode, LineBytes;
    open1, acc1 := open, acc;
    if line == pen.line {
      assert acc + Times(pen.repeats + 1, At(pen)) == acc + Times(pen.repeats, At(pen)) + [At(pen)];
    } else {
      var f := Flushed(pen, line);
      var more := if line == f.1.line then [] else LineBytes(f.1.line, line);
      assert f.0 + [] == f.0;
      HasBoth(b, p, f.0, more);
      open1 := FlushRead(b, p, npos, nfiles, lots, pen, line, open, acc);
      acc1 := acc + Times(pen.repeats, At(pen));
      FlushedNone(pen, line);
      if line == f.1.line {
        assert Times(1, At(f.1)) == [Position(pen.file, line)];
      } else {
        LineRead(b, p + |f.0|, npos, nfiles, lots, At(f.1), open1, acc1, line);
        open1, acc1 := true, acc1 + [Position(pen.file, line)];
        assert acc1 + Times(0, Position(pen.file, line)) == acc1;
      }
    }
  }

  /** One instruction, as far as it has been written. */
  lemma WrittenRead(b: seq<Byte>, p: nat, npos: nat, nfiles: nat, lots: bool, pen: Pen, open: bool,
                    acc: seq<Position>, next: Position) returns (open1: bool, acc1: seq<Position>)
    requires Has(b, p, Written(pen, next, lots).0) && |acc| + pen.repeats < npos
    requires next.file < nfiles <= (if lots then 0x7FFF else 0x7F) && 0 <= next.line < 0x20_0000
    ensures var w := Written(pen, next, lots);
      && Decode(b, p, npos, nfiles, lots, At(pen), open, acc)
         == Decode(b, p + |w.0|, npos, nfiles, lots, At(w.1), open1, acc1)
      && acc1 + Times(w.1.repeats, At(w.1)) == acc + Times(pen.repeats, At(pen)) + [next]
      && |acc1| + w.1.repeats == |acc| + pen.repeats + 1
  {
    hide Decode, Times, FilePart, LinePart;
    var f := FilePart(pen, next, lots);
    var l := LinePart(f.1, next.line);
    HasBoth(b, p, f.0, l.0);
    var open0, acc0 := FilePartRead(b, p, npos, nfiles, lots, pen, open, acc, next);
    assert |acc0 + Times(f.1.repeats, At(f.1))| == |acc + Times(pen.repeats, At(pen))|;
    open1, acc1 := LinePartRead(b, p + |f.0|, npos, nfiles, lots, f.1, open0, acc0, next.line);
    assert |acc1 + Times(l.1.repeats, At(l.1))| == |acc0 + Times(f.1.repeats, At(f.1))| + 1;
  }

  lemma OneFirst(x: seq<Position>, table: seq<Position>)
    requires table != []
    ensures x + [table[0]] + table[1..] == x + table
  {
  }

  /** Files that are numbered, and lines of 21 bits. */
  predicate AllFit(table: seq<Position>, nfiles: nat) {
    forall at <- table :: at.file < nfiles && 0 <= at.line < 0x20_0000
  }

  lemma FitsApart(table: seq<Position>, nfiles: nat)
    requires table != [] && AllFit(table, nfiles)
    ensures table[0].file < nfiles && 0 <= table[0].line < 0x20_0000 && AllFit(table[1..], nfiles)
  {
    assert table[0] in table && forall at <- table[1..] :: at in table;
  }

  /** Writing and reading: from any pen on, the reader gets exactly the positions that are still to come. */
  lemma {:induction false} EntriesRead(b: seq<Byte>, p: nat, npos: nat, nfiles: nat, lots: bool, pen: Pen, open: bool,
                                       acc: seq<Position>, table: seq<Position>)
    requires Has(b, p, Entries(pen, table, lots)) && |acc| + pen.repeats + |table| == npos
    requires nfiles <= if lots then 0x7FFF else 0x7F
    requires AllFit(table, nfiles)
    ensures Decode(b, p, npos, nfiles, lots, At(pen), open, acc)
            == Plain(acc + Times(pen.repeats, At(pen)) + table, p + |Entries(pen, table, lots)|)
    decreases |table|
  {
    hide Written, Flushed, Times, AllFit, Has;
    var all := acc + Times(pen.repeats, At(pen));
    if table == [] {
      var open1 := FlushRead(b, p, npos, nfiles, lots, pen, pen.line, open, acc);
      assert all + [] == all && |all| == npos;
    } else {
      hide Decode;
      var w := Written(pen, table[0], lots);
      HasBoth(b, p, w.0, Entries(w.1, table[1..], lots));
      FitsApart(table, nfiles);
      var open1, acc1 := WrittenRead(b, p, npos, nfiles, lots, pen, open, acc, table[0]);
      EntriesRead(b, p + |w.0|, npos, nfiles, lots, w.1, open1, acc1, table[1..]);
      OneFirst(all, table);
    }
  }

  /** Every table of positions that the compiler writes, the loader reads back: any files that are numbered, any
      lines of 21 bits, however they change. */
  lemma TableBack(table: seq<Position>, nfiles: nat, lots: bool, before: seq<Byte>, rest: seq<Byte>)
    requires nfiles <= if lots then 0x7FFF else 0x7F
    requires AllFit(table, nfiles)
    ensures var bytes := Entries(Pen(0, 0, 0), table, lots);
      Decode(before + bytes + rest, |before|, |table|, nfiles, lots, Position(0, 0), false, [])
      == Plain(table, |before| + |bytes|)
  {
    hide Decode, Entries, AllFit;
    var bytes := Entries(Pen(0, 0, 0), table, lots);
    var b := before + bytes + rest;
    assert b[|before|..|before| + |bytes|] == bytes;
    assert [] + Times(0, Position(0, 0)) + table == table;
    EntriesRead(b, |before|, |table|, nfiles, lots, Pen(0, 0, 0), false, [], table);
  }

  /** A line beyond 21 bits does not fit what is written for it. */
  lemma LongLineIsCut()
    ensures var bytes := Entries(Pen(0, 0, 0), [Position(0, 0x20_0005)], false);
      Decode(bytes, 0, 1, 1, false, Position(0, 0), false, []) == Plain([Position(0, 5)], |bytes|)
  {
  }

  // ------------------------------------------------------------------- the writer as it runs

  class Writer {
    var out: seq<Byte>
    var curfile: nat
    var curpos: int
    var rcount: nat

    constructor ()
      ensures out == [] && Current() == Pen(0, 0, 0)
    {
      out, curfile, curpos, rcount := [], 0, 0, 0;
    }

    function Current(): Pen
      reads this
    {
      Pen(curfile, curpos, rcount)
    }

    method WriteByte(n: int)
      modifies this`out
      ensures out == old(out) + [LowByte(n)]
    {
      out := out + [LowByte(n)];
    }

    method FlushRepeat(p: int)
      modifies this
      ensures var f := Flushed(old(Current()), p); out == old(out) + f.0 && Current() == f.1
      decreases rcount
    {
      if rcount > 0 {
        if rcount > 15 {
          WriteByte(15 * 4 + 2);
          rcount := rcount - 15;
          ghost var rest := Flushed(Current(), p);
          FlushRepeat(p);
          assert old(out) + [15 * 4 + 2] + rest.0 == old(out) + ([15 * 4 + 2] + rest.0);
        } else {
          var delta := p - curpos;
          delta := if delta > 0 && delta < 4 then delta else 0;
          WriteByte(delta * 64 + rcount * 4 + 2);
          rcount, curpos := 0, curpos + delta;
        }
      }
    }

    method WriteFile(at: Position, lots: bool)
      modifies this
      ensures var f := FilePart(old(Current()), at, lots); out == old(out) + f.0 && Current() == f.1
    {
      if at.file != curfile {
        FlushRepeat(at.line);
        curfile := at.file;
        if lots {
          WriteByte(at.file / 256 * 2 + 1);
          WriteByte(at.file);
        } else {
          WriteByte(at.file * 2 + 1);
        }
      }
    }

    method WriteLine(p: int)
      modifies this
      ensures var l := LinePart(old(Current()), p); out == old(out) + l.0 && Current() == l.1
    {
      if p != curpos {
        FlushRepeat(p);
      }
      if p == curpos {
        rcount := rcount + 1;
      } else {
        var delta := p - curpos;
        if delta > 0 && delta < 32 {
          WriteByte(delta * 8 + 4);
        } else {
          WriteByte(p * 8);
          WriteByte(p / 32);
          WriteByte(p / 8192);
        }
        curpos := p;
      }
    }

    method WriteEntry(at: Position, lots: bool)
      modifies this
      ensures var w := Written(old(Current()), at, lots); out == old(out) + w.0 && Current() == w.1
    {
      WriteFile(at, lots);
      WriteLine(at.line);
    }

    /** `write_debug_infos`, from the table of positions on. */
    method Write(table: seq<Position>, lots: bool)
      requires out == [] && Current() == Pen(0, 0, 0)
      modifies this
      ensures out == Entries(Pen(0, 0, 0), table, lots)
    {
      hide Written, Flushed;
      ghost var all := Entries(Pen(0, 0, 0), table, lots);
      assert table[0..] == table;
      for i := 0 to |table|
        invariant all == out + Entries(Current(), table[i..], lots)
      {
        ghost var w, before := Written(Current(), table[i], lots), out;
        assert table[i..][1..] == table[i + 1..];
        WriteEntry(table[i], lots);
        Joined(before, w.0, Entries(w.1, table[i + 1..], lots));
      }
      assert table[|table|..] == [];
      FlushRepeat(curpos);
    }
  }

  lemma Joined(x: seq<Byte>, y: seq<Byte>, z: seq<Byte>)
    ensures x + (y + z) == x + y + z
  {
  }
}
