/** The position table of a module: one word per 32 instructions instead of one entry per instruction. */
module DebugTable {
  import opened Bits
  import opened MachineInt

  datatype Position = Position(file: nat, line: int)

  /** `base` is the position in force at the word's first instruction; bit 31 - r is set when
      instruction r of the word, other than the first, opens a new position. */
  datatype Word = Word(base: int, bits: nat)

  /** `bitcount`. */
  method BitCount(x: nat) returns (b: nat)
    ensures b == Ones(x)
  {
    var k := x;
    b := 0;
    while k > 0
      invariant b + Ones(k) == Ones(x)
    {
      AndLess(k);
      b := b + 1;
      k := And(k, k - 1);
    }
  }

  // ------------------------------------------------------------------- the word as a prefix of flags

  /** The flags of a word's instructions up to `r`, read as a number; the first has no bit. */
  function Prefix(starts: seq<bool>, lo: nat, r: nat): nat
    requires lo + r < |starts|
  {
    if r == 0 then 0 else 2 * Prefix(starts, lo, r - 1) + if starts[lo + r] then 1 else 0
  }

  /** How many of the first `n` instructions open a position. */
  function Opened(starts: seq<bool>, n: nat): nat
    requires n <= |starts|
  {
    if n == 0 then 0 else Opened(starts, n - 1) + if starts[n - 1] then 1 else 0
  }

  lemma {:induction false} PrefixOnes(starts: seq<bool>, lo: nat, r: nat)
    requires lo + r < |starts|
    ensures Ones(Prefix(starts, lo, r)) == Opened(starts, lo + r + 1) - Opened(starts, lo + 1)
  {
    if r > 0 {
      PrefixOnes(starts, lo, r - 1);
      var p := Prefix(starts, lo, r - 1);
      assert (2 * p + 1) / 2 == p && (2 * p) / 2 == p;
    }
  }

  lemma {:induction false} PrefixShift(starts: seq<bool>, lo: nat, n: nat, r: nat)
    requires r <= n && lo + n < |starts|
    ensures Prefix(starts, lo, n) / Pow2(n - r) == Prefix(starts, lo, r)
  {
    if n > r {
      PrefixShift(starts, lo, n - 1, r);
      DivTwice(2 * Prefix(starts, lo, n - 1) + (if starts[lo + n] then 1 else 0), n - 1 - r);
    }
  }

  /** Shifting a word down to instruction `r` leaves the flags up to `r`. */
  lemma WordShift(starts: seq<bool>, lo: nat, n: nat, r: nat)
    requires r <= n < 32 && lo + n < |starts|
    ensures (Prefix(starts, lo, n) * Pow2(31 - n)) / Pow2(31 - r) == Prefix(starts, lo, r)
  {
    PowAdds(n - r, 31 - n);
    Multiples(Prefix(starts, lo, n), Pow2(31 - n), Pow2(n - r));
    PrefixShift(starts, lo, n, r);
  }

  // ------------------------------------------------------------------- words against flags

  /** The word that stands for the flags from `32 * w` on, as far as they go. */
  ghost predicate WordOk(word: Word, starts: seq<bool>, w: nat)
    requires 32 * w < |starts|
  {
    var n := if |starts| - 1 - 32 * w < 31 then |starts| - 1 - 32 * w else 31;
    word.base == Opened(starts, 32 * w + 1) - 1 && word.bits == Prefix(starts, 32 * w, n) * Pow2(31 - n)
  }

  ghost predicate WordsOk(words: seq<Word>, starts: seq<bool>) {
    |starts| <= 32 * |words| && forall w :: 0 <= w && 32 * w < |starts| ==> WordOk(words[w], starts, w)
  }

  /** The lookup that the interpreter makes. */
  function Index(words: seq<Word>, pc: nat): int
    requires pc / 32 < |words|
  {
    words[pc / 32].base + Ones(Shifted(words[pc / 32].bits, 31 - pc % 32))
  }

  /** It counts the positions opened up to `pc`. */
  lemma IndexIsRank(words: seq<Word>, starts: seq<bool>, pc: nat)
    requires WordsOk(words, starts) && pc < |starts|
    ensures Index(words, pc) == Opened(starts, pc + 1) - 1
  {
    var w, r := pc / 32, pc % 32;
    assert WordOk(words[w], starts, w);
    var n := if |starts| - 1 - 32 * w < 31 then |starts| - 1 - 32 * w else 31;
    WordShift(starts, 32 * w, n, r);
    PrefixOnes(starts, 32 * w, r);
  }

  lemma {:induction false} OpenedStays(starts: seq<bool>, x: bool, n: nat)
    requires n <= |starts|
    ensures Opened(starts + [x], n) == Opened(starts, n)
  {
    if n > 0 {
      OpenedStays(starts, x, n - 1);
    }
  }

  lemma {:induction false} PrefixStays(starts: seq<bool>, x: bool, lo: nat, r: nat)
    requires lo + r < |starts|
    ensures Prefix(starts + [x], lo, r) == Prefix(starts, lo, r)
  {
    if r > 0 {
      PrefixStays(starts, x, lo, r - 1);
    }
  }

  /** What `SETBIT` does to the words when instruction `i` gets its flag. */
  function WithBit(words: seq<Word>, i: nat, posIndex: int, b: bool): (r: seq<Word>)
    requires i / 32 < |words|
    ensures |r| == |words|
  {
    var w := i / 32;
    words[w := if i % 32 == 0 then Word(posIndex, 0)
               else words[w].(bits := Or(words[w].bits, if b then Pow2(31 - i % 32) else 0))]
  }

  lemma WordWithBit(words: seq<Word>, starts: seq<bool>, b: bool, w: nat)
    requires WordsOk(words, starts) && |starts| / 32 < |words| && 32 * w <= |starts|
    ensures WordOk(WithBit(words, |starts|, Opened(starts + [b], |starts| + 1) - 1, b)[w], starts + [b], w)
  {
    if w < |starts| / 32 {
      FullWord(words[w], starts, b, w);
    } else if |starts| % 32 == 0 {
      FirstFlag(starts, b, w);
    } else {
      LastWord(words[w], starts, b, w);
    }
  }

  lemma WithBitOk(words: seq<Word>, starts: seq<bool>, b: bool)
    requires WordsOk(words, starts) && |starts| / 32 < |words|
    ensures WordsOk(WithBit(words, |starts|, Opened(starts + [b], |starts| + 1) - 1, b), starts + [b])
  {
    var more := starts + [b];
    var next := WithBit(words, |starts|, Opened(more, |starts| + 1) - 1, b);
    forall w | 0 <= w && 32 * w < |more|
      ensures WordOk(next[w], more, w)
    {
      WordWithBit(words, starts, b, w);
    }
  }

  lemma FirstFlag(starts: seq<bool>, b: bool, w: nat)
    requires 32 * w == |starts|
    ensures WordOk(Word(Opened(starts + [b], |starts| + 1) - 1, 0), starts + [b], w)
  {
    assert Prefix(starts + [b], 32 * w, 0) == 0;
  }

  lemma FullWord(word: Word, starts: seq<bool>, b: bool, w: nat)
    requires 32 * w + 32 <= |starts| && WordOk(word, starts, w)
    ensures WordOk(word, starts + [b], w)
  {
    OpenedStays(starts, b, 32 * w + 1);
    PrefixStays(starts, b, 32 * w, 31);
  }

  lemma LastWord(word: Word, starts: seq<bool>, b: bool, w: nat)
    requires 32 * w < |starts| < 32 * w + 32 && WordOk(word, starts, w)
    ensures WordOk(word.(bits := Or(word.bits, if b then Pow2(31 - |starts| % 32) else 0)), starts + [b], w)
  {
    var n := |starts| - 1 - 32 * w;
    assert |starts| % 32 == n + 1;
    OpenedStays(starts, b, 32 * w + 1);
    PrefixStays(starts, b, 32 * w, n);
    NewFlag(Prefix(starts, 32 * w, n), if b then 1 else 0, 30 - n);
    assert Prefix(starts + [b], 32 * w, n + 1) == 2 * Prefix(starts, 32 * w, n) + if b then 1 else 0;
  }

  lemma NewFlag(p: nat, bit: nat, s: nat)
    requires bit <= 1
    ensures Or(p * Pow2(s + 1), if bit == 1 then Pow2(s) else 0) == (2 * p + bit) * Pow2(s)
  {
    OrAdds(p, bit, s);
    assert bit * Pow2(s) == if bit == 1 then Pow2(s) else 0;
    Mixed(p, bit, Pow2(s));
  }

  lemma Mixed(p: nat, bit: nat, q: nat)
    ensures p * (2 * q) + bit * q == (2 * p + bit) * q
  {
  }

  // ------------------------------------------------------------------- the stream

  /** What the debug stream says, instruction by instruction. `Runaway` is a run of length zero that
      would open a position: the decoding loop then has no end. */
  datatype Decoded = Malformed | Runaway | Plain(table: seq<Position>, pos: nat)

  function Decode(b: seq<Byte>, p: nat, npos: nat, nfiles: nat, lots: bool, at: Position, open: bool,
                  acc: seq<Position>): Decoded
    requires p <= |b|
    decreases |b| - p
  {
    if |acc| >= npos then Plain(acc, p)
    else if p == |b| then Malformed
    else
      var c := b[p];
      if c % 2 == 1 then
        if lots && p + 1 == |b| then Malformed
        else
          var file := if lots then c / 2 * 256 + (b[p + 1] as int) else c / 2;
          if file >= nfiles then Malformed
          else Decode(b, if lots then p + 2 else p + 1, npos, nfiles, lots, Position(file, at.line), false, acc)
      else if c / 2 % 2 == 1 then
        var delta, count := c / 64, c / 4 % 16;
        if |acc| + count > npos then Malformed
        else if !open && count == 0 then Runaway
        else Decode(b, p + 1, npos, nfiles, lots, at.(line := at.line + delta), delta == 0, acc + seq(count, _ => at))
      else if c / 4 % 2 == 1 then
        var now := at.(line := at.line + c / 8);
        Decode(b, p + 1, npos, nfiles, lots, now, true, acc + [now])
      else if p + 3 > |b| then Malformed
      else
        var now := at.(line := c / 8 + (b[p + 1] as int) * 32 + (b[p + 2] as int) * 8192);
        Decode(b, p + 3, npos, nfiles, lots, now, true, acc + [now])
  }

  class Reader {
    const npos: nat
    var words: array<Word>
    /** The word being filled. */
    var bits: int
    var i: nat
    var posIndex: int
    var positions: array<Position>
    /** The flags behind the words, and the plain table. */
    ghost var starts: seq<bool>
    ghost var plain: seq<Position>

    ghost predicate Valid()
      reads this, words, positions
    {
      && words.Length == (npos + 31) / 32 && i == |starts| == |plain| <= npos
      && bits == (i + 31) / 32 - 1
      && posIndex == Opened(starts, i) - 1 && posIndex < positions.Length && positions.Length >= 2
      && WordsOk(words[..], starts)
      && Ranked(starts, positions[..], plain)
    }

    constructor (npos: nat)
      ensures Valid() && i == 0 && this.npos == npos && plain == []
      ensures fresh(words) && fresh(positions)
    {
      this.npos, i, posIndex, bits := npos, 0, -1, -1;
      words := new Word[(npos + 31) / 32](_ => Word(0, 0));
      positions := new Position[2 + npos / 20](_ => Position(0, 0));
      starts, plain := [], [];
    }

    /** `append_array`: half as much room again always has room for the next position. */
    method Append(p: Position)
      requires -1 <= posIndex < positions.Length && positions.Length >= 2
      modifies this`posIndex, this`positions, positions
      ensures posIndex == old(posIndex) + 1 && posIndex < positions.Length && positions.Length >= old(positions.Length)
      ensures positions[..posIndex + 1] == old(positions[..posIndex + 1]) + [p]
      ensures positions == old(positions) || fresh(positions)
    {
      posIndex := posIndex + 1;
      if posIndex >= positions.Length {
        Widen(positions.Length * 3 / 2);
      }
      positions[posIndex] := p;
    }

    method Widen(n: nat)
      requires n >= positions.Length
      modifies this`positions
      ensures fresh(positions) && positions.Length == n && positions[..old(positions.Length)] == old(positions[..])
    {
      var m := positions.Length;
      var a := new Position[n](_ => Position(0, 0));
      for k := 0 to m
        invariant positions == old(positions) && a[..k] == positions[..k]
      {
        a[k] := positions[k];
      }
      positions := a;
    }

    /** `SETBIT`. */
    method SetBit(b: bool)
      requires i < npos && words.Length == (npos + 31) / 32 && bits == (i + 31) / 32 - 1
      modifies this`bits, this`i, words
      ensures i == old(i) + 1 && bits == (i + 31) / 32 - 1
      ensures words[..] == WithBit(old(words[..]), old(i), posIndex, b)
    {
      if i % 32 == 0 {
        bits := bits + 1;
        words[bits] := Word(posIndex, 0);
      } else {
        words[bits] := words[bits].(bits := Or(words[bits].bits, if b then Pow2(31 - i % 32) else 0));
      }
      i := i + 1;
    }

    /** A new position, in force from instruction `i` on. */
    method OpenAt(p: Position)
      requires Valid() && i < npos
      modifies this, words, positions
      ensures Valid() && plain == old(plain) + [p] && Same()
    {
      ghost var used := positions[..posIndex + 1];
      ghost var was := positions[..];
      Append(p);
      OpenedStays(starts, true, i);
      RankedOpen(starts, was, plain, p, positions[..]);
      WithBitOk(words[..], starts, true);
      SetBit(true);
      starts, plain := starts + [true], plain + [p];
    }

    /** One more instruction under the position in force. */
    method Extend()
      requires Valid() && 0 < i < npos
      modifies this, words
      ensures Valid() && plain == old(plain) + [old(plain[i - 1])] && Same() && positions == old(positions)
    {
      OpenedStays(starts, false, i);
      RankedExtend(starts, positions[..], plain);
      WithBitOk(words[..], starts, false);
      SetBit(false);
      starts, plain := starts + [false], plain + [plain[|plain| - 1]];
    }

    /** The arrays are the ones there were, or new ones. */
    twostate predicate Same()
      reads this
    {
      words == old(words) && (positions == old(positions) || fresh(positions))
    }

    /** A run of instructions under one position, which it opens first if it has to. */
    method RunOf(count: nat, at: Position, open: bool)
      requires Valid() && i + count <= npos && (open ==> i > 0 && plain[i - 1] == at) && (!open ==> count > 0)
      modifies this, words, positions
      ensures Valid() && plain == old(plain) + seq(count, _ => at) && Same()
    {
      var left := count;
      if !open {
        OpenAt(at);
        left := left - 1;
      }
      while left > 0
        invariant 0 <= left <= count && Valid() && Same() && i == old(i) + count - left && i > 0
        invariant plain == old(plain) + seq(count - left, _ => at) && plain[i - 1] == at
      {
        Extend();
        left := left - 1;
      }
    }

    /** The round for a byte that changes the file. */
    method FileRound(b: seq<Byte>, p: nat, nfiles: nat, lots: bool, at: Position, open: bool)
      returns (next: Next)
      requires Valid() && i < npos && p < |b| && b[p] % 2 == 1
      ensures next.Go? ==> p < next.p <= |b| && !next.open
      ensures Decode(b, p, npos, nfiles, lots, at, open, plain) ==
              match next
              case Bad => Malformed
              case Endless => Runaway
              case Go(p', at', open') => Decode(b, p', npos, nfiles, lots, at', open', plain)
    {
      if lots && p + 1 == |b| {
        return Bad;
      }
      var file := if lots then b[p] / 2 * 256 + (b[p + 1] as int) else b[p] / 2;
      if file >= nfiles {
        return Bad;
      }
      return Go(if lots then p + 2 else p + 1, Position(file, at.line), false);
    }

    /** The round for a byte that stands for a run. */
    method RunRound(b: seq<Byte>, p: nat, nfiles: nat, lots: bool, at: Position, open: bool)
      returns (next: Next)
      requires Valid() && i < npos && p < |b| && (open ==> i > 0 && plain[i - 1] == at)
      requires b[p] % 2 == 0 && b[p] / 2 % 2 == 1
      modifies this, words, positions
      ensures Valid() && Same()
      ensures next.Go? ==> p < next.p <= |b| && (next.open ==> i > 0 && plain[i - 1] == next.at)
      ensures Decode(b, p, npos, nfiles, lots, at, open, old(plain)) ==
              match next
              case Bad => Malformed
              case Endless => Runaway
              case Go(p', at', open') => Decode(b, p', npos, nfiles, lots, at', open', plain)
    {
      var delta, count := b[p] / 64, b[p] / 4 % 16;
      if i + count > npos {
        return Bad;
      }
      if !open && count == 0 {
        return Endless;
      }
      RunOf(count, at, open);
      return Go(p + 1, at.(line := at.line + delta), delta == 0);
    }

    /** One round of the decoding loop. */
    method Round(b: seq<Byte>, p: nat, nfiles: nat, lots: bool, at: Position, open: bool)
      returns (next: Next)
      requires Valid() && i < npos && p <= |b| && (open ==> i > 0 && plain[i - 1] == at)
      modifies this, words, positions
      ensures Valid() && Same()
      ensures next.Go? ==> p < next.p <= |b| && (next.open ==> i > 0 && plain[i - 1] == next.at)
      ensures Decode(b, p, npos, nfiles, lots, at, open, old(plain)) ==
              match next
              case Bad => Malformed
              case Endless => Runaway
              case Go(p', at', open') => Decode(b, p', npos, nfiles, lots, at', open', plain)
    {
      if p == |b| {
        return Bad;
      }
      if b[p] % 2 == 1 {
        next := FileRound(b, p, nfiles, lots, at, open);
      } else if b[p] / 2 % 2 == 1 {
        next := RunRound(b, p, nfiles, lots, at, open);
      } else if b[p] / 4 % 2 == 1 {
        var now := at.(line := at.line + b[p] / 8);
        OpenAt(now);
        next := Go(p + 1, now, true);
      } else if p + 3 > |b| {
        next := Bad;
      } else {
        var now := at.(line := b[p] / 8 + (b[p + 1] as int) * 32 + (b[p + 2] as int) * 8192);
        OpenAt(now);
        next := Go(p + 3, now, true);
      }
    }

    /** `read_debug_infos`, from the table of positions on. */
    method Read(b: seq<Byte>, p0: nat, nfiles: nat, lots: bool) returns (r: Read)
      requires Valid() && i == 0 && p0 <= |b|
      modifies this, words, positions
      ensures Valid() && Same()
      ensures match Decode(b, p0, npos, nfiles, lots, Position(0, 0), false, [])
              case Malformed => r == Invalid
              case Runaway => r == NoEnd
              case Plain(table, pos) =>
                && r.Table? && fresh(r.positions) && r.pos == pos && |table| == npos
                && forall pc: nat :: pc < npos ==> Resolved(words[..], r.positions[..], pc, table[pc])
    {
      var p, at, open := p0, Position(0, 0), false;
      while i < npos
        invariant Valid() && Same() && p <= |b| && (open ==> i > 0 && plain[i - 1] == at)
        invariant Decode(b, p0, npos, nfiles, lots, Position(0, 0), false, [])
          == Decode(b, p, npos, nfiles, lots, at, open, plain)
        decreases |b| - p
      {
        var next := Round(b, p, nfiles, lots, at, open);
        match next {
          case Bad => return Invalid;
          case Endless => return NoEnd;
          case Go(p', at', open') => p, at, open := p', at', open';
        }
      }
      var n := posIndex + 1;
      var table := new Position[n](k requires 0 <= k < n
        && n <= positions.Length reads this, positions => positions[k]);
      forall pc: nat | pc < npos
        ensures Resolved(words[..], table[..], pc, plain[pc])
      {
        IndexIsRank(words[..], starts, pc);
        assert RankOk(starts, positions[..], plain, pc);
        OpenedGrows(starts, pc + 1, npos);
      }
      return Table(table, p);
    }
  }

  datatype Next = Bad | Endless | Go(p: nat, at: Position, open: bool)
  datatype Read = Invalid | NoEnd | Table(positions: array<Position>, pos: nat)

  /** Looking `pc` up in the compressed table gives the position in the plain one. */
  ghost predicate Resolved(words: seq<Word>, positions: seq<Position>, pc: nat, position: Position) {
    && pc / 32 < |words| && 0 <= Index(words, pc) < |positions|
    && positions[Index(words, pc)] == position
  }

  lemma {:induction false} OpenedGrows(starts: seq<bool>, m: nat, n: nat)
    requires m <= n <= |starts|
    ensures Opened(starts, m) <= Opened(starts, n)
    decreases n - m
  {
    if m < n {
      OpenedGrows(starts, m, n - 1);
    }
  }

  lemma RankedOpen(starts: seq<bool>, positions: seq<Position>, plain: seq<Position>, p: Position,
                   positions': seq<Position>)
    requires Ranked(starts, positions, plain)
    requires var n := Opened(starts, |starts|); n < |positions'| && positions'[..n + 1] == positions[..n] + [p]
    ensures Ranked(starts + [true], positions', plain + [p])
  {
    var i := |starts|;
    var n := Opened(starts, i);
    OpenedStays(starts, true, i);
    assert positions'[n] == positions'[..n + 1][n] == p;
    forall k | 0 <= k < i
      ensures RankOk(starts + [true], positions', plain + [p], k)
    {
      assert RankOk(starts, positions, plain, k);
      OpenedStays(starts, true, k + 1);
      OpenedGrows(starts, k + 1, i);
      var r := Opened(starts, k + 1) - 1;
      assert positions'[r] == positions'[..n + 1][r] == positions[r];
    }
    assert RankOk(starts + [true], positions', plain + [p], i);
  }

  lemma RankedExtend(starts: seq<bool>, positions: seq<Position>, plain: seq<Position>)
    requires Ranked(starts, positions, plain) && |starts| > 0
    ensures Ranked(starts + [false], positions, plain + [plain[|plain| - 1]])
  {
    var i := |starts|;
    OpenedStays(starts, false, i);
    var more, longer := starts + [false], plain + [plain[i - 1]];
    forall k | 0 <= k < i
      ensures RankOk(more, positions, longer, k)
    {
      assert RankOk(starts, positions, plain, k);
      OpenedStays(starts, false, k + 1);
    }
    assert RankOk(starts, positions, plain, i - 1);
    assert RankOk(more, positions, longer, i);
  }

  /** The position that each instruction's rank selects is the one in the plain table. */
  ghost predicate Ranked(starts: seq<bool>, positions: seq<Position>, plain: seq<Position>) {
    && |starts| == |plain| && Opened(starts, |starts|) <= |positions|
    && (|starts| > 0 ==> starts[0])
    && forall k :: 0 <= k < |plain| ==> RankOk(starts, positions, plain, k)
  }

  ghost predicate RankOk(starts: seq<bool>, positions: seq<Position>, plain: seq<Position>, k: nat)
    requires k < |starts| == |plain|
  {
    0 < Opened(starts, k + 1) <= |positions| && positions[Opened(starts, k + 1) - 1] == plain[k]
  }
}
