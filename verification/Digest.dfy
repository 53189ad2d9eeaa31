/** The streaming digests: contexts that take a message in pieces of any size, and the padding that ends
    it. What a block does to the chaining state is a parameter. */
module Digest {
  import opened Bits
  import opened MachineInt

  const BLOCK: nat := 64
  const WORD32: nat := 0x1_0000_0000
  const WORD64: nat := 0x1_0000_0000_0000_0000

  /** Bytes of `n`, the least significant first. */
  function LittleEndian(n: nat, k: nat): (r: seq<Byte>)
    ensures |r| == k
  {
    if k == 0 then [] else [n % 256] + LittleEndian(n / 256, k - 1)
  }

  /** Bytes of `n`, the most significant first. */
  function BigEndian(n: nat, k: nat): (r: seq<Byte>)
    ensures |r| == k
  {
    if k == 0 then [] else BigEndian(n / 256, k - 1) + [n % 256]
  }

  function Zeros(n: nat): (r: seq<Byte>)
    ensures |r| == n
  {
    seq(n, _ => 0)
  }

  /** The message padded as section 3.1 of RFC 1321 and section 5.1.1 of FIPS 180-4 have it: a one bit,
      as few zeros as leave room for the eight bytes of the length, and those. */
  function Padded(m: seq<Byte>, length: seq<Byte>): (p: seq<Byte>)
    requires |length| == 8
    ensures |p| % BLOCK == 0 && m <= p
    ensures |m| + 9 <= |p| <= |m| + 9 + 63
  {
    m + [0x80] + Zeros((55 - |m|) % 64) + length
  }

  /** Section 3.2 of RFC 1321: the length in bits modulo 2^64, low byte first. */
  function Md5Padded(m: seq<Byte>): seq<Byte> {
    Padded(m, LittleEndian(8 * |m|, 8))
  }

  /** Section 5.1.1 of FIPS 180-4: high byte first. */
  function Sha1Padded(m: seq<Byte>): seq<Byte> {
    Padded(m, BigEndian(8 * |m|, 8))
  }

  /** The chaining state after the first `k` blocks of the message. */
  function Chained<S>(process: (S, seq<Byte>) -> S, start: S, m: seq<Byte>, k: nat): S
    requires BLOCK * k <= |m|
  {
    if k == 0 then start
    else process(Chained(process, start, m, k - 1), m[BLOCK * (k - 1)..BLOCK * k])
  }

  /** The digest's state for a whole message. */
  function Hashed<S>(process: (S, seq<Byte>) -> S, start: S, m: seq<Byte>): S {
    Chained(process, start, m, |m| / BLOCK)
  }

  lemma {:induction false} ChainedPrefix<S>(process: (S, seq<Byte>) -> S, start: S, m: seq<Byte>, m': seq<Byte>, k: nat)
    requires BLOCK * k <= |m| && m <= m'
    ensures Chained(process, start, m', k) == Chained(process, start, m, k)
  {
    if k > 0 {
      assert m'[BLOCK * (k - 1)..BLOCK * k] == m[BLOCK * (k - 1)..BLOCK * k];
      ChainedPrefix(process, start, m, m', k - 1);
    }
  }

  /** The bytes that wait for their block to fill. */
  function Waiting(m: seq<Byte>): (r: seq<Byte>)
    ensures |r| == |m| % BLOCK
  {
    m[|m| - |m| % BLOCK..]
  }

  // ------------------------------------------------------------------- the padding is unambiguous

  lemma {:induction false} LittleEndianInjective(a: nat, b: nat, k: nat)
    requires LittleEndian(a, k) == LittleEndian(b, k) && a < Pow2(8 * k) && b < Pow2(8 * k)
    ensures a == b
  {
    if k > 0 {
      LittleStep(a, b, k);
      Pow2Byte(k);
      LittleEndianInjective(a / 256, b / 256, k - 1);
    }
  }

  lemma LittleStep(a: nat, b: nat, k: nat)
    requires k > 0 && LittleEndian(a, k) == LittleEndian(b, k)
    ensures a % 256 == b % 256 && LittleEndian(a / 256, k - 1) == LittleEndian(b / 256, k - 1)
  {
    assert LittleEndian(a, k)[0] == a % 256 && LittleEndian(b, k)[0] == b % 256;
    assert LittleEndian(a, k)[1..] == LittleEndian(a / 256, k - 1);
    assert LittleEndian(b, k)[1..] == LittleEndian(b / 256, k - 1);
  }

  lemma Pow2Byte(k: nat)
    requires k > 0
    ensures Pow2(8 * k) == 256 * Pow2(8 * (k - 1))
  {
    PowAdds(8, 8 * (k - 1));
    assert Pow2(8) == 256 by { Pow2Of8(); }
  }

  lemma Pow2Of8()
    ensures Pow2(8) == 256
  {
    assert Pow2(4) == 16;
    PowAdds(4, 4);
  }

  lemma {:induction false} BigIsReversed(n: nat, k: nat, i: nat)
    requires i < k
    ensures BigEndian(n, k)[k - 1 - i] == LittleEndian(n, k)[i]
  {
    if i > 0 {
      BigIsReversed(n / 256, k - 1, i - 1);
    }
  }

  /** No message short enough for its length to fit is padded as another one is. */
  lemma PaddedInjective(m: seq<Byte>, m': seq<Byte>)
    requires |m| < 0x2000_0000_0000_0000 && |m'| < 0x2000_0000_0000_0000
    requires Md5Padded(m) == Md5Padded(m') || Sha1Padded(m) == Sha1Padded(m')
    ensures m == m'
  {
    var n, n' := 8 * |m|, 8 * |m'|;
    if Md5Padded(m) == Md5Padded(m') {
      LastEight(m, m', LittleEndian(n, 8), LittleEndian(n', 8));
    } else {
      LastEight(m, m', BigEndian(n, 8), BigEndian(n', 8));
      SameReversed(n, n', 8);
    }
    LengthFits(n);
    LengthFits(n');
    LittleEndianInjective(n, n', 8);
    assert m <= Md5Padded(m) && m' <= Md5Padded(m') && m <= Sha1Padded(m) && m' <= Sha1Padded(m');
    SamePrefix(m, m', if Md5Padded(m) == Md5Padded(m') then Md5Padded(m) else Sha1Padded(m));
  }

  lemma LastEight(m: seq<Byte>, m': seq<Byte>, length: seq<Byte>, length': seq<Byte>)
    requires |length| == |length'| == 8 && Padded(m, length) == Padded(m', length')
    ensures length == length'
  {
    var p := Padded(m, length);
    assert p[|p| - 8..] == length && Padded(m', length')[|p| - 8..] == length';
  }

  lemma SameReversed(n: nat, n': nat, k: nat)
    requires BigEndian(n, k) == BigEndian(n', k)
    ensures LittleEndian(n, k) == LittleEndian(n', k)
  {
    forall i | 0 <= i < k
      ensures LittleEndian(n, k)[i] == LittleEndian(n', k)[i]
    {
      BigIsReversed(n, k, i);
      BigIsReversed(n', k, i);
    }
  }

  lemma LengthFits(n: nat)
    requires n < WORD64
    ensures n < Pow2(8 * 8)
  {
    Pow2Of8();
    PowAdds(8, 8);
    PowAdds(16, 16);
    PowAdds(32, 32);
  }

  lemma SamePrefix(m: seq<Byte>, m': seq<Byte>, p: seq<Byte>)
    requires m <= p && m' <= p && |m| == |m'|
    ensures m == m'
  {
  }

  // ------------------------------------------------------------------- contexts

  /** A context: `state` after the whole blocks of `fed`, and the rest of `fed` in `buffer`. */
  class Context<S> {
    const process: (S, seq<Byte>) -> S
    const start: S
    const buffer: array<Byte>
    var state: S
    ghost var fed: seq<Byte>

    ghost predicate Valid()
      reads this, buffer
    {
      && buffer.Length == BLOCK
      && state == Hashed(process, start, fed)
      && buffer[..|fed| % BLOCK] == Waiting(fed)
    }

    constructor (process: (S, seq<Byte>) -> S, start: S)
      ensures Valid() && fed == [] && fresh(buffer)
      ensures this.process == process && this.start == start
    {
      this.process, this.start, this.state, this.fed := process, start, start, [];
      this.buffer := new Byte[BLOCK](_ => 0);
    }

    /** Whole blocks straight from the input, from index `i` on. */
    method Blocks(input: seq<Byte>, i: nat, ghost before: seq<Byte>) returns (next: nat)
      requires i <= |input| && (|before| + i) % BLOCK == 0
      requires state == Chained(process, start, before + input, (|before| + i) / BLOCK)
      modifies this`state
      ensures i <= next <= |input| < next + BLOCK && (|before| + next) % BLOCK == 0
      ensures state == Chained(process, start, before + input, (|before| + next) / BLOCK)
    {
      next := i;
      while |input| - next >= BLOCK
        invariant i <= next <= |input| && (|before| + next) % BLOCK == 0
        invariant state == Chained(process, start, before + input, (|before| + next) / BLOCK)
        decreases |input| - next
      {
        NextBlock(before, input, next);
        state := process(state, input[next..next + BLOCK]);
        next := next + BLOCK;
      }
    }

    /** `memcpy` into the buffer. */
    method Fill(at: nat, bytes: seq<Byte>)
      requires at + |bytes| <= buffer.Length
      modifies buffer
      ensures buffer[..at] == old(buffer[..at]) && buffer[at..at + |bytes|] == bytes
    {
      for i := 0 to |bytes|
        invariant buffer[..at] == old(buffer[..at]) && buffer[at..at + i] == bytes[..i]
      {
        buffer[at + i] := bytes[i];
      }
    }

    /** The first bytes of the input complete the block that waits. */
    method TopUp(input: seq<Byte>, left: nat) returns (i: nat)
      requires Valid() && left == |fed| % BLOCK && |input| >= BLOCK - left
      modifies this`state, buffer
      ensures i == BLOCK - left && (|fed| + i) % BLOCK == 0
      ensures state == Chained(process, start, fed + input, (|fed| + i) / BLOCK)
    {
      i := BLOCK - left;
      CompletedBlock(process, start, fed, input, i);
      Fill(left, input[..i]);
      assert buffer[..] == buffer[..left] + buffer[left..left + i];
      state := process(state, buffer[..]);
    }

    /** What is left of the input waits behind what is waiting already. */
    method Keep(input: seq<Byte>, i: nat, left: nat)
      requires buffer.Length == BLOCK && i <= |input| && left + |input| - i < BLOCK
      requires left == (|fed| + i) % BLOCK && buffer[..left] == Waiting(fed + input[..i])
      requires state == Hashed(process, start, fed + input[..i])
      modifies this`fed, buffer
      ensures Valid() && fed == old(fed) + input
    {
      AllWaiting(process, start, fed, input, i);
      Fill(left, input[i..]);
      assert buffer[..left + |input| - i] == buffer[..left] + buffer[left..left + |input| - i];
      fed := fed + input;
    }

    /** At the end of a block. */
    method KeepFresh(input: seq<Byte>, i: nat)
      requires buffer.Length == BLOCK && i <= |input| < i + BLOCK && (|fed| + i) % BLOCK == 0
      requires state == Chained(process, start, fed + input, (|fed| + i) / BLOCK)
      modifies this`fed, buffer
      ensures Valid() && fed == old(fed) + input
    {
      WholeInput(fed, input, i);
      ChainedPrefix(process, start, fed + input[..i], fed + input, (|fed| + i) / BLOCK);
      assert buffer[..0] == Waiting(fed + input[..i]);
      Keep(input, i, 0);
    }

    /** The block that waits is processed as it is; afterwards `fed` means nothing. */
    method Discard()
      requires buffer.Length == BLOCK
      modifies this`state
      ensures state == process(old(state), buffer[..])
    {
      state := process(state, buffer[..]);
    }

    /** From the end of a block on: whole blocks, then the rest. */
    method Rest(input: seq<Byte>, i: nat)
      requires buffer.Length == BLOCK && i <= |input| && (|fed| + i) % BLOCK == 0
      requires state == Chained(process, start, fed + input, (|fed| + i) / BLOCK)
      modifies this`state, this`fed, buffer
      ensures Valid() && fed == old(fed) + input
    {
      var next := Blocks(input, i, fed);
      KeepFresh(input, next);
    }

    /** Less than completes the block that waits. */
    method KeepAll(input: seq<Byte>, left: nat)
      requires Valid() && left == |fed| % BLOCK && left + |input| < BLOCK
      modifies this`fed, buffer
      ensures Valid() && fed == old(fed) + input
    {
      assert fed + input[..0] == fed;
      Keep(input, 0, left);
    }
  }

  lemma NextBlock(before: seq<Byte>, input: seq<Byte>, i: nat)
    requires i + BLOCK <= |input| && (|before| + i) % BLOCK == 0
    ensures var k := (|before| + i) / BLOCK;
      && (|before| + i + BLOCK) / BLOCK == k + 1
      && (before + input)[BLOCK * k..BLOCK * (k + 1)] == input[i..i + BLOCK]
  {
  }

  lemma WholeInput(m: seq<Byte>, input: seq<Byte>, i: nat)
    requires i <= |input|
    ensures m + input == (m + input[..i]) + input[i..] && m + input[..i] <= m + input
  {
    assert input == input[..i] + input[i..];
  }

  lemma BlockEnds(n: nat)
    ensures (n + (BLOCK - n % BLOCK)) / BLOCK == n / BLOCK + 1 && (n + (BLOCK - n % BLOCK)) % BLOCK == 0
    ensures BLOCK * (n / BLOCK + 1) == n + (BLOCK - n % BLOCK) && BLOCK * (n / BLOCK) == n - n % BLOCK
  {
  }

  lemma BlockAround(m: seq<Byte>, input: seq<Byte>, i: nat)
    requires i == BLOCK - |m| % BLOCK <= |input|
    ensures (m + input)[|m| - |m| % BLOCK..|m| + i] == Waiting(m) + input[..i]
  {
  }

  lemma CompletedBlock<S>(process: (S, seq<Byte>) -> S, start: S, m: seq<Byte>, input: seq<Byte>, i: nat)
    requires i == BLOCK - |m| % BLOCK <= |input|
    ensures (|m| + i) / BLOCK == |m| / BLOCK + 1 && (|m| + i) % BLOCK == 0
    ensures Chained(process, start, m + input, |m| / BLOCK + 1)
         == process(Hashed(process, start, m), Waiting(m) + input[..i])
  {
    BlockEnds(|m|);
    BlockAround(m, input, i);
    ChainedPrefix(process, start, m, m + input, |m| / BLOCK);
  }

  lemma StillWaiting<S>(process: (S, seq<Byte>) -> S, start: S, m: seq<Byte>, more: seq<Byte>)
    requires |m| % BLOCK + |more| < BLOCK
    ensures Hashed(process, start, m + more) == Hashed(process, start, m)
    ensures Waiting(m + more) == Waiting(m) + more
    ensures |m + more| % BLOCK == |m| % BLOCK + |more|
  {
    var k := |m| / BLOCK;
    assert |m| == BLOCK * k + |m| % BLOCK;
    assert |m + more| / BLOCK == k;
    ChainedPrefix(process, start, m, m + more, k);
  }

  lemma AllWaiting<S>(process: (S, seq<Byte>) -> S, start: S, m: seq<Byte>, input: seq<Byte>, i: nat)
    requires i <= |input| && (|m| + i) % BLOCK + |input| - i < BLOCK
    ensures Hashed(process, start, m + input) == Hashed(process, start, m + input[..i])
    ensures Waiting(m + input) == Waiting(m + input[..i]) + input[i..]
    ensures |m + input| % BLOCK == (|m| + i) % BLOCK + |input| - i
  {
    StillWaiting(process, start, m + input[..i], input[i..]);
    WholeInput(m, input, i);
  }

  // ------------------------------------------------------------------- MD5

  /** `md5_context`: the length in bytes, low word and high word. */
  class Md5<S> {
    const context: Context<S>
    var total0: nat
    var total1: nat

    ghost function Fed(): seq<Byte>
      reads context
    {
      context.fed
    }

    ghost predicate Valid()
      reads this, context, context.buffer
    {
      context.Valid() && total0 < WORD32 && total0 + WORD32 * total1 == |Fed()|
    }

    constructor (process: (S, seq<Byte>) -> S, start: S)
      ensures Valid() && Fed() == [] && fresh(context) && fresh(context.buffer)
      ensures context.process == process && context.start == start
    {
      context := new Context(process, start);
      total0, total1 := 0, 0;
    }

    /** `md5_update`: whatever the pieces, the context is that of the message fed so far. */
    method Update(input: seq<Byte>)
      requires Valid() && |input| < WORD32
      modifies this, context, context.buffer
      ensures Valid() && Fed() == old(Fed()) + input
    {
      if input == [] {
        return;
      }
      var left := total0 % BLOCK;
      LowBits(total0, total1, |Fed()|);
      Count(|input|);
      if left > 0 && |input| >= BLOCK - left {
        var i := context.TopUp(input, left);
        context.Rest(input, i);
      } else if left == 0 {
        NothingFed(context.process, context.start, context.fed, input);
        context.Rest(input, 0);
      } else {
        context.KeepAll(input, left);
      }
    }

    method Count(length: nat)
      requires total0 < WORD32 && length < WORD32
      modifies this`total0, this`total1
      ensures total0 < WORD32 && total0 + WORD32 * total1 == old(total0 + WORD32 * total1) + length
    {
      total0 := (total0 + length) % WORD32;
      if total0 < length {
        total1 := total1 + 1;
      }
    }

    /** `md5_finish`: the digest is that of the padded message. */
    method Finish() returns (digest: S)
      requires Valid()
      modifies this, context, context.buffer
      ensures digest == Hashed(context.process, context.start, Md5Padded(old(Fed())))
    {
      var length := LengthBytes();
      var last := total0 % BLOCK;
      LowBits(total0, total1, |Fed()|);
      Pad(length, if last < 56 then 56 - last else 120 - last);
      digest := context.state;
    }

    method LengthBytes() returns (length: seq<Byte>)
      requires Valid()
      ensures length == LittleEndian(8 * |Fed()|, 8)
    {
      var high := Or(total0 / 0x2000_0000, total1 * 8);
      var low := total0 * 8;
      LengthWords(total0, total1);
      length := LittleEndian(low, 4) + LittleEndian(high, 4);
    }

    method Pad(length: seq<Byte>, padding: nat)
      requires Valid() && |length| == 8
      requires padding == if |Fed()| % BLOCK < 56 then 56 - |Fed()| % BLOCK else 120 - |Fed()| % BLOCK
      modifies this, context, context.buffer
      ensures Valid() && Fed() == Padded(old(Fed()), length)
    {
      hide Padded;
      PaddingSize(Fed(), padding);
      PaddedParts(Fed(), length);
      Update([0x80] + Zeros(padding - 1));
      Update(length);
    }
  }

  lemma LowBits(total0: nat, total1: nat, n: nat)
    requires total0 + WORD32 * total1 == n
    ensures total0 % BLOCK == n % BLOCK
  {
    assert n == total0 + BLOCK * (0x400_0000 * total1);
  }

  lemma PaddingSize(m: seq<Byte>, padding: nat)
    requires padding == if |m| % BLOCK < 56 then 56 - |m| % BLOCK else 120 - |m| % BLOCK
    ensures padding == 1 + (55 - |m|) % 64
  {
  }

  lemma PaddedParts(m: seq<Byte>, length: seq<Byte>)
    requires |length| == 8
    ensures Padded(m, length) == (m + ([0x80] + Zeros((55 - |m|) % 64))) + length
  {
    Joined(m, [0x80], Zeros((55 - |m|) % 64));
  }

  lemma NothingFed<S>(process: (S, seq<Byte>) -> S, start: S, m: seq<Byte>, input: seq<Byte>)
    requires |m| % BLOCK == 0
    ensures Chained(process, start, m + input, |m| / BLOCK) == Hashed(process, start, m)
  {
    ChainedPrefix(process, start, m, m + input, |m| / BLOCK);
  }

  /** `n` without its `j` low bytes. */
  function Dropped(n: nat, j: nat): nat {
    if j == 0 then n else Dropped(n / 256, j - 1)
  }

  lemma {:induction false} LittleJoins(n: nat, j: nat, k: nat)
    ensures LittleEndian(n, j + k) == LittleEndian(n, j) + LittleEndian(Dropped(n, j), k)
  {
    if j > 0 {
      LittleJoins(n / 256, j - 1, k);
      Joined([n % 256], LittleEndian(n / 256, j - 1), LittleEndian(Dropped(n, j), k));
    }
  }

  lemma Joined(x: seq<Byte>, y: seq<Byte>, z: seq<Byte>)
    ensures x + (y + z) == (x + y) + z
  {
  }

  lemma DroppedWord(n: nat)
    ensures Dropped(n, 4) == n / WORD32
  {
    assert Dropped(n, 4) == Dropped(n / 256, 3) == Dropped(n / 256 / 256, 2) == Dropped(n / 256 / 256 / 256, 1);
    assert Dropped(n / 256 / 256 / 256, 1) == Dropped(n / 256 / 256 / 256 / 256, 0);
  }

  function Raised(x: nat, k: nat): nat {
    if k == 0 then x else 256 * Raised(x, k - 1)
  }

  /** Low bytes do not see what is above them. */
  lemma {:induction false} LowBytes(a: nat, x: nat, k: nat)
    ensures LittleEndian(a + Raised(x, k), k) == LittleEndian(a, k)
  {
    if k > 0 {
      LowByte(a, Raised(x, k - 1), k);
      LowBytes(a / 256, x, k - 1);
    }
  }

  lemma LowByte(a: nat, y: nat, k: nat)
    requires k > 0
    ensures LittleEndian(a + 256 * y, k) == [a % 256] + LittleEndian(a / 256 + y, k - 1)
  {
    assert (a + 256 * y) % 256 == a % 256 && (a + 256 * y) / 256 == a / 256 + y;
  }

  lemma LowWord(a: nat, x: nat)
    ensures LittleEndian(a + WORD32 * x, 4) == LittleEndian(a, 4)
  {
    assert Raised(x, 4) == 256 * Raised(x, 3) == 0x1_0000 * Raised(x, 2) == 0x100_0000 * Raised(x, 1) == WORD32 * x;
    LowBytes(a, x, 4);
  }

  /** The two words of the length in bits are the eight bytes of it. */
  lemma LengthWords(total0: nat, total1: nat)
    requires total0 < WORD32
    ensures LittleEndian(total0 * 8, 4) + LittleEndian(Or(total0 / 0x2000_0000, total1 * 8), 4)
         == LittleEndian(8 * (total0 + WORD32 * total1), 8)
  {
    hide LittleEndian;
    var n := total0 * 8 + WORD32 * (8 * total1);
    HighWord(total0, total1);
    LittleJoins(n, 4, 4);
    DroppedWord(n);
    LowWord(total0 * 8, 8 * total1);
  }

  lemma HighWord(total0: nat, total1: nat)
    requires total0 < WORD32
    ensures Or(total0 / 0x2000_0000, total1 * 8) == (total0 * 8 + WORD32 * (8 * total1)) / WORD32
  {
    assert Pow2(3) == 8;
    OrJoins(total0 / 0x2000_0000, total1, 3);
  }

  // ------------------------------------------------------------------- SHA-1

  /** One more than the largest `unsigned long`, which is 64 bits wide where `wide`. */
  function Longs(wide: bool): (w: nat)
    ensures w >= WORD32
  {
    if wide then WORD64 else WORD32
  }

  /** The low word of a length in bits. */
  function LowPart(length: nat): (low: nat)
    ensures low < WORD32 && 8 * length == low + WORD32 * (length / 0x2000_0000)
  {
    8 * length % WORD32
  }

  /** The eight bytes of the two counts: of each word the low four. */
  function Counted(lows: nat, highs: nat, wide: bool): (length: seq<Byte>)
    ensures |length| == 8
  {
    BigEndian(lows % Longs(wide) % WORD32 + WORD32 * (lows / Longs(wide) + highs), 8)
  }

  /** `SHA1_CTX`. A piece of `n` bytes adds the low 32 bits of `8 * n` to `count0`, which carries into
      `count1`, and the bits above to `count1`; `lows` and `highs` are what has been added. Only the low four
      bytes of `count1` are ever read, so that it wraps around makes no difference. */
  class Sha1<S> {
    const context: Context<S>
    const wide: bool
    var count0: nat
    var count1: nat
    ghost var lows: nat
    ghost var highs: nat

    ghost function Fed(): seq<Byte>
      reads context
    {
      context.fed
    }

    ghost predicate Valid()
      reads this, context, context.buffer
    {
      && context.Valid() && lows + WORD32 * highs == 8 * |Fed()|
      && count0 == lows % Longs(wide) && count1 == lows / Longs(wide) + highs
    }

    constructor (process: (S, seq<Byte>) -> S, start: S, wide: bool)
      ensures Valid() && Fed() == [] && lows == 0 && fresh(context) && fresh(context.buffer)
      ensures context.process == process && context.start == start && this.wide == wide
    {
      context := new Context(process, start);
      this.wide := wide;
      count0, count1, lows, highs := 0, 0, 0, 0;
    }

    method Count(length: nat)
      requires length < WORD32 && count0 == lows % Longs(wide) && count1 == lows / Longs(wide) + highs
      modifies this`count0, this`count1, this`lows, this`highs
      ensures count0 == lows % Longs(wide) && count1 == lows / Longs(wide) + highs
      ensures lows == old(lows) + LowPart(length)
      ensures lows + WORD32 * highs == old(lows) + WORD32 * old(highs) + 8 * length
    {
      hide Longs, LowPart;
      var low := LowPart(length);
      Carries(lows, low, wide);
      count0 := (count0 + low) % Longs(wide);
      if count0 < low {
        count1 := count1 + 1;
      }
      count1 := count1 + length / 0x2000_0000;
      lows, highs := lows + low, highs + length / 0x2000_0000;
    }

    /** `sha1_update`: whatever the pieces, the context is that of the message fed so far. */
    method Update(data: seq<Byte>)
      requires Valid() && |data| < WORD32 - 63
      modifies this, context, context.buffer
      ensures Valid() && Fed() == old(Fed()) + data
      ensures lows == old(lows) + LowPart(|data|)
    {
      hide Longs, LowPart;
      CountsBytes();
      var j := count0 / 8 % BLOCK;
      Count(|data|);
      if j + |data| > 63 {
        var i := context.TopUp(data, j);
        context.Rest(data, i);
      } else {
        context.KeepAll(data, j);
      }
    }

    lemma CountsBytes()
      requires Valid()
      ensures count0 / 8 % BLOCK == |Fed()| % BLOCK
    {
      BitsToBytes(lows, highs, wide, |Fed()|);
    }

    method CountBytes() returns (length: seq<Byte>)
      requires Valid()
      ensures length == Counted(lows, highs, wide)
    {
      CountWords(count0, count1);
      length := BigEndian(count1, 4) + BigEndian(count0, 4);
    }

    /** One bit, and zeros until the length fits. */
    method Pad()
      requires Valid()
      modifies this, context, context.buffer
      ensures Valid() && Fed() == old(Fed()) + ([0x80] + Zeros((55 - |old(Fed())|) % 64))
    {
      hide Valid;
      ghost var m := Fed();
      ghost var z := 0;
      Update([0x80]);
      assert Fed() == m + ([0x80] + Zeros(z));
      CountsBytes();
      while count0 / 8 % 64 != 56
        invariant Valid() && z <= (55 - |m|) % 64 && Fed() == m + ([0x80] + Zeros(z))
        invariant count0 / 8 % 64 == |Fed()| % 64
        decreases (55 - |m|) % 64 - z
      {
        OneMoreZero(m, z);
        Update([0]);
        z := z + 1;
        CountsBytes();
      }
      LastZero(m, z);
    }

    /** `sha1_final`: the digest is that of the padded message; the context is of no use afterwards. */
    method Final() returns (digest: S)
      requires Valid()
      modifies this, context, context.buffer
      ensures digest ==
              Hashed(context.process, context.start, Padded(old(Fed()), Counted(old(lows), old(highs), wide)))
    {
      hide Longs, LowPart;
      var finalcount := CountBytes();
      PaddedParts(Fed(), finalcount);
      Pad();
      Update(finalcount);
      digest := context.state;
      context.Discard();
    }
  }

  lemma Carries32(lows: nat, low: nat)
    requires low < WORD32
    ensures (lows % WORD32 + low) % WORD32 == (lows + low) % WORD32
    ensures (lows + low) / WORD32 == lows / WORD32 + if (lows % WORD32 + low) % WORD32 < low then 1 else 0
  {
    assert lows == lows / WORD32 * WORD32 + lows % WORD32;
  }

  lemma Carries64(lows: nat, low: nat)
    requires low < WORD32
    ensures (lows % WORD64 + low) % WORD64 == (lows + low) % WORD64
    ensures (lows + low) / WORD64 == lows / WORD64 + if (lows % WORD64 + low) % WORD64 < low then 1 else 0
  {
    assert lows == lows / WORD64 * WORD64 + lows % WORD64;
  }

  /** The comparison finds the carry, whatever the width. */
  lemma Carries(lows: nat, low: nat, wide: bool)
    requires low < WORD32
    ensures var w := Longs(wide);
      && (lows % w + low) % w == (lows + low) % w
      && (lows + low) / w == lows / w + if (lows % w + low) % w < low then 1 else 0
  {
    if wide {
      Carries64(lows, low);
    } else {
      Carries32(lows, low);
    }
  }

  /** What is written into the padding is the length in bits if and only if no low part was lost: always with
      32-bit words; with 64-bit words, which do not carry there, as long as the low parts add up to less
      than 32 bits. */
  lemma CountedIff(lows: nat, highs: nat, wide: bool)
    requires lows + WORD32 * highs < WORD64
    ensures Counted(lows, highs, wide) == BigEndian(lows + WORD32 * highs, 8) <==> !wide || lows < WORD32
  {
    hide LittleEndian, BigEndian;
    var n, n' := lows % Longs(wide) % WORD32 + WORD32 * (lows / Longs(wide) + highs), lows + WORD32 * highs;
    if wide {
      assert lows / WORD64 == 0 && lows % WORD64 == lows;
      assert n' - n == WORD32 * (lows / WORD32);
    } else {
      assert n == n';
    }
    if Counted(lows, highs, wide) == BigEndian(n', 8) {
      SameReversed(n, n', 8);
      LengthFits(n);
      LengthFits(n');
      LittleEndianInjective(n, n', 8);
    }
  }

  lemma BitsToBytes(lows: nat, highs: nat, wide: bool, n: nat)
    requires lows + WORD32 * highs == 8 * n
    ensures lows % Longs(wide) / 8 % BLOCK == n % BLOCK
  {
    var count0, q := lows % Longs(wide), lows / Longs(wide);
    if wide {
      assert n == count0 / 8 + BLOCK * (0x80_0000 * (WORD32 * q + highs));
    } else {
      assert n == count0 / 8 + BLOCK * (0x80_0000 * (q + highs));
    }
  }

  lemma OneMoreZero(m: seq<Byte>, z: nat)
    requires z <= (55 - |m|) % 64 && (|m| + 1 + z) % 64 != 56
    ensures z + 1 <= (55 - |m|) % 64
    ensures (m + ([0x80] + Zeros(z))) + [0] == m + ([0x80] + Zeros(z + 1))
  {
    assert z != (55 - |m|) % 64;
    assert Zeros(z) + [0] == Zeros(z + 1);
  }

  lemma LastZero(m: seq<Byte>, z: nat)
    requires z <= (55 - |m|) % 64 && (|m| + 1 + z) % 64 == 56
    ensures z == (55 - |m|) % 64
  {
  }

  lemma {:induction false} BigJoins(n: nat, j: nat, k: nat)
    ensures BigEndian(n, j + k) == BigEndian(Dropped(n, k), j) + BigEndian(n, k)
  {
    if k > 0 {
      BigJoins(n / 256, j, k - 1);
      Joined(BigEndian(Dropped(n, k), j), BigEndian(n / 256, k - 1), [n % 256]);
    }
  }

  lemma SameForward(n: nat, n': nat, k: nat)
    requires LittleEndian(n, k) == LittleEndian(n', k)
    ensures BigEndian(n, k) == BigEndian(n', k)
  {
    forall i | 0 <= i < k
      ensures BigEndian(n, k)[i] == BigEndian(n', k)[i]
    {
      BigIsReversed(n, k, k - 1 - i);
      BigIsReversed(n', k, k - 1 - i);
    }
  }

  /** The low bytes of the two counts, high byte first. */
  lemma CountWords(count0: nat, count1: nat)
    ensures BigEndian(count1, 4) + BigEndian(count0, 4) == BigEndian(count0 % WORD32 + WORD32 * count1, 8)
  {
    hide LittleEndian, BigEndian;
    var low := count0 % WORD32;
    var n := low + WORD32 * count1;
    BigJoins(n, 4, 4);
    DroppedWord(n);
    LowWord(low, count1);
    LowWord(low, count0 / WORD32);
    SameForward(n, low, 4);
    SameForward(count0, low, 4);
  }
}
