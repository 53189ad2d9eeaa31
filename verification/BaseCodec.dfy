/** Encoding bytes in an alphabet of 2^n letters: a regrouping of bits through a 32-bit buffer. */
module BaseCodec {
  import opened Bits
  import opened MachineInt
  import opened ObjTable

  // ------------------------------------------------------------------- bits of a row of digits

  /** Bit `i` of a row of `m`-bit digits, the highest bit of each digit first. */
  function BitAt(d: seq<nat>, m: nat, i: nat): (b: nat)
    requires m > 0 && i / m < |d|
    ensures b <= 1
  {
    Shifted(d[i / m], m - 1 - i % m) % 2
  }

  /** The `n` bits from bit `lo` on, as a number. */
  function Chunk(d: seq<nat>, m: nat, lo: nat, n: nat): nat
    requires m > 0 && lo + n <= |d| * m
    decreases n
  {
    if n == 0 then 0
    else
      BitInside(|d|, m, lo + n - 1);
      2 * Chunk(d, m, lo, n - 1) + BitAt(d, m, lo + n - 1)
  }

  lemma BitInside(len: nat, m: nat, i: nat)
    requires m > 0 && i < len * m
    ensures 0 <= i / m < len
  {
    DivNat(i, m);
    var q := i / m;
    assert i == q * m + i % m;
    assert q * m == (q - len) * m + len * m;
    if q >= len {
      AtLeastOnce(q - len + 1, m);
    }
  }

  lemma {:induction false} ChunkBound(d: seq<nat>, m: nat, lo: nat, n: nat)
    requires m > 0 && lo + n <= |d| * m
    ensures Chunk(d, m, lo, n) < Pow2(n)
    decreases n
  {
    if n > 0 {
      ChunkBound(d, m, lo, n - 1);
      BitInside(|d|, m, lo + n - 1);
    }
  }

  lemma {:induction false} ChunkSplit(d: seq<nat>, m: nat, lo: nat, x: nat, y: nat)
    requires m > 0 && lo + x + y <= |d| * m
    ensures Chunk(d, m, lo, x + y) == Chunk(d, m, lo, x) * Pow2(y) + Chunk(d, m, lo + x, y)
    decreases y
  {
    if y > 0 {
      ChunkSplit(d, m, lo, x, y - 1);
      BitInside(|d|, m, lo + x + y - 1);
      Halves(Chunk(d, m, lo, x), y - 1);
    }
  }

  lemma DivModIs(x: nat, p: nat, d: nat, e: nat)
    requires p > 0 && e < p && x == d * p + e
    ensures x / p == d && x % p == e
  {
    DivIs(x, p, d, e);
  }

  /** A whole digit, bit by bit. */
  lemma {:induction false} ChunkDigit(d: seq<nat>, m: nat, k: nat, j: nat)
    requires m > 0 && k < |d| && j <= m && d[k] < Pow2(m) && k * m + j <= |d| * m
    ensures Chunk(d, m, k * m, j) == Shifted(d[k], m - j)
    decreases j
  {
    if j == 0 {
      DivIs(d[k], Pow2(m), 0, d[k]);
    } else {
      ChunkDigit(d, m, k, j - 1);
      DivModIs(k * m + j - 1, m, k, j - 1);
      DivTwice(d[k], m - j);
      HalfShift(d[k], m - j);
    }
  }

  lemma HalfShift(x: nat, s: nat)
    ensures Shifted(x, s) == 2 * Shifted(x, s + 1) + Shifted(x, s) % 2
  {
    var q, p := Shifted(x, s), Pow2(s);
    var r := x % p;
    assert x == q * p + r;
    var h, b := q / 2, q % 2;
    assert (2 * h + b) * p == h * (2 * p) + b * p;
    assert b * p + r < 2 * p;
    DivIs(x, 2 * p, h, b * p + r);
  }

  lemma DigitWhole(d: seq<nat>, m: nat, k: nat)
    requires m > 0 && k < |d| && d[k] < Pow2(m)
    ensures k * m + m <= |d| * m && Chunk(d, m, k * m, m) == d[k]
  {
    RowFits(k, |d|, m);
    ChunkDigit(d, m, k, m);
    assert Pow2(0) == 1;
  }

  lemma RowFits(k: nat, n: nat, m: nat)
    requires k < n
    ensures k * m + m <= n * m
  {
    assert n * m == k * m + m + (n - k - 1) * m;
    assert (n - k - 1) * m >= 0;
  }

  // ------------------------------------------------------------------- regrouping

  /** The same bits in digits of `n` bits. */
  function Regrouped(d: seq<nat>, m: nat, n: nat, size: nat): (r: seq<nat>)
    requires m > 0 && size * n <= |d| * m
    ensures |r| == size
    decreases size
  {
    if size == 0 then []
    else
      RowFits(size - 1, size, n);
      Regrouped(d, m, n, size - 1) + [Chunk(d, m, (size - 1) * n, n)]
  }

  lemma {:induction false} RegroupedAt(d: seq<nat>, m: nat, n: nat, size: nat, k: nat)
    requires m > 0 && size * n <= |d| * m && k < size
    ensures k * n + n <= |d| * m && Regrouped(d, m, n, size)[k] == Chunk(d, m, k * n, n)
    ensures Regrouped(d, m, n, size)[k] < Pow2(n)
    decreases size
  {
    RowFits(size - 1, size, n);
    if k < size - 1 {
      RegroupedAt(d, m, n, size - 1, k);
    } else {
      ChunkBound(d, m, k * n, n);
    }
  }

  /** Without its last `k` bits. */
  lemma ChunkShifted(d: seq<nat>, m: nat, lo: nat, n: nat, k: nat)
    requires m > 0 && lo + n + k <= |d| * m
    ensures Shifted(Chunk(d, m, lo, n + k), k) == Chunk(d, m, lo, n)
  {
    ChunkSplit(d, m, lo, n, k);
    ChunkBound(d, m, lo + n, k);
    DivIs(Chunk(d, m, lo, n + k), Pow2(k), Chunk(d, m, lo, n), Chunk(d, m, lo + n, k));
  }

  lemma ChunkLast(d: seq<nat>, m: nat, lo: nat, n: nat)
    requires m > 0 && lo + n + 1 <= |d| * m
    ensures (lo + n) / m < |d| && 0 <= (lo + n) / m
    ensures Chunk(d, m, lo, n + 1) % 2 == BitAt(d, m, lo + n)
  {
    hide BitAt;
    BitInside(|d|, m, lo + n);
    assert Chunk(d, m, lo, n + 1) == 2 * Chunk(d, m, lo, n) + BitAt(d, m, lo + n);
  }

  lemma ChunkBit(d: seq<nat>, m: nat, lo: nat, n: nat, j: nat)
    requires m > 0 && lo + n <= |d| * m && j < n
    ensures (lo + j) / m < |d| && 0 <= (lo + j) / m
    ensures Shifted(Chunk(d, m, lo, n), n - 1 - j) % 2 == BitAt(d, m, lo + j)
  {
    hide Shifted, Pow2, BitAt, Chunk;
    ChunkLast(d, m, lo, j);
    ChunkShifted(d, m, lo, j + 1, n - 1 - j);
  }

  /** Regrouping does not change any bit. */
  lemma RegroupedBit(d: seq<nat>, m: nat, n: nat, size: nat, i: nat)
    requires m > 0 && n > 0 && size * n <= |d| * m && i < size * n
    ensures 0 <= i / n < size && 0 <= i / m < |d|
    ensures BitAt(Regrouped(d, m, n, size), n, i) == BitAt(d, m, i)
  {
    BitInside(size, n, i);
    BitInside(|d|, m, i);
    var k, j := i / n, i % n;
    DivisionOf(i, n);
    RegroupedAt(d, m, n, size, k);
    ChunkBit(d, m, k * n, n, j);
  }

  lemma DivisionOf(i: nat, n: nat)
    requires n > 0
    ensures i == i / n * n + i % n
  {
  }

  lemma {:induction false} RegroupedChunk(d: seq<nat>, m: nat, n: nat, size: nat, lo: nat, c: nat)
    requires m > 0 && n > 0 && size * n <= |d| * m && lo + c <= size * n
    ensures Chunk(Regrouped(d, m, n, size), n, lo, c) == Chunk(d, m, lo, c)
    decreases c
  {
    if c > 0 {
      RegroupedChunk(d, m, n, size, lo, c - 1);
      RegroupedBit(d, m, n, size, lo + c - 1);
    }
  }

  /** Regrouping there and back is the identity on the digits that survive. */
  lemma RegroupedTwice(d: seq<nat>, m: nat, n: nat, size: nat, back: nat, k: nat)
    requires m > 0 && n > 0 && size * n <= |d| * m && back * m <= size * n && k < back
    requires forall x <- d :: x < Pow2(m)
    ensures k < |d| && Regrouped(Regrouped(d, m, n, size), n, m, back)[k] == d[k]
  {
    hide Chunk, Regrouped, Pow2;
    Fewer(back, |d|, m);
    RowFits(k, back, m);
    RegroupedAt(Regrouped(d, m, n, size), n, m, back, k);
    RegroupedChunk(d, m, n, size, k * m, m);
    assert d[k] in d;
    DigitWhole(d, m, k);
  }

  lemma Fewer(x: nat, y: nat, m: nat)
    requires m > 0 && x * m <= y * m
    ensures x <= y
  {
    if x > y {
      AtLeastOnce(x - y, m);
    }
  }

  // ------------------------------------------------------------------- the 32-bit buffer

  const WORD: nat := 32

  class BitBuffer {
    var buf: nat
    var curbits: nat

    constructor ()
      ensures buf == 0 && curbits == 0
    {
      buf, curbits := 0, 0;
    }

    /** The bits that have not been taken out yet. What lies above them in the buffer is of no account. */
    ghost function Pending(): nat
      reads this
    {
      buf % Pow2(curbits)
    }

    /** Shift left by `m`, the overflow lost, and put `x` in the place made free. */
    method Push(x: nat, m: nat)
      requires x < Pow2(m) && curbits + m <= WORD
      modifies this
      ensures curbits == old(curbits) + m && Pending() == old(Pending()) * Pow2(m) + x
    {
      PushWraps(buf, curbits, x, m);
      buf := (buf * Pow2(m) + x) % Pow2(WORD);
      curbits := curbits + m;
    }

    /** Take the `n` bits that have waited longest. */
    method Pull(n: nat, ghost high: nat, ghost low: nat) returns (x: nat)
      requires n <= curbits && high < Pow2(n) && low < Pow2(curbits - n)
      requires Pending() == high * Pow2(curbits - n) + low
      modifies this`curbits
      ensures x == high && curbits == old(curbits) - n && Pending() == low
    {
      PullTakes(buf, curbits, n, high, low);
      curbits := curbits - n;
      x := Shifted(buf, curbits) % Pow2(n);
    }
  }

  lemma ModMod(y: nat, p: nat, q: nat)
    requires p > 0 && q > 0
    ensures p * q > 0 && (y % (p * q)) % p == y % p
  {
    AtLeastOnce(q, p);
    var d, e := y / (p * q), y % (p * q);
    var f, g := e / p, e % p;
    assert y == d * (p * q) + e && e == f * p + g;
    assert y == (d * q + f) * p + g;
    DivNat(y, p * q);
    DivNat(e, p);
    assert d * q >= 0;
    DivModIs(y, p, d * q + f, g);
  }

  lemma ModScale(b: nat, p: nat, q: nat, x: nat)
    requires p > 0 && q > 0 && x < q
    ensures p * q > 0 && (b * q + x) % (p * q) == (b % p) * q + x
  {
    AtLeastOnce(p, q);
    DivNat(b, p);
    var d, e := b / p, b % p;
    assert b == d * p + e;
    assert b * q + x == d * (p * q) + (e * q + x);
    assert (p - 1 - e) * q >= 0;
    assert e * q + x < p * q;
    DivModIs(b * q + x, p * q, d, e * q + x);
  }

  lemma PushWraps(buf: nat, cur: nat, x: nat, m: nat)
    requires x < Pow2(m) && cur + m <= WORD
    ensures ((buf * Pow2(m) + x) % Pow2(WORD)) % Pow2(cur + m) == (buf % Pow2(cur)) * Pow2(m) + x
  {
    PowAdds(cur + m, WORD - (cur + m));
    PowAdds(cur, m);
    PushNumbers(buf, Pow2(cur), Pow2(m), Pow2(WORD - (cur + m)), x);
  }

  lemma PushNumbers(buf: nat, p: nat, q: nat, w: nat, x: nat)
    requires p > 0 && q > 0 && w > 0 && x < q
    ensures p * q > 0 && p * q * w > 0
    ensures ((buf * q + x) % (p * q * w)) % (p * q) == (buf % p) * q + x
  {
    AtLeastOnce(p, q);
    ModMod(buf * q + x, p * q, w);
    ModScale(buf, p, q, x);
  }

  lemma PullTakes(buf: nat, cur: nat, n: nat, high: nat, low: nat)
    requires n <= cur && high < Pow2(n) && low < Pow2(cur - n)
    requires buf % Pow2(cur) == high * Pow2(cur - n) + low
    ensures Shifted(buf, cur - n) % Pow2(n) == high && buf % Pow2(cur - n) == low
  {
    PowAdds(n, cur - n);
    PullNumbers(buf, Pow2(cur - n), Pow2(n), high, low);
  }

  lemma PullNumbers(buf: nat, p: nat, q: nat, high: nat, low: nat)
    requires p > 0 && q > 0 && high < q && low < p
    requires q * p > 0 && buf % (q * p) == high * p + low
    ensures (buf / p) % q == high && buf % p == low
  {
    var d := buf / (q * p);
    DivNat(buf, q * p);
    DivisionOf(buf, q * p);
    Nested(d, q, p, high, low);
    DivModIs(buf, p, d * q + high, low);
    DivModIs(d * q + high, q, d, high);
  }

  lemma Nested(d: nat, q: nat, p: nat, high: nat, low: nat)
    ensures d * (q * p) + (high * p + low) == (d * q + high) * p + low
    ensures d * q + high >= 0
  {
  }

  // ------------------------------------------------------------------- alphabets

  /** The first width of at least one bit that covers `len` letters. */
  method Width(len: nat) returns (n: nat)
    ensures n >= 1 && len <= Pow2(n) && (n > 1 ==> Pow2(n - 1) < len)
  {
    n := 1;
    while len > Pow2(n)
      invariant n >= 1 && (n > 1 ==> Pow2(n - 1) < len)
      decreases len - Pow2(n)
    {
      n := n + 1;
    }
  }

  /** The place of a letter in the alphabet, the last one if there are several, or -1. */
  function Letter(base: seq<Byte>, c: Byte): (k: int)
    ensures -1 <= k < |base| && (k >= 0 ==> base[k] == c)
  {
    if base == [] then -1
    else
      var n := |base| - 1;
      if base[n] == c then n else Letter(base[..n], c)
  }

  lemma {:induction false} LetterOf(base: seq<Byte>, k: nat)
    requires k < |base| && forall i, j :: 0 <= i < j < |base| ==> base[i] != base[j]
    ensures Letter(base, base[k]) == k
  {
    var n := |base| - 1;
    if k < n {
      LetterOf(base[..n], k);
    }
  }

  predicate IsAlphabet(base: seq<Byte>, n: nat) {
    1 <= n <= 8 && |base| == Pow2(n)
  }

  // ------------------------------------------------------------------- encoding

  function EncodedSize(len: nat, n: nat): (size: nat)
    requires 1 <= n <= 8
    ensures 8 * len <= size * n < 8 * len + n
  {
    var size := (8 * len + n - 1) / n;
    DivisionOf(8 * len + n - 1, n);
    DivNat(8 * len + n - 1, n);
    size
  }

  function Letters(base: seq<Byte>, d: seq<nat>): (t: seq<Byte>)
    requires forall k :: 0 <= k < |d| ==> d[k] < |base|
    ensures |t| == |d| && forall k :: 0 <= k < |d| ==> t[k] == base[d[k]]
  {
    if d == [] then [] else Letters(base, d[..|d| - 1]) + [base[d[|d| - 1]]]
  }

  /** The digits of `s` in the alphabet's width; the string's closing NUL fills the last one up. */
  function Digits(s: seq<Byte>, n: nat): (d: seq<nat>)
    requires 1 <= n <= 8
    ensures |d| == EncodedSize(|s|, n) && forall k :: 0 <= k < |d| ==> d[k] < Pow2(n)
  {
    var size := EncodedSize(|s|, n);
    var d := Regrouped(s + [0], 8, n, size);
    DigitsBound(s + [0], 8, n, size);
    d
  }

  lemma DigitsBound(d: seq<nat>, m: nat, n: nat, size: nat)
    requires m > 0 && size * n <= |d| * m
    ensures forall k :: 0 <= k < size ==> Regrouped(d, m, n, size)[k] < Pow2(n)
  {
    var e := Regrouped(d, m, n, size);
    forall k | 0 <= k < |e|
      ensures e[k] < Pow2(n)
    {
      RegroupedAt(d, m, n, size, k);
    }
  }

  function Encoded(s: seq<Byte>, base: seq<Byte>, n: nat): seq<Byte>
    requires IsAlphabet(base, n)
  {
    Letters(base, Digits(s, n))
  }

  /** What the loops of both directions keep: the buffer's pending bits are those of the input from bit
      `lo`, which is what has come out, to bit `hi`, which is what has gone in. */
  ghost predicate Holds(buffer: BitBuffer, d: seq<nat>, m: nat, lo: nat, hi: nat)
    requires m > 0
    reads buffer
  {
    hi == lo + buffer.curbits && hi <= |d| * m && buffer.Pending() == Chunk(d, m, lo, buffer.curbits)
  }

  /** One digit in. */
  method Feed(buffer: BitBuffer, ghost d: seq<nat>, x: nat, m: nat, ghost lo: nat, ghost hi: nat, ghost c: nat)
    requires m > 0 && Holds(buffer, d, m, lo, hi) && hi == c * m
    requires c < |d| && x == d[c] < Pow2(m) && buffer.curbits + m <= WORD
    modifies buffer
    ensures Holds(buffer, d, m, lo, hi + m) && buffer.curbits == old(buffer.curbits) + m
  {
    FeedChunk(d, m, lo, buffer.curbits, c);
    buffer.Push(x, m);
  }

  lemma FeedChunk(d: seq<nat>, m: nat, lo: nat, cur: nat, c: nat)
    requires m > 0 && c < |d| && d[c] < Pow2(m) && lo + cur == c * m
    ensures lo + cur + m <= |d| * m && Chunk(d, m, lo, cur + m) == Chunk(d, m, lo, cur) * Pow2(m) + d[c]
  {
    RowFits(c, |d|, m);
    ChunkSplit(d, m, lo, cur, m);
    DigitWhole(d, m, c);
  }

  /** One digit out. */
  method Draw(buffer: BitBuffer, ghost d: seq<nat>, ghost m: nat, n: nat, ghost lo: nat, ghost hi: nat) returns (x: nat)
    requires m > 0 && Holds(buffer, d, m, lo, hi) && n <= buffer.curbits
    modifies buffer
    ensures Holds(buffer, d, m, lo + n, hi) && buffer.curbits == old(buffer.curbits) - n
    ensures lo + n <= |d| * m && x == Chunk(d, m, lo, n)
  {
    var rest := buffer.curbits - n;
    ChunkSplit(d, m, lo, n, rest);
    ChunkBound(d, m, lo, n);
    ChunkBound(d, m, lo + n, rest);
    x := buffer.Pull(n, Chunk(d, m, lo, n), Chunk(d, m, lo + n, rest));
  }

  /** Rows of digits on both sides: `k` digits are out and `c` are in. */
  ghost predicate InStep(buffer: BitBuffer, d: seq<nat>, m: nat, n: nat, c: nat, k: nat)
    requires m > 0
    reads buffer
  {
    c <= |d| && Holds(buffer, d, m, k * n, c * m)
  }

  lemma NextRow(c: nat, m: nat)
    ensures (c + 1) * m == c * m + m
  {
  }

  lemma InRow(c: nat, n: nat, m: nat)
    requires c <= n
    ensures c * m <= n * m
  {
    assert n * m == c * m + (n - c) * m;
    assert (n - c) * m >= 0;
  }

  lemma RoomForMore(len: nat, m: nat, n: nat, size: nat, c: nat, k: nat, cur: nat)
    requires m > 0 && k < size && cur < n && size * n <= len * m && c * m == k * n + cur
    ensures c < len
  {
    RowFits(k, size, n);
    if c >= len {
      InRow(len, c, m);
    }
  }

  /** The encoding loop. It reads the closing NUL of the string at most, and no further. */
  method EncodeAll(s: seq<Byte>, base: seq<Byte>, n: nat) returns (out: array<Byte>)
    requires IsAlphabet(base, n)
    ensures fresh(out) && out[..] == Encoded(s, base, n)
  {
    hide Letters, Digits;
    var size, c := EncodedSize(|s|, n), 0;
    out := new Byte[size](_ => 0);
    var buffer := new BitBuffer();
    assert Pow2(0) == 1;
    for k := 0 to size
      invariant InStep(buffer, s + [0], 8, n, c, k) && buffer.curbits < 8
      invariant forall j :: 0 <= j < k ==> out[j] == Encoded(s, base, n)[j]
    {
      var letter;
      c, letter := EncodeOne(buffer, s, base, n, size, c, k);
      out[k] := letter;
    }
  }

  method EncodeOne(buffer: BitBuffer, s: seq<Byte>, base: seq<Byte>, n: nat, ghost size: nat, c0: nat, ghost k: nat)
    returns (c: nat, letter: Byte)
    requires IsAlphabet(base, n) && size == EncodedSize(|s|, n) && k < size
    requires buffer.curbits < 8 && InStep(buffer, s + [0], 8, n, c0, k)
    modifies buffer
    ensures InStep(buffer, s + [0], 8, n, c, k + 1) && buffer.curbits < 8
    ensures letter == Encoded(s, base, n)[k]
  {
    hide Chunk, Encoded, Pow2, Regrouped;
    c := FillFrom(buffer, s, n, size, c0, k);
    NextRow(k, n);
    var x := Draw(buffer, s + [0], 8, n, k * n, c * 8);
    DigitOf(s, base, n, size, k, x);
    letter := base[x];
  }

  /** The `n` bits drawn for a letter are its number. */
  lemma DigitOf(s: seq<Byte>, base: seq<Byte>, n: nat, size: nat, k: nat, x: nat)
    requires IsAlphabet(base, n) && size == EncodedSize(|s|, n) && k < size
    requires k * n + n <= |s + [0]| * 8 && x == Chunk(s + [0], 8, k * n, n)
    ensures x < |base| && k < |Encoded(s, base, n)| && base[x] == Encoded(s, base, n)[k]
  {
    RegroupedAt(s + [0], 8, n, size, k);
  }

  method FillFrom(buffer: BitBuffer, s: seq<Byte>, n: nat, ghost size: nat, c0: nat, ghost k: nat) returns (c: nat)
    requires 1 <= n <= 8 && size == EncodedSize(|s|, n) && k < size
    requires buffer.curbits < 8 && InStep(buffer, s + [0], 8, n, c0, k)
    modifies buffer
    ensures InStep(buffer, s + [0], 8, n, c, k) && n <= buffer.curbits < n + 8
  {
    ghost var d: seq<nat> := s + [0];
    c := c0;
    assert Pow2(8) == 256 by { assert Pow2(4) == 16; PowAdds(4, 4); }
    while buffer.curbits < n
      invariant InStep(buffer, d, 8, n, c, k) && buffer.curbits < n + 8
      decreases n - buffer.curbits
    {
      RoomForMore(|d|, 8, n, size, c, k, buffer.curbits);
      NextRow(c, 8);
      Feed(buffer, d, if c < |s| then s[c] else 0, 8, k * n, c * 8, c);
      c := c + 1;
    }
  }

  lemma {:induction false} PowGrows(x: nat, y: nat)
    requires x < y
    ensures Pow2(x) < Pow2(y)
  {
    if x + 1 < y {
      PowGrows(x, y - 1);
    }
  }

  /** The width that the code finds is the only one the alphabet can have. */
  lemma WidthUnique(len: nat, n: nat, found: nat)
    requires n >= 1 && len == Pow2(n) && found >= 1 && len <= Pow2(found) && (found > 1 ==> Pow2(found - 1) < len)
    ensures found == n
  {
    if found < n {
      PowGrows(found, n);
    } else if n < found - 1 {
      PowGrows(n, found - 1);
    }
  }

  // `max_string_size`.
  const MAX_STRING_SIZE: nat := 0x1FFF_FFFF

  /** `base_encode`: it succeeds exactly for alphabets of 2 to 256 letters whose number is a power of two, when
      the encoding is not too long for a string. */
  method Encode(s: seq<Byte>, base: seq<Byte>) returns (r: Option<array<Byte>>)
    ensures r.Some? <==> exists n :: IsAlphabet(base, n) && EncodedSize(|s|, n) <= 0x1FFF_FFFF
    ensures forall n :: IsAlphabet(base, n) && r.Some? ==> r.value[..] == Encoded(s, base, n)
  {
    var nbits := Width(|base|);
    forall n | IsAlphabet(base, n)
      ensures n == nbits
    {
      WidthUnique(|base|, n, nbits);
    }
    if nbits > 8 || |base| != Pow2(nbits) {
      return None;
    }
    assert IsAlphabet(base, nbits);
    if EncodedSize(|s|, nbits) > MAX_STRING_SIZE {
      return None;
    }
    var out := EncodeAll(s, base, nbits);
    return Some(out);
  }

  // ------------------------------------------------------------------- decoding

  /** The digits that letters stand for. */
  function Values(base: seq<Byte>, t: seq<Byte>): (d: seq<nat>)
    ensures |d| == |t| && forall k :: 0 <= k < |t| ==> d[k] == if Letter(base, t[k]) < 0 then 0 else Letter(base, t[k])
  {
    if t == [] then []
    else
      var k := Letter(base, t[|t| - 1]);
      Values(base, t[..|t| - 1]) + [if k < 0 then 0 else k]
  }

  function DecodedSize(len: nat, n: nat): (size: nat)
    requires n > 0
    ensures len * n < size * 8 + 8 && size * 8 <= len * n
  {
    len * n / 8
  }

  /** Decoding gets to letter `j`: a last letter that adds no whole byte is not looked at. */
  predicate Reached(len: nat, n: nat, j: nat)
    requires n > 0
  {
    j * n < DecodedSize(len, n) * 8
  }

  /** All letters that decoding gets to are in the alphabet. */
  ghost predicate Readable(t: seq<Byte>, base: seq<Byte>, n: nat)
    requires n > 0
  {
    forall j {:trigger Reached(|t|, n, j)} :: 0 <= j < |t| && Reached(|t|, n, j) ==> Letter(base, t[j]) >= 0
  }

  /** The first `c` letters are in the alphabet. */
  ghost predicate Known(t: seq<Byte>, base: seq<Byte>, c: nat)
    requires c <= |t|
  {
    forall j :: 0 <= j < c ==> Letter(base, t[j]) >= 0
  }

  ghost predicate Reverse(tbl: array<int>, base: seq<Byte>)
    reads tbl
  {
    tbl.Length == 256 && forall c: Byte :: tbl[c] == Letter(base, c)
  }

  function Decoded(t: seq<Byte>, base: seq<Byte>, n: nat): seq<nat>
    requires n > 0
  {
    Regrouped(Values(base, t), n, 8, DecodedSize(|t|, n))
  }

  /** What comes out of encoding goes back to what went in, byte for byte and with the same length. */
  lemma RoundTrip(s: seq<Byte>, base: seq<Byte>, n: nat)
    requires IsAlphabet(base, n) && forall i, j :: 0 <= i < j < |base| ==> base[i] != base[j]
    ensures Readable(Encoded(s, base, n), base, n)
    ensures Decoded(Encoded(s, base, n), base, n) == s
  {
    var d := Digits(s, n);
    var t := Encoded(s, base, n);
    forall k | 0 <= k < |t|
      ensures Letter(base, t[k]) == d[k]
    {
      LetterOf(base, d[k]);
    }
    assert Values(base, t) == d;
    var size := EncodedSize(|s|, n);
    SizesMeet(|s|, size * n, DecodedSize(size, n));
    var padded: seq<nat> := s + [0];
    assert Pow2(8) == 256 by { assert Pow2(4) == 16; PowAdds(4, 4); }
    forall k | 0 <= k < |s|
      ensures Decoded(t, base, n)[k] == s[k]
    {
      RegroupedTwice(padded, 8, n, size, |s|, k);
    }
  }

  lemma SizesMeet(len: nat, bits: nat, back: nat)
    requires 8 * len <= bits < 8 * len + 8 && bits < back * 8 + 8 && back * 8 <= bits
    ensures back == len
  {
  }

  /** The reverse alphabet, letter after letter: a later one replaces an earlier one. */
  method FillTable(base: seq<Byte>) returns (tbl: array<int>)
    ensures fresh(tbl) && Reverse(tbl, base)
  {
    tbl := new int[256](_ => -1);
    for i := 0 to |base|
      invariant Reverse(tbl, base[..i])
    {
      assert base[..i + 1][..i] == base[..i];
      tbl[base[i]] := i;
    }
    assert base[..|base|] == base;
  }

  /** One letter after the other until a byte can come out; it stops at a letter outside the alphabet. */
  method FillLetters(buffer: BitBuffer, t: seq<Byte>, base: seq<Byte>, tbl: array<int>, n: nat, ghost size: nat,
                     c0: nat, ghost k: nat)
    returns (c: nat, ok: bool)
    requires IsAlphabet(base, n) && Reverse(tbl, base) && c0 <= |t| && Known(t, base, c0)
    requires size == DecodedSize(|t|, n) && k < size && buffer.curbits < n
      && InStep(buffer, Values(base, t), n, 8, c0, k)
    modifies buffer
    ensures ok ==> InStep(buffer, Values(base, t), n, 8, c, k) && 8 <= buffer.curbits < n + 8 && Known(t, base, c)
    ensures !ok ==> !Readable(t, base, n)
  {
    c, ok := c0, true;
    while ok && buffer.curbits < 8
      invariant ok ==> InStep(buffer, Values(base, t), n, 8, c, k) && buffer.curbits < n + 8 && Known(t, base, c)
      invariant !ok ==> !Readable(t, base, n)
      decreases ok, 8 - buffer.curbits
    {
      NextLetter(t, n, size, c, k, buffer.curbits);
      ok := tbl[t[c]] != -1;
      if ok {
        FeedLetter(buffer, t, base, tbl, n, c, k);
        c := c + 1;
      }
    }
  }

  /** There is a next letter, and decoding gets to it. */
  lemma NextLetter(t: seq<Byte>, n: nat, size: nat, c: nat, k: nat, cur: nat)
    requires n > 0 && size == DecodedSize(|t|, n) && k < size && cur < 8 && c * n == k * 8 + cur
    ensures c < |t| && Reached(|t|, n, c)
  {
    RoomForMore(|t|, n, 8, size, c, k, cur);
    RowFits(k, size, 8);
  }

  method FeedLetter(buffer: BitBuffer, t: seq<Byte>, base: seq<Byte>, tbl: array<int>, n: nat, c: nat, ghost k: nat)
    requires IsAlphabet(base, n) && Reverse(tbl, base) && c < |t| && tbl[t[c]] != -1
    requires buffer.curbits < 8 && InStep(buffer, Values(base, t), n, 8, c, k)
    modifies buffer
    ensures InStep(buffer, Values(base, t), n, 8, c + 1, k) && buffer.curbits == old(buffer.curbits) + n
  {
    NextRow(c, n);
    Feed(buffer, Values(base, t), tbl[t[c]], n, k * 8, c * n, c);
  }

  lemma DecodedAt(t: seq<Byte>, base: seq<Byte>, n: nat, k: nat)
    requires n > 0 && k < DecodedSize(|t|, n)
    ensures k * 8 + 8 <= |t| * n && Decoded(t, base, n)[k] == Chunk(Values(base, t), n, k * 8, 8) < 256
  {
    RegroupedAt(Values(base, t), n, 8, DecodedSize(|t|, n), k);
    assert Pow2(8) == 256 by { assert Pow2(4) == 16; PowAdds(4, 4); }
  }

  method DrawByte(buffer: BitBuffer, ghost t: seq<Byte>, ghost base: seq<Byte>, ghost n: nat, ghost c: nat,
                  ghost k: nat) returns (x: Byte)
    requires n > 0 && k < DecodedSize(|t|, n) && InStep(buffer, Values(base, t), n, 8, c, k) && buffer.curbits >= 8
    modifies buffer
    ensures InStep(buffer, Values(base, t), n, 8, c, k + 1) && buffer.curbits == old(buffer.curbits) - 8
    ensures x == Decoded(t, base, n)[k]
  {
    NextRow(k, 8);
    DecodedAt(t, base, n, k);
    var y := Draw(buffer, Values(base, t), n, 8, k * 8, c * n);
    x := y;
  }

  method DecodeOne(buffer: BitBuffer, t: seq<Byte>, base: seq<Byte>, tbl: array<int>, n: nat, ghost size: nat, c0: nat,
                   ghost k: nat)
    returns (c: nat, ok: bool, x: Byte)
    requires IsAlphabet(base, n) && Reverse(tbl, base) && c0 <= |t| && Known(t, base, c0)
    requires size == DecodedSize(|t|, n) && k < size && buffer.curbits < n
      && InStep(buffer, Values(base, t), n, 8, c0, k)
    modifies buffer
    ensures ok ==> InStep(buffer, Values(base, t), n, 8, c, k + 1) && buffer.curbits < n && Known(t, base, c)
    ensures ok ==> x == Decoded(t, base, n)[k]
    ensures !ok ==> !Readable(t, base, n)
  {
    x := 0;
    c, ok := FillLetters(buffer, t, base, tbl, n, size, c0, k);
    if ok {
      x := DrawByte(buffer, t, base, n, c, k);
    }
  }

  method DecodeAll(t: seq<Byte>, base: seq<Byte>, n: nat) returns (r: Option<array<Byte>>)
    requires IsAlphabet(base, n)
    ensures r.Some? <==> Readable(t, base, n)
    ensures r.Some? ==> fresh(r.value) && r.value[..] == Decoded(t, base, n)
  {
    var tbl := FillTable(base);
    var size, c, ok := DecodedSize(|t|, n), 0, true;
    var out := new Byte[size](_ => 0);
    var buffer := new BitBuffer();
    assert Pow2(0) == 1;
    var k := 0;
    while ok && k < size
      modifies out, buffer
      invariant k <= size
      invariant ok ==> InStep(buffer, Values(base, t), n, 8, c, k) && buffer.curbits < n && Known(t, base, c)
      invariant ok ==> out[..k] == Decoded(t, base, n)[..k]
      invariant !ok ==> !Readable(t, base, n)
      decreases ok, size - k
    {
      var x;
      c, ok, x := DecodeOne(buffer, t, base, tbl, n, size, c, k);
      if ok {
        StoreAt(out, k, x, Decoded(t, base, n));
        k := k + 1;
      }
    }
    if !ok {
      return None;
    }
    Finished(buffer, t, base, n, c, size);
    return Some(out);
  }

  method StoreAt(out: array<Byte>, k: nat, x: Byte, ghost whole: seq<nat>)
    requires k < out.Length == |whole| && out[..k] == whole[..k] && x == whole[k]
    modifies out
    ensures out[..k + 1] == whole[..k + 1]
  {
    ghost var before := out[..k];
    out[k] := x;
    assert out[..k] == before;
  }

  lemma Finished(buffer: BitBuffer, t: seq<Byte>, base: seq<Byte>, n: nat, c: nat, size: nat)
    requires n > 0 && size == DecodedSize(|t|, n) && InStep(buffer, Values(base, t), n, 8, c, size)
    requires buffer.curbits < n && Known(t, base, c)
    ensures Readable(t, base, n)
  {
    AllRead(t, base, n, c, buffer.curbits);
  }

  /** When the last byte is out, every letter that counts has been read. */
  lemma AllRead(t: seq<Byte>, base: seq<Byte>, n: nat, c: nat, cur: nat)
    requires n > 0 && c <= |t| && cur < n && c * n == DecodedSize(|t|, n) * 8 + cur
    requires Known(t, base, c)
    ensures Readable(t, base, n)
  {
    forall j | 0 <= j < |t| && Reached(|t|, n, j)
      ensures Letter(base, t[j]) >= 0
    {
      if j >= c {
        InRow(c, j, n);
      }
    }
  }

  /** `base_decode`: it refuses what `base_encode` refuses as an alphabet, and any letter it reads that is
      not in the alphabet. */
  method Decode(t: seq<Byte>, base: seq<Byte>) returns (r: Option<array<Byte>>)
    ensures r.Some? ==> exists n :: IsAlphabet(base, n)
    ensures forall n :: IsAlphabet(base, n) ==> (r.Some? <==> Readable(t, base, n))
    ensures forall n :: IsAlphabet(base, n) && r.Some? ==> r.value[..] == Decoded(t, base, n)
  {
    var nbits := Width(|base|);
    forall n | IsAlphabet(base, n)
      ensures n == nbits
    {
      WidthUnique(|base|, n, nbits);
    }
    if nbits > 8 || |base| != Pow2(nbits) {
      return None;
    }
    assert IsAlphabet(base, nbits);
    r := DecodeAll(t, base, nbits);
  }
}
