/** The code section of a module file, written down from its format: each instruction in one of four
    encodings. The loader's loop reads back exactly what is written so. */
module CodePacking {
  import opened Opcodes
  import opened Loader

  /** An instruction in a file: its opcode, with no parameter, one bit, one byte or a signed 32-bit word. */
  datatype Packed = Alone(op: int) | WithBit(op: int, bit: int) | WithByte(op: int, p: int) | WithWord(op: int, n: int)

  /** Opcodes have six bits, five before a single bit. */
  predicate Fits(i: Packed) {
    match i
    case Alone(op) => 0 <= op < 64
    case WithBit(op, bit) => 0 <= op < 32 && 0 <= bit < 2
    case WithByte(op, p) => 0 <= op < 64 && 0 <= p < 256
    case WithWord(op, n) => 0 <= op < 64 && -0x8000_0000 <= n < 0x8000_0000
  }

  /** The bytes of an instruction; the low two bits of the first are the encoding, words come low byte first. */
  function BytesOf(i: Packed): seq<byte>
    requires Fits(i)
  {
    match i
    case Alone(op) => [4 * op]
    case WithBit(op, bit) => [8 * op + 4 * bit + 1]
    case WithByte(op, p) => [4 * op + 2, p]
    case WithWord(op, n) => [4 * op + 3, n % 256, n / 256 % 256, n / 65536 % 256, n / 16777216 % 256]
  }

  function CellsOf(i: Packed): seq<int> {
    match i
    case Alone(op) => [op]
    case WithBit(op, bit) => [op, bit]
    case WithByte(op, p) => [op, p]
    case WithWord(op, n) => [op, n]
  }

  function FlagsOf(i: Packed): seq<bool> {
    if i.Alone? then [true] else [true, false]
  }

  predicate AllFit(l: seq<Packed>) {
    forall i <- l :: Fits(i)
  }

  function Bytes(l: seq<Packed>): seq<byte>
    requires AllFit(l)
  {
    if l == [] then [] else BytesOf(l[0]) + Bytes(l[1..])
  }

  function Cells(l: seq<Packed>): seq<int> {
    if l == [] then [] else CellsOf(l[0]) + Cells(l[1..])
  }

  function Flags(l: seq<Packed>): (f: seq<bool>)
    ensures |f| == |Cells(l)|
  {
    if l == [] then [] else FlagsOf(l[0]) + Flags(l[1..])
  }

  // ------------------------------------------------------------------- one instruction

  /** A signed word comes back from its four bytes. */
  lemma WordBack(n: int)
    requires -0x8000_0000 <= n < 0x8000_0000
    ensures var b: seq<byte> := [n % 256, n / 256 % 256, n / 65536 % 256, n / 16777216 % 256]; Signed(Long(b)) == n
  {
    var b: seq<byte> := [n % 256, n / 256 % 256, n / 65536 % 256, n / 16777216 % 256];
    assert n / 65536 == n / 256 / 256 && n / 16777216 == n / 256 / 256 / 256;
    assert n == n % 256 + 256 * (n / 256 % 256) + 65536 * (n / 65536 % 256) + 16777216 * (n / 16777216);
  }

  lemma OneBack(before: seq<byte>, i: Packed, rest: seq<byte>)
    requires Fits(i)
    ensures var input, pos := before + BytesOf(i) + rest, |before|;
      && pos + 1 + Extra(input[pos]) == pos + |BytesOf(i)| <= |input|
      && Decoded(input, pos) == CellsOf(i) && StartFlags(CellsOf(i)) == FlagsOf(i)
  {
    var input, pos := before + BytesOf(i) + rest, |before|;
    assert input[pos] == BytesOf(i)[0];
    if i.WithByte? {
      assert input[pos + 1] == BytesOf(i)[1];
    } else if i.WithWord? {
      WordBack(i.n);
      assert input[pos + 1..pos + 5] == BytesOf(i)[1..];
    }
  }

  // ------------------------------------------------------------------- whole sections

  lemma Regrouped<T>(a: seq<T>, b: seq<T>, c: seq<T>, d: seq<T>)
    ensures a + (b + c) + d == (a + b) + c + d
    ensures a + (b + c) + d == a + b + (c + d)
  {
  }

  lemma JoinNone(tail: Unpacked)
    ensures Join([], [], tail) == tail
  {
  }

  /** What is packed is unpacked, whatever comes before and after it, with as many cells left to fill. */
  lemma {:induction false} PackedFrom(before: seq<byte>, l: seq<Packed>, rest: seq<byte>, room: nat)
    requires AllFit(l) && |Cells(l)| <= room
    ensures Unpacking(before + Bytes(l) + rest, |before|, room)
            == Join(Cells(l), Flags(l), Unpacking(before + Bytes(l) + rest, |before| + |Bytes(l)|, room - |Cells(l)|))
    decreases |l|
  {
    hide Decoded, Extra, BytesOf, CellsOf, FlagsOf, StartFlags, Join;
    var input := before + Bytes(l) + rest;
    if l == [] {
      JoinNone(Unpacking(input, |before|, room));
    } else {
      var first, others := BytesOf(l[0]), Bytes(l[1..]);
      Regrouped(before, first, others, rest);
      OneBack(before, l[0], others + rest);
      PackedFrom(before + first, l[1..], rest, room - |CellsOf(l[0])|);
      JoinJoin(CellsOf(l[0]), FlagsOf(l[0]), Cells(l[1..]), Flags(l[1..]),
               Unpacking(input, |before| + |Bytes(l)|, room - |Cells(l)|));
    }
  }

  /** Packed code that fills the cells announced is unpacked into exactly its opcodes and parameters, with a flag
      for each opcode, and the sentinel. */
  lemma PackedBack(l: seq<Packed>, rest: seq<byte>)
    requires AllFit(l)
    ensures Unpacking(Bytes(l) + rest, 0, |Cells(l)|) == Complete(Cells(l) + [LAST], Flags(l) + [true])
  {
    hide BytesOf, CellsOf, Cells, Bytes;
    PackedFrom([], l, rest, |Cells(l)|);
    assert [] + Bytes(l) + rest == Bytes(l) + rest;
  }

  /** Packed code whose last parameter falls on the sentinel cell. */
  lemma PackedOver(l: seq<Packed>, i: Packed, rest: seq<byte>)
    requires AllFit(l) && Fits(i) && !i.Alone?
    ensures Unpacking(Bytes(l) + BytesOf(i) + rest, 0, |Cells(l)| + 1) == Overrun
  {
    hide Decoded, Extra, BytesOf, Cells, Bytes;
    PackedFrom([], l, BytesOf(i) + rest, |Cells(l)| + 1);
    Regrouped([], Bytes(l), BytesOf(i), rest);
    OneBack(Bytes(l), i, rest);
    assert [] + Bytes(l) + (BytesOf(i) + rest) == Bytes(l) + BytesOf(i) + rest;
  }

  // ------------------------------------------------------------------- every input

  /** The instruction at `pos`, packed. */
  lemma OneAgain(input: seq<byte>, pos: nat) returns (i: Packed)
    requires pos < |input| && pos + 1 + Extra(input[pos]) <= |input|
    ensures Fits(i) && input[pos..pos + 1 + Extra(input[pos])] == BytesOf(i) && Decoded(input, pos) == CellsOf(i)
  {
    var t := input[pos] as int;
    if t % 4 == 0 {
      i := Alone(t / 4);
    } else if t % 4 == 1 {
      i := WithBit(t / 8, t / 4 % 2);
    } else if t % 4 == 2 {
      i := WithByte(t / 4, input[pos + 1]);
    } else {
      var b := input[pos + 1..pos + 5];
      i := WithWord(t / 4, Signed(Long(b)));
      BytesAgain(b);
      assert input[pos..pos + 5] == [input[pos]] + b;
    }
  }

  lemma BytesAgain(b: seq<byte>)
    requires |b| == 4
    ensures var n := Signed(Long(b)); b == [n % 256, n / 256 % 256, n / 65536 % 256, n / 16777216 % 256]
  {
    var n := Signed(Long(b));
    var top := if n < 0 then b[3] as int - 256 else b[3] as int;
    Digits(n, b[0], b[1], b[2], top);
    assert top % 256 == b[3] as int;
  }

  lemma Digits(n: int, x: int, y: int, z: int, w: int)
    requires n == x + 256 * y + 65536 * z + 16777216 * w && 0 <= x < 256 && 0 <= y < 256 && 0 <= z < 256
    ensures n % 256 == x && n / 256 % 256 == y && n / 65536 % 256 == z && n / 16777216 == w
  {
    assert n / 256 == y + 256 * z + 65536 * w;
    assert n / 65536 == z + 256 * w;
  }

  /** `input` starts with the instructions `l`. */
  predicate StartsWith(input: seq<byte>, l: seq<Packed>) {
    AllFit(l) && Bytes(l) <= input
  }

  /** So many instructions that their cells fill `room`. */
  predicate Fill(l: seq<Packed>, room: nat) {
    |Cells(l)| == room
  }

  /** So many that the parameter of the last one crosses the end of `room`. */
  predicate Cross(l: seq<Packed>, room: nat) {
    l != [] && |Cells(l[..|l| - 1])| < room < |Cells(l)|
  }

  /** The instructions of an input, as many as fit into `room` cells, the last one perhaps crossing its end. */
  lemma {:induction false} Again(input: seq<byte>, pos: nat, room: nat) returns (l: seq<Packed>)
    requires pos <= |input|
    ensures StartsWith(input[pos..], l)
    ensures Unpacking(input, pos, room).Complete? ==> Fill(l, room)
    ensures Unpacking(input, pos, room).Overrun? ==> Cross(l, room)
    decreases room
  {
    hide Decoded, Extra, BytesOf, CellsOf, FlagsOf;
    l := [];
    if room > 0 && pos < |input| && pos + 1 + Extra(input[pos]) <= |input| {
      var i := OneAgain(input, pos);
      var next := pos + 1 + Extra(input[pos]);
      assert input[pos..][..next - pos] == input[pos..next] && input[pos..][next - pos..] == input[next..];
      if |CellsOf(i)| > room {
        l := [i];
        JustOne(i);
      } else {
        var others := Again(input, next, room - |CellsOf(i)|);
        l := [i] + others;
        OneMore(i, others, room - |CellsOf(i)|);
        StartsWithMore(input[pos..], i, others);
      }
    }
  }

  lemma StartsWithMore(input: seq<byte>, i: Packed, l: seq<Packed>)
    requires Fits(i) && BytesOf(i) <= input && StartsWith(input[|BytesOf(i)|..], l)
    ensures StartsWith(input, [i] + l)
  {
    hide BytesOf, Fits;
    assert ([i] + l)[1..] == l;
    assert input == BytesOf(i) + input[|BytesOf(i)|..];
  }

  lemma OneMore(i: Packed, l: seq<Packed>, room: nat)
    ensures Fill(l, room) ==> Fill([i] + l, room + |CellsOf(i)|)
    ensures Cross(l, room) ==> Cross([i] + l, room + |CellsOf(i)|)
  {
    hide CellsOf;
    assert ([i] + l)[1..] == l;
    if l != [] {
      assert ([i] + l)[..|l|] == [i] + l[..|l| - 1] && ([i] + l[..|l| - 1])[1..] == l[..|l| - 1];
    }
  }

  lemma JustOne(i: Packed)
    requires Fits(i)
    ensures Cells([i]) == CellsOf(i) && Bytes([i]) == BytesOf(i) && Cells([i][..0]) == []
  {
    assert CellsOf(i) + [] == CellsOf(i) && BytesOf(i) + [] == BytesOf(i);
  }

  lemma {:induction false} BytesSnoc(l: seq<Packed>, i: Packed)
    requires AllFit(l) && Fits(i)
    ensures Bytes(l + [i]) == Bytes(l) + BytesOf(i) && Cells(l + [i]) == Cells(l) + CellsOf(i)
  {
    hide BytesOf, CellsOf, Fits;
    if l == [] {
      assert [] + [i] == [i];
      JustOne(i);
    } else {
      BytesSnoc(l[1..], i);
      assert (l + [i])[0] == l[0] && (l + [i])[1..] == l[1..] + [i];
      assert BytesOf(l[0]) + (Bytes(l[1..]) + BytesOf(i)) == Bytes(l) + BytesOf(i);
      assert CellsOf(l[0]) + (Cells(l[1..]) + CellsOf(i)) == Cells(l) + CellsOf(i);
    }
  }

  lemma Cut(head: seq<byte>, input: seq<byte>)
    requires head <= input
    ensures input == head + input[|head|..]
  {
  }

  lemma Filled(input: seq<byte>, l: seq<Packed>, room: nat)
    requires StartsWith(input, l) && Fill(l, room)
    ensures Unpacking(input, 0, room) == Complete(Cells(l) + [LAST], Flags(l) + [true])
  {
    hide Unpacking, Cells, Flags, Bytes;
    Cut(Bytes(l), input);
    PackedBack(l, input[|Bytes(l)|..]);
  }

  lemma Crossed(input: seq<byte>, l: seq<Packed>, room: nat)
    requires StartsWith(input, l) && Cross(l, room)
    ensures Unpacking(input, 0, room).Overrun?
  {
    hide Unpacking, Cells, Bytes, BytesOf, Fits;
    var init, i := l[..|l| - 1], l[|l| - 1];
    assert l == init + [i];
    BytesSnoc(init, i);
    Cut(Bytes(l), input);
    PackedOver(init, i, input[|Bytes(l)|..]);
  }

  /** On every input: unpacking completes if and only if the input starts with instructions that fill the cells
      announced, which are then exactly what it finds; it overruns if and only if the parameter of the last of
      them crosses the end; otherwise the input is cut short. */
  lemma UnpackedIff(input: seq<byte>, room: nat)
    ensures var u := Unpacking(input, 0, room);
      && (u.Complete? <==> exists l :: StartsWith(input, l) && Fill(l, room))
      && (u.Overrun? <==> exists l :: StartsWith(input, l) && Cross(l, room))
      && forall l :: StartsWith(input, l) && Fill(l, room) ==> u == Complete(Cells(l) + [LAST], Flags(l) + [true])
  {
    hide Unpacking;
    var again := Again(input, 0, room);
    assert input[0..] == input;
    forall l | StartsWith(input, l) && Fill(l, room)
      ensures Unpacking(input, 0, room) == Complete(Cells(l) + [LAST], Flags(l) + [true])
    {
      Filled(input, l, room);
    }
    forall l | StartsWith(input, l) && Cross(l, room)
      ensures Unpacking(input, 0, room).Overrun?
    {
      Crossed(input, l, room);
    }
  }

  // ------------------------------------------------------------------- what the compiler writes

  /** An instruction as the compiler has it, whatever encoding it gets. */
  datatype Op = Op(id: int, parameter: Parameter)
  datatype Parameter = Without | With(n: int)

  predicate OpFits(o: Op) {
    0 <= o.id < 64 && (o.parameter.With? ==> -0x8000_0000 <= o.parameter.n < 0x8000_0000)
  }

  /** The shortest encoding that holds the parameter. */
  function Chosen(o: Op): Packed {
    match o.parameter
    case Without => Alone(o.id)
    case With(n) =>
      if o.id < 32 && (n == 0 || n == 1) then WithBit(o.id, n)
      else if 0 <= n <= 0xFF then WithByte(o.id, n)
      else WithWord(o.id, n)
  }

  function AllChosen(l: seq<Op>): seq<Packed> {
    if l == [] then [] else [Chosen(l[0])] + AllChosen(l[1..])
  }

  function OpCells(l: seq<Op>): seq<int> {
    if l == [] then []
    else (if l[0].parameter.With? then [l[0].id, l[0].parameter.n] else [l[0].id]) + OpCells(l[1..])
  }

  function OpFlags(l: seq<Op>): seq<bool> {
    if l == [] then [] else (if l[0].parameter.With? then [true, false] else [true]) + OpFlags(l[1..])
  }

  lemma {:induction false} ChosenCells(l: seq<Op>)
    requires forall o <- l :: OpFits(o)
    ensures AllFit(AllChosen(l)) && Cells(AllChosen(l)) == OpCells(l) && Flags(AllChosen(l)) == OpFlags(l)
  {
    if l != [] {
      assert l[0] in l;
      ChosenCells(l[1..]);
      assert AllChosen(l)[1..] == AllChosen(l[1..]);
    }
  }

  /** Whatever the compiler writes is unpacked into its opcodes and parameters. */
  lemma CompiledBack(l: seq<Op>, rest: seq<byte>)
    requires forall o <- l :: OpFits(o)
    ensures AllFit(AllChosen(l))
    ensures Unpacking(Bytes(AllChosen(l)) + rest, 0, |OpCells(l)|) == Complete(OpCells(l) + [LAST], OpFlags(l) + [true])
  {
    ChosenCells(l);
    PackedBack(AllChosen(l), rest);
  }
}
