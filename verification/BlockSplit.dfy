/** Instructions of one function as the slot compiler reads them, and the division of the function
    into basic blocks. Instructions are numbered by their place in the function. */
module BlockSplit {
  datatype Value = Null | True | False | Int(n: int) | Array(items: seq<Value>) | Other(id: int) | Raw(result: int)

  datatype IntOperator = Shl | Shr | UShr | Or | And | Xor
  datatype Relation = Eq | Lt | Lte | Gt | Gte

  datatype Instruction =
    | AccConst(v: Value)                   // AccNull, AccTrue, AccFalse, AccInt, AccBuiltin
    | AccStack(k: nat)                     // AccStack0 and AccStack1 as well
    | SetStack(k: nat)
    | Push
    | Pop(n: nat)
    | Jump(target: nat)
    | JumpIf(target: nat)
    | JumpIfNot(target: nat)
    | JumpTable(cases: nat)                // followed by that many jumps, then the default
    | Ret(n: nat)
    | ToBool | ToNot | IsNull | IsNotNull
    | IntOp(op: IntOperator)
    | Test(rel: Relation)
    | Neq
    | Compare
    | PhysCompare
    | MakeArray(n: nat)
    | Primitive(kind: int, n: nat)         // arithmetic, fields, arrays, calls: `n` operands and acc

  /** Every jump goes to an instruction of the function, and the default branch of a jump table exists. */
  predicate TargetsExist(code: seq<Instruction>) {
    && (forall i :: 0 <= i < |code| ==> TargetOk(code, i))
    && forall i :: 0 <= i < |code| && code[i].JumpTable? ==> i + code[i].cases + 1 < |code|
  }

  /** Besides, the entries of a jump table are jumps, and nothing jumps into the table: a block that ended
      inside it would hold only a part of its entries. */
  ghost predicate WellFormed(code: seq<Instruction>) {
    && TargetsExist(code)
    && forall i :: 0 <= i < |code| && code[i].JumpTable? ==>
         forall j :: i < j <= i + code[i].cases ==> code[j].Jump? && j !in Leaders(code)
  }

  predicate TargetOk(code: seq<Instruction>, i: nat)
    requires i < |code|
  {
    code[i].Jump? || code[i].JumpIf? || code[i].JumpIfNot? ==> code[i].target < |code|
  }

  /** The addresses that the instruction at `i` makes starts of blocks. */
  function LeadersOf(code: seq<Instruction>, i: nat): seq<nat>
    requires i < |code|
  {
    match code[i]
    case Jump(t) => [t]
    case JumpIf(t) => if i + 1 < |code| then [t, i + 1] else [t]
    case JumpIfNot(t) => if i + 1 < |code| then [t, i + 1] else [t]
    case JumpTable(n) => [i + n + 1]
    case _ => []
  }

  /** The starts of blocks that the first `n` instructions ask for. */
  ghost function LeadersUpTo(code: seq<Instruction>, n: nat): set<nat>
    requires n <= |code|
  {
    set i, t | 0 <= i < n && t in LeadersOf(code, i) :: t
  }

  /** All block starts, with the function's own start. */
  ghost function Leaders(code: seq<Instruction>): set<nat> {
    {0} + LeadersUpTo(code, |code|)
  }

  /** `get_block_addresses`. */
  method GetBlockAddresses(code: seq<Instruction>) returns (addresses: seq<nat>)
    ensures forall t :: t in addresses <==> t in LeadersUpTo(code, |code|)
  {
    addresses := [];
    for i := 0 to |code|
      invariant forall t :: t in addresses <==> t in LeadersUpTo(code, i)
    {
      addresses := addresses + LeadersOf(code, i);
    }
  }

  predicate Ascending(s: seq<nat>) {
    forall j, k :: 0 <= j < k < |s| ==> s[j] < s[k]
  }

  /** Sorting without duplicates, one element at a time. */
  function Insert(s: seq<nat>, x: nat): (r: seq<nat>)
    requires Ascending(s)
    ensures Ascending(r) && forall y :: y in r <==> y in s || y == x
  {
    if s == [] then [x]
    else if x < s[0] then [x] + s
    else if x == s[0] then s
    else
      var tail := Insert(s[1..], x);
      assert forall k :: 0 <= k < |tail| ==> tail[k] in tail;
      assert forall y :: y in s <==> y == s[0] || y in s[1..];
      [s[0]] + tail
  }

  function SortUnique(s: seq<nat>): (r: seq<nat>)
    ensures Ascending(r) && forall y :: y in r <==> y in s
  {
    if s == [] then [] else
      assert forall y :: y in s <==> y == s[0] || y in s[1..];
      Insert(SortUnique(s[1..]), s[0])
  }

  /** A stretch of instructions. */
  datatype Chunk = Chunk(from: nat, to: nat)

  /** Non-empty stretches that follow each other from `from` to `to`. */
  ghost predicate Partition(chunks: seq<Chunk>, from: nat, to: nat) {
    && |chunks| > 0 && chunks[0].from == from && chunks[|chunks| - 1].to == to
    && (forall k :: 0 <= k < |chunks| ==> chunks[k].from < chunks[k].to)
    && (forall k :: 0 <= k < |chunks| - 1 ==> chunks[k].to == chunks[k + 1].from)
  }

  /** The chunks between consecutive addresses. */
  function ChunksOf(local: seq<nat>): seq<Chunk>
    requires |local| >= 1
  {
    seq(|local| - 1, k requires 0 <= k < |local| - 1 => Chunk(local[k], local[k + 1]))
  }

  lemma EndsOf(local: seq<nat>, from: nat, to: nat)
    requires Ascending(local) && from in local && to in local && from < to
    requires forall a <- local :: from <= a <= to
    ensures |local| >= 2 && local[0] == from && local[|local| - 1] == to
  {
    var i :| 0 <= i < |local| && local[i] == from;
    var j :| 0 <= j < |local| && local[j] == to;
    assert local[0] in local && local[|local| - 1] in local;
  }

  ghost predicate StartsAt(chunks: seq<Chunk>, a: nat) {
    exists k :: 0 <= k < |chunks| && chunks[k].from == a
  }

  /** Each chunk starts at an address, each address below `to` starts a chunk, and none lies
      strictly inside one. */
  ghost predicate StartsExactly(chunks: seq<Chunk>, addresses: seq<nat>, to: nat) {
    && (forall k :: 0 <= k < |chunks| ==> chunks[k].from in addresses)
    && (forall a :: a in addresses && a < to ==> StartsAt(chunks, a))
    && (forall k, a :: 0 <= k < |chunks| && chunks[k].from < a < chunks[k].to ==> a !in addresses)
  }

  lemma ChunksPartition(local: seq<nat>, from: nat, to: nat)
    requires Ascending(local) && |local| >= 2 && local[0] == from && local[|local| - 1] == to
    ensures Partition(ChunksOf(local), from, to)
  {
  }

  lemma ChunkAt(local: seq<nat>, to: nat, a: nat)
    requires Ascending(local) && |local| >= 2 && local[|local| - 1] == to && a in local && a < to
    ensures StartsAt(ChunksOf(local), a)
  {
    var k :| 0 <= k < |local| && local[k] == a;
    assert ChunksOf(local)[k].from == a;
  }

  lemma NothingInside(local: seq<nat>, k: nat, a: nat)
    requires Ascending(local) && k + 1 < |local| && local[k] < a < local[k + 1]
    ensures a !in local
  {
    forall j | 0 <= j < |local|
      ensures local[j] != a
    {
    }
  }

  /** The chunks partition the range, and the addresses are exactly where they start. */
  lemma ChunksExact(local: seq<nat>, from: nat, to: nat)
    requires Ascending(local) && |local| >= 2 && local[0] == from && local[|local| - 1] == to
    ensures Partition(ChunksOf(local), from, to)
    ensures StartsExactly(ChunksOf(local), local, to)
  {
    ChunksPartition(local, from, to);
    var chunks := ChunksOf(local);
    forall a | a in local && a < to
      ensures StartsAt(chunks, a)
    {
      ChunkAt(local, to, a);
    }
    forall k, a | 0 <= k < |chunks| && chunks[k].from < a < chunks[k].to
      ensures a !in local
    {
      NothingInside(local, k, a);
    }
  }

  /** The same for the addresses asked for, in whatever order and however often. */
  lemma SplitExact(addresses: seq<nat>, from: nat, to: nat)
    requires from < to && from in addresses && to in addresses && forall a <- addresses :: from <= a <= to
    ensures |SortUnique(addresses)| >= 2
    ensures Partition(ChunksOf(SortUnique(addresses)), from, to)
    ensures StartsExactly(ChunksOf(SortUnique(addresses)), addresses, to)
  {
    hide Partition, ChunksOf;
    var local := SortUnique(addresses);
    EndsOf(local, from, to);
    ChunksExact(local, from, to);
  }

  /** `splitByAddresses`: cut `[from, to)` at the given addresses and nowhere else. */
  method SplitByAddresses(from: nat, to: nat, addresses: seq<nat>) returns (chunks: seq<Chunk>)
    requires from < to && forall a <- addresses :: from <= a <= to
    ensures Partition(chunks, from, to) && StartsExactly(chunks, [from, to] + addresses, to)
  {
    hide Partition, StartsExactly, SortUnique, Ascending;
    var all := [from, to] + addresses;
    assert all[0] == from && all[1] == to;
    var local := SortUnique(all);
    SplitExact(all, from, to);
    chunks := [];
    for k := 0 to |local| - 1
      invariant chunks == ChunksOf(local)[..k]
    {
      chunks := chunks + [Chunk(local[k], local[k + 1])];
    }
    assert chunks == ChunksOf(local);
  }

  /** The first block start at or after `i`, or the end of the function. */
  ghost function NextLeader(code: seq<Instruction>, i: nat): (e: nat)
    requires i <= |code|
    ensures i <= e <= |code| && (e < |code| ==> e in Leaders(code))
    ensures forall a :: i <= a < e ==> a !in Leaders(code)
    decreases |code| - i
  {
    if i == |code| || i in Leaders(code) then i else NextLeader(code, i + 1)
  }

  ghost function BlockEnd(code: seq<Instruction>, b: nat): nat
    requires b < |code|
  {
    NextLeader(code, b + 1)
  }

  /** The chunks are the function's blocks: they start at its leaders and reach to the next. */
  ghost predicate AreBlocks(code: seq<Instruction>, blocks: seq<Chunk>) {
    && Partition(blocks, 0, |code|)
    && (forall k :: 0 <= k < |blocks| ==>
          && blocks[k].from < |code| && blocks[k].from in Leaders(code)
          && blocks[k].to == BlockEnd(code, blocks[k].from))
    && forall a :: a in Leaders(code) && a < |code| ==> StartsAt(blocks, a)
  }

  lemma {:induction false} PartitionBounds(blocks: seq<Chunk>, from: nat, to: nat, k: nat)
    requires Partition(blocks, from, to) && k < |blocks|
    ensures blocks[k].to <= to
    decreases |blocks| - k
  {
    if k < |blocks| - 1 {
      PartitionBounds(blocks, from, to, k + 1);
      assert blocks[k].to == blocks[k + 1].from;
    }
  }

  lemma BlockReaches(code: seq<Instruction>, blocks: seq<Chunk>, addresses: seq<nat>, k: nat)
    requires Partition(blocks, 0, |code|) && StartsExactly(blocks, addresses, |code|) && k < |blocks|
    requires forall a :: a in addresses <==> a in Leaders(code) || a == |code|
    ensures blocks[k].from < |code| && blocks[k].from in Leaders(code)
    ensures blocks[k].to == BlockEnd(code, blocks[k].from)
  {
    PartitionBounds(blocks, 0, |code|, k);
    var from, to := blocks[k].from, blocks[k].to;
    if to < |code| {
      assert k < |blocks| - 1;
      assert blocks[k + 1].from == to;
    }
    var e := BlockEnd(code, from);
    assert from < e < to ==> e !in addresses;
  }

  /** `get_blocks`. */
  method GetBlocks(code: seq<Instruction>) returns (blocks: seq<Chunk>)
    requires TargetsExist(code) && |code| > 0
    ensures AreBlocks(code, blocks)
  {
    var addresses := GetBlockAddresses(code);
    LeadersInside(code);
    blocks := SplitByAddresses(0, |code|, addresses);
    ghost var all := [0, |code|] + addresses;
    assert forall a :: a in all <==> a in Leaders(code) || a == |code|;
    forall k | 0 <= k < |blocks|
      ensures blocks[k].from < |code| && blocks[k].from in Leaders(code)
        && blocks[k].to == BlockEnd(code, blocks[k].from)
    {
      BlockReaches(code, blocks, all, k);
    }
  }

  lemma LeadersInside(code: seq<Instruction>)
    requires TargetsExist(code)
    ensures forall a :: a in LeadersUpTo(code, |code|) ==> a < |code|
  {
    forall a | a in LeadersUpTo(code, |code|)
      ensures a < |code|
    {
      var i :| 0 <= i < |code| && a in LeadersOf(code, i);
      assert TargetOk(code, i);
    }
  }
}
