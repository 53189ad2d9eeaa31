/** The wire format of the graph serializer: what the writer produces and what the reader does. */
module SerialFormat {
  import opened MachineInt
  import opened ObjTable

  const MAX_DEPTH: nat := 350
  const MAX_SIZE: nat := 0x2000_0000

  // ------------------------------------------------------------------- values

  /** A machine value. Strings, arrays and objects live in a heap and have an identity; the other
      values, and hash tables, are written by copy. */
  datatype Value =
    | Null
    | Bool(flag: bool)
    | Int(n: int)
    | Int32(n: int)
    | Float(bits: seq<Byte>)
    | Ref(at: nat)
    | Hash(buckets: seq<Bucket>)

  datatype Bucket = Bucket(cells: seq<HCell>)
  datatype HCell = HCell(hkey: int, key: Value, val: Value)

  datatype Node =
    | Str(bytes: seq<Byte>)
    | Arr(items: seq<Value>)
    | Obj(fields: seq<Cell<Value>>, proto: Option<nat>)

  type Heap = seq<Node>

  /** The id of `__serialize`. */
  const SERIALIZE: int := 589211328

  /** An object with a field of that name, which is then taken for a method. */
  predicate Hooked(node: Node) {
    node.Obj? && exists i :: 0 <= i < |node.fields| && node.fields[i].id == SERIALIZE
  }

  /** Every heap starts with the two shared constants, the empty string and the empty array. */
  const EMPTY_STRING: nat := 0
  const EMPTY_ARRAY: nat := 1

  predicate HasConstants(h: Heap) {
    |h| > 1 && h[EMPTY_STRING] == Str([]) && h[EMPTY_ARRAY] == Arr([])
  }

  /** All cells of a table, bucket after bucket. */
  function Flatten(buckets: seq<Bucket>): seq<HCell> {
    if buckets == [] then [] else buckets[0].cells + Flatten(buckets[1..])
  }

  /** Position of an address among those numbered so far. */
  function Find(refs: seq<nat>, a: nat): (k: Option<nat>)
    ensures k.Some? ==> k.value < |refs| && refs[k.value] == a
    ensures k.None? ==> a !in refs
  {
    if refs == [] then None
    else
      var n := |refs| - 1;
      var early := Find(refs[..n], a);
      if early.Some? then early else if refs[n] == a then Some(n) else None
  }

  // ------------------------------------------------------------------- bytes

  /** A C `int` as four bytes, lowest first. */
  function Int4(n: int): (bytes: seq<Byte>)
    ensures |bytes| == 4
  {
    [n % 256, n / 256 % 256, n / 256 / 256 % 256, n / 256 / 256 / 256 % 256]
  }

  function IntAt(b: seq<Byte>, pos: nat): int
    requires pos + 4 <= |b|
  {
    var u := (b[pos] as int) + 256 * (b[pos + 1] as int) + 65536 * (b[pos + 2] as int) + 16777216 * (b[pos + 3] as int);
    if u < 0x8000_0000 then u else u - 0x1_0000_0000
  }

  const N: Byte := 78
  const T: Byte := 84
  const F: Byte := 70
  const SMALL: Byte := 105
  const LARGE: Byte := 73
  const FLOAT: Byte := 102
  const STRING: Byte := 115
  const OBJECT: Byte := 111
  const REFERENCE: Byte := 114
  const ARRAY: Byte := 97
  const HASH: Byte := 104
  const PROTO: Byte := 112
  const NO_PROTO: Byte := 122

  // ------------------------------------------------------------------- writer

  /** A value to write, and the bytes that go before it. */
  datatype Item = Item(lead: seq<Byte>, v: Value)

  function ArrayItems(vs: seq<Value>): seq<Item> {
    if vs == [] then [] else [Item([], vs[0])] + ArrayItems(vs[1..])
  }

  function ObjectItems(fields: seq<Cell<Value>>, proto: Option<nat>): seq<Item> {
    if fields != [] then [Item(Int4(fields[0].id), fields[0].v)] + ObjectItems(fields[1..], proto)
    else match proto
      case None => []
      case Some(p) => [Item(Int4(0) + [PROTO], Ref(p))]
  }

  function CellItems(cells: seq<HCell>): seq<Item> {
    if cells == [] then []
    else [Item(Int4(cells[0].hkey), cells[0].key), Item([], cells[0].val)] + CellItems(cells[1..])
  }

  function NodeHead(node: Node): seq<Byte> {
    match node
    case Str(s) => [STRING] + Int4(|s|) + s
    case Arr(vs) => [ARRAY] + Int4(|vs|)
    case Obj(_, _) => [OBJECT]
  }

  function NodeItems(node: Node): seq<Item> {
    match node
    case Str(_) => []
    case Arr(vs) => ArrayItems(vs)
    case Obj(fields, proto) => ObjectItems(fields, proto)
  }

  function NodeTail(node: Node): seq<Byte> {
    if node.Obj? && node.proto.None? then Int4(0) + [NO_PROTO] else []
  }

  datatype Wrote = Failed | Wrote(bytes: seq<Byte>, refs: seq<nat>)

  /** `serialize_rec`: the bytes for `v`, and the addresses numbered by then, in order. It fails when
      values nest more than 350 deep, and on an object with a field `__serialize`, as no value here is a
      function that could be called. */
  function Ser(h: Heap, v: Value, refs: seq<nat>, depth: nat): (w: Wrote)
    requires depth <= MAX_DEPTH
    ensures w.Wrote? ==> |w.bytes| > 0 && w.bytes[0] != PROTO && w.bytes[0] != NO_PROTO
    ensures w.Wrote? ==> refs <= w.refs
    decreases MAX_DEPTH - depth, 0
  {
    if depth == MAX_DEPTH then Failed
    else match v
      case Null => Wrote([N], refs)
      case Bool(flag) => Wrote([if flag then T else F], refs)
      case Int(n) => Wrote([SMALL] + Int4(n), refs)
      case Int32(n) => Wrote([LARGE] + Int4(n), refs)
      case Float(bits) => Wrote([FLOAT] + bits, refs)
      case Ref(a) =>
        (match Find(refs, a)
         case Some(k) => Wrote([REFERENCE] + Int4(|refs| - 1 - k), refs)
         case None =>
           if a < |h| && !Hooked(h[a])
           then SerBody(h, NodeHead(h[a]), NodeItems(h[a]), NodeTail(h[a]), refs + [a], depth + 1)
           else Failed)
      case Hash(buckets) =>
        SerBody(h, [HASH] + Int4(|buckets|) + Int4(|Flatten(buckets)|), CellItems(Flatten(buckets)), [], refs,
          depth + 1)
  }

  function SerBody(h: Heap, head: seq<Byte>, items: seq<Item>, tail: seq<Byte>, refs: seq<nat>, depth: nat): (w: Wrote)
    requires depth <= MAX_DEPTH
    ensures w.Wrote? ==> head <= w.bytes && refs <= w.refs
    decreases MAX_DEPTH - depth, |items| + 2
  {
    match SerItems(h, items, refs, depth)
    case Failed => Failed
    case Wrote(body, refs1) => Wrote(head + body + tail, refs1)
  }

  function SerItems(h: Heap, items: seq<Item>, refs: seq<nat>, depth: nat): (w: Wrote)
    requires depth <= MAX_DEPTH
    ensures w.Wrote? ==> refs <= w.refs
    decreases MAX_DEPTH - depth, |items| + 1
  {
    if items == [] then Wrote([], refs)
    else
      match Ser(h, items[0].v, refs, depth)
      case Failed => Failed
      case Wrote(first, refs1) =>
        match SerItems(h, items[1..], refs1, depth)
        case Failed => Failed
        case Wrote(rest, refs2) => Wrote(items[0].lead + first + rest, refs2)
  }

  // ------------------------------------------------------------------- reader

  /** What the reader has built: the heap, and the address for each number given so far. */
  datatype State = State(heap: Heap, trefs: seq<nat>)

  datatype Read<+A> = Bad | Read(v: A, pos: nat, st: State)

  /** Nothing on the old heap has changed, except at `at`. */
  predicate Keeps(st: State, at: int, st': State) {
    && |st.heap| <= |st'.heap|
    && (forall j :: 0 <= j < |st.heap| && j != at ==> st'.heap[j] == st.heap[j])
  }

  function Store(st: State, at: nat, node: Node): State
    requires at < |st.heap|
  {
    st.(heap := st.heap[at := node])
  }

  /** Allocates `node` and numbers it. */
  function Alloc(st: State, node: Node): State {
    State(st.heap + [node], st.trefs + [|st.heap|])
  }

  /** Numbers a node that exists already. */
  function AddRef(st: State, at: nat): State {
    st.(trefs := st.trefs + [at])
  }

  /** A cell goes to the end of the chain that its hash key selects. */
  function Place(buckets: seq<Bucket>, c: HCell): (r: seq<Bucket>)
    requires |buckets| > 0 && c.hkey >= 0
    ensures |r| == |buckets|
  {
    var i := c.hkey % |buckets|;
    buckets[i := Bucket(buckets[i].cells + [c])]
  }

  function Nulls(n: nat): (vs: seq<Value>)
    ensures |vs| == n
  {
    seq(n, _ => Null)
  }

  function Chains(n: nat): seq<Bucket> {
    seq(n, _ => Bucket([]))
  }

  /** The value of a node that has been read into place. */
  function AsRef(r: Read<()>, at: nat): Read<Value> {
    match r
    case Bad => Bad
    case Read(_, pos, st) => Read(Ref(at), pos, st)
  }

  function AsHash(r: Read<seq<Bucket>>): Read<Value> {
    match r
    case Bad => Bad
    case Read(buckets, pos, st) => Read(Hash(buckets), pos, st)
  }

  /** `unserialize_rec`. */
  function Unser(b: seq<Byte>, pos: nat, st: State): (r: Read<Value>)
    requires pos <= |b|
    ensures r.Read? ==> pos < r.pos <= |b| && Keeps(st, -1, r.st)
    decreases |b| - pos, 0
  {
    if pos == |b| then Bad
    else
      var p := pos + 1;
      var tag := b[pos];
      if tag == N then Read(Null, p, st)
      else if tag == T then Read(Bool(true), p, st)
      else if tag == F then Read(Bool(false), p, st)
      else if tag == FLOAT then
        if p + 8 > |b| then Bad else Read(Float(b[p..p + 8]), p + 8, st)
      else if tag == OBJECT then AsRef(ReadObject(b, |st.heap|, p, Alloc(st, Obj([], None))), |st.heap|)
      else if tag in {SMALL, LARGE, STRING, REFERENCE, ARRAY, HASH} then
        if p + 4 > |b| then Bad else UnserSized(b, tag, IntAt(b, p), p + 4, st)
      else Bad
  }

  /** The tags that a number follows. */
  function UnserSized(b: seq<Byte>, tag: Byte, n: int, p: nat, st: State): (r: Read<Value>)
    requires p <= |b|
    ensures r.Read? ==> p <= r.pos <= |b| && Keeps(st, -1, r.st)
    decreases |b| - p, 3
  {
    if tag == SMALL then Read(Int(Wrap31(n)), p, st)
    else if tag == LARGE then Read(Int32(n), p, st)
    else if tag == REFERENCE then
      if n < 0 || n >= |st.trefs| then Bad else Read(Ref(st.trefs[|st.trefs| - n - 1]), p, st)
    else if tag == STRING then
      if n < 0 || n >= MAX_SIZE || p + n > |b| then Bad
      else if n == 0 then Read(Ref(EMPTY_STRING), p, AddRef(st, EMPTY_STRING))
      else Read(Ref(|st.heap|), p + n, Alloc(st, Str(b[p..p + n])))
    else if tag == ARRAY then
      if n < 0 || n >= MAX_SIZE then Bad
      else if n == 0 then Read(Ref(EMPTY_ARRAY), p, AddRef(st, EMPTY_ARRAY))
      else AsRef(ReadArray(b, |st.heap|, 0, p, Alloc(st, Arr(Nulls(n)))), |st.heap|)
    else if p + 4 > |b| || n < 0 || IntAt(b, p) < 0 then Bad
    else AsHash(ReadCells(b, IntAt(b, p), Chains(n), p + 4, st))
  }

  /** The elements from `i` on, each stored as it is read. */
  function ReadArray(b: seq<Byte>, at: nat, i: nat, pos: nat, st: State): (r: Read<()>)
    requires pos <= |b| && at < |st.heap| && st.heap[at].Arr? && i <= |st.heap[at].items|
    ensures r.Read? ==> pos <= r.pos <= |b| && Keeps(st, at, r.st)
    ensures r.Read? ==> r.st.heap[at].Arr?
    decreases |b| - pos, 1
  {
    if i == |st.heap[at].items| then Read((), pos, st)
    else
      match Unser(b, pos, st)
      case Bad => Bad
      case Read(v, p1, st1) => ReadArray(b, at, i + 1, p1, Store(st1, at, Arr(st1.heap[at].items[i := v])))
  }

  /** Fields up to the zero id, then the prototype. */
  function ReadObject(b: seq<Byte>, at: nat, pos: nat, st: State): (r: Read<()>)
    requires pos <= |b| && at < |st.heap| && st.heap[at].Obj?
    ensures r.Read? ==> pos < r.pos <= |b| && Keeps(st, at, r.st)
    ensures r.Read? ==> r.st.heap[at].Obj?
    decreases |b| - pos, 1
  {
    if pos + 4 > |b| then Bad
    else if IntAt(b, pos) != 0 then
      match Unser(b, pos + 4, st)
      case Bad => Bad
      case Read(v, p1, st1) =>
        var o := st1.heap[at];
        ReadObject(b, at, p1, Store(st1, at, Obj(Put(o.fields, IntAt(b, pos), v), o.proto)))
    else if pos + 4 == |b| then Bad
    else if b[pos + 4] == NO_PROTO then Read((), pos + 5, st)
    else if b[pos + 4] != PROTO then Bad
    else
      match Unser(b, pos + 5, st)
      case Bad => Bad
      case Read(v, p1, st1) =>
        if v.Ref? && v.at < |st1.heap| && st1.heap[v.at].Obj? then
          Read((), p1, Store(st1, at, Obj(st1.heap[at].fields, Some(v.at))))
        else Bad
  }

  /** `left` more cells of a table. With no bucket to choose from, or a negative hash key, the machine
      has no defined behaviour. */
  function ReadCells(b: seq<Byte>, left: nat, buckets: seq<Bucket>, pos: nat, st: State): (r: Read<seq<Bucket>>)
    requires pos <= |b|
    ensures r.Read? ==> pos <= r.pos <= |b| && Keeps(st, -1, r.st)
    decreases |b| - pos, 1
  {
    if left == 0 then Read(buckets, pos, st)
    else if pos + 4 > |b| then Bad
    else
      match Unser(b, pos + 4, st)
      case Bad => Bad
      case Read(key, p1, st1) =>
        match Unser(b, p1, st1)
        case Bad => Bad
        case Read(val, p2, st2) =>
          if |buckets| == 0 || IntAt(b, pos) < 0 then Bad
          else ReadCells(b, left - 1, Place(buckets, HCell(IntAt(b, pos), key, val)), p2, st2)
  }
}
