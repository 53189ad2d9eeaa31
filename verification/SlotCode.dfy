/** The two machines that the slot compiler relates: the interpreter, which keeps operands on a
    stack, and compiled code, which keeps them in named slots and runs block by block. */
module SlotCode {
  import opened BlockSplit

  // The result of a comparison between values that do not compare.
  const INVALID_COMPARISON := 0xFE

  datatype Exception = BadOperands(op: IntOperator) | Thrown(id: int)

  datatype Effect = Gives(acc: Value, w: int) | Raises(e: Exception, w: int)

  /** What the machines share: comparison, integer arithmetic, addresses, and the primitives,
      which may also change the rest of the world, `w`. */
  datatype World = World(
    compare: (Value, Value) -> int,
    intOp: (IntOperator, int, int) -> int,
    address: Value -> int,
    primitive: (int, Value, seq<Value>, int) -> Effect)

  datatype Result<S> = Next(state: S) | Done(result: Value, w: int) | Raised(e: Exception, w: int) | Stuck

  function Related(rel: Relation, r: int): bool {
    match rel
    case Eq => r == 0
    case Lt => r < 0
    case Lte => r <= 0
    case Gt => r > 0
    case Gte => r >= 0
  }

  // ---------- the interpreter ----------

  datatype IState = IState(pc: nat, acc: Value, stack: seq<Value>, w: int)

  function Top(stack: seq<Value>, k: nat): Value
    requires k < |stack|
  {
    stack[|stack| - 1 - k]
  }

  function Dropped<T>(stack: seq<T>, n: nat): seq<T>
    requires n <= |stack|
  {
    stack[..|stack| - n]
  }

  /** Words an instruction needs on the stack. */
  function Needs(c: Instruction): nat {
    match c
    case AccStack(k) => k + 1
    case SetStack(k) => k + 1
    case Pop(n) => n
    case Ret(n) => n
    case IntOp(_) => 1
    case Test(_) => 1
    case Neq => 1
    case Compare => 1
    case PhysCompare => 1
    case MakeArray(n) => n
    case Primitive(_, n) => n
    case _ => 0
  }

  function Truth(b: bool): Value { if b then True else False }

  function IStep(code: seq<Instruction>, world: World, s: IState): Result<IState> {
    if s.pc == |code| then Done(s.acc, s.w)
    else if s.pc > |code| || |s.stack| < Needs(code[s.pc]) then Stuck
    else
      var on := s.(pc := s.pc + 1);
      match code[s.pc]
      case AccConst(v) => Next(on.(acc := v))
      case AccStack(k) => Next(on.(acc := Top(s.stack, k)))
      case SetStack(k) => Next(on.(stack := s.stack[|s.stack| - 1 - k := s.acc]))
      case Push => Next(on.(stack := s.stack + [s.acc]))
      case Pop(n) => Next(on.(stack := Dropped(s.stack, n)))
      case Jump(t) => Next(s.(pc := t))
      case JumpIf(t) => Next(if s.acc == True then s.(pc := t) else on)
      case JumpIfNot(t) => Next(if s.acc != True then s.(pc := t) else on)
      case JumpTable(n) =>
        Next(s.(pc := s.pc + 1 + if s.acc.Int? && 0 <= s.acc.n < n then s.acc.n else n))
      case Ret(n) => Done(s.acc, s.w)
      case ToBool => Next(on.(acc := Truth(!(s.acc == False || s.acc == Null || s.acc == Int(0)))))
      case ToNot => Next(on.(acc := Truth(s.acc == False || s.acc == Null || s.acc == Int(0))))
      case IsNull => Next(on.(acc := Truth(s.acc == Null)))
      case IsNotNull => Next(on.(acc := Truth(s.acc != Null)))
      case IntOp(op) =>
        var left := Top(s.stack, 0);
        if s.acc.Int? && left.Int?
        then Next(on.(acc := Int(world.intOp(op, left.n, s.acc.n)), stack := Dropped(s.stack, 1)))
        else Raised(BadOperands(op), s.w)
      case Test(rel) =>
        var r := world.compare(Top(s.stack, 0), s.acc);
        Next(on.(acc := Truth(Related(rel, r) && r != INVALID_COMPARISON), stack := Dropped(s.stack, 1)))
      case Neq =>
        Next(on.(acc := Truth(world.compare(Top(s.stack, 0), s.acc) != 0), stack := Dropped(s.stack, 1)))
      case Compare =>
        var r := world.compare(Top(s.stack, 0), s.acc);
        Next(on.(acc := if r == INVALID_COMPARISON then Null else Int(r), stack := Dropped(s.stack, 1)))
      case PhysCompare =>
        var l, r := world.address(Top(s.stack, 0)), world.address(s.acc);
        Next(on.(acc := Int(if l > r then 1 else if l < r then -1 else 0), stack := Dropped(s.stack, 1)))
      case MakeArray(n) =>
        Next(on.(acc := Array([s.acc] + s.stack[|s.stack| - n..]), stack := Dropped(s.stack, n)))
      case Primitive(kind, n) =>
        match world.primitive(kind, s.acc, s.stack[|s.stack| - n..], s.w)
        case Gives(acc, w) => Next(on.(acc := acc, stack := Dropped(s.stack, n), w := w))
        case Raises(e, w) => Raised(e, w)
  }

  // ---------- compiled code ----------

  datatype Condition =
    | AccIs(v: Value)
    | AccIsNot(v: Value)
    | ResultIs(rel: Relation)               // the raw comparison result in acc against zero
    | Either(a: Condition, b: Condition)
    | Both(a: Condition, b: Condition)

  function Holds(c: Condition, acc: Value): bool {
    match c
    case AccIs(v) => acc == v
    case AccIsNot(v) => acc != v
    case ResultIs(rel) => acc.Raw? && Related(rel, acc.result)
    case Either(a, b) => Holds(a, acc) || Holds(b, acc)
    case Both(a, b) => Holds(a, acc) && Holds(b, acc)
  }

  datatype Choice = Fixed(v: Value) | AllocInt

  function Chosen(c: Choice, acc: Value): Value {
    match c
    case Fixed(v) => v
    case AllocInt => if acc.Raw? then Int(acc.result) else acc
  }

  /** Straight-line compiled code. Slots are the compiler's stack cells. */
  datatype Slotted =
    | SetAcc(v: Value)
    | Load(slot: nat)
    | Store(slot: nat)
    | Choose(c: Condition, yes: Choice, no: Choice)
    | CallCompare(slot: nat)
    | IntBranch(op: IntOperator, slot: nat)
    | AddressBranch(slot: nat)
    | BuildArray(slots: seq<nat>)
    | CallPrimitive(kind: int, slots: seq<nat>)

  datatype Target = ToBlock(id: nat) | ToReturn

  datatype Terminator =
    | Br(to: Target)
    | BranchIf(yes: Target, no: Target)
    | BranchIfNot(yes: Target, no: Target)
    | Switch(cases: seq<Target>, default: Target)
    | Return
    | Abort                                       // an assertion of the compiler failed

  datatype Block = Block(body: seq<Slotted>, term: Terminator)

  /** The rest of the current block, and the storage. */
  datatype SState = SState(body: seq<Slotted>, term: Terminator, acc: Value, slots: map<nat, Value>, w: int)

  function LoadAll(slots: map<nat, Value>, ks: seq<nat>): seq<Value>
    requires forall k <- ks :: k in slots
  {
    seq(|ks|, j requires 0 <= j < |ks| => slots[ks[j]])
  }

  function Used(c: Slotted): seq<nat> {
    match c
    case Load(k) => [k]
    case CallCompare(k) => [k]
    case IntBranch(_, k) => [k]
    case AddressBranch(k) => [k]
    case BuildArray(ks) => ks
    case CallPrimitive(_, ks) => ks
    case _ => []
  }

  function Goto(blocks: map<nat, Block>, s: SState, t: Target): Result<SState> {
    match t
    case ToReturn => Done(s.acc, s.w)
    case ToBlock(b) => if b in blocks then Next(s.(body := blocks[b].body, term := blocks[b].term)) else Stuck
  }

  function SStep(blocks: map<nat, Block>, world: World, s: SState): Result<SState> {
    if s.body == [] then
      match s.term
      case Br(t) => Goto(blocks, s, t)
      case BranchIf(yes, no) => Goto(blocks, s, if s.acc == True then yes else no)
      case BranchIfNot(yes, no) => Goto(blocks, s, if s.acc != True then yes else no)
      case Switch(cases, default) =>
        Goto(blocks, s, if s.acc.Int? && 0 <= s.acc.n < |cases| then cases[s.acc.n] else default)
      case Return => Done(s.acc, s.w)
      case Abort => Stuck
    else if exists k <- Used(s.body[0]) :: k !in s.slots then Stuck
    else
      var on := s.(body := s.body[1..]);
      match s.body[0]
      case SetAcc(v) => Next(on.(acc := v))
      case Load(k) => Next(on.(acc := s.slots[k]))
      case Store(k) => Next(on.(slots := s.slots[k := s.acc]))
      case Choose(c, yes, no) => Next(on.(acc := Chosen(if Holds(c, s.acc) then yes else no, s.acc)))
      case CallCompare(k) => Next(on.(acc := Raw(world.compare(s.slots[k], s.acc))))
      case IntBranch(op, k) =>
        if s.acc.Int? && s.slots[k].Int?
        then Next(on.(acc := Int(world.intOp(op, s.slots[k].n, s.acc.n))))
        else Raised(BadOperands(op), s.w)
      case AddressBranch(k) =>
        var l, r := world.address(s.slots[k]), world.address(s.acc);
        Next(on.(acc := Int(if l > r then 1 else if l < r then -1 else 0)))
      case BuildArray(ks) => Next(on.(acc := Array([s.acc] + LoadAll(s.slots, ks))))
      case CallPrimitive(kind, ks) =>
        match world.primitive(kind, s.acc, LoadAll(s.slots, ks), s.w)
        case Gives(acc, w) => Next(on.(acc := acc, w := w))
        case Raises(e, w) => Raised(e, w)
  }
}
