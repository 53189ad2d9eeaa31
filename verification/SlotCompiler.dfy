/** The slot compiler: a symbolic stack of slots stands for the operand stack while a block is
    translated; blocks are translated from a queue that starts with the function's entry. */
module SlotCompiler {
  import opened BlockSplit
  import opened SlotCode

  /** An edge out of a block and the symbolic stack it carries. */
  datatype Edge = Edge(target: Target, vec: seq<nat>)

  /** A translated piece of a block: code, how it ends, its edges in the order the compiler
      follows them, and the next unused slot. */
  datatype Piece = Piece(body: seq<Slotted>, term: Terminator, edges: seq<Edge>, next: nat)

  /** `block->getNext()`: the following block, or the return block after the last one. */
  function After(code: seq<Instruction>, end: nat): Target {
    if end < |code| then ToBlock(end) else ToReturn
  }

  function Slot(vec: seq<nat>, k: nat): nat
    requires k < |vec|
  {
    vec[|vec| - 1 - k]
  }

  /** `Stack::pop` takes off as many slots as there are. */
  function Popped<T>(vec: seq<T>, n: nat): seq<T> {
    if n <= |vec| then vec[..|vec| - n] else []
  }

  const FALSY := Either(Either(AccIs(False), AccIs(Null)), AccIs(Int(0)))

  /** The straight-line code for an instruction, with `vec` the symbolic stack before it and
      `next` an unused slot. */
  function Emit(c: Instruction, vec: seq<nat>, next: nat): seq<Slotted>
    requires Needs(c) <= |vec|
  {
    match c
    case AccConst(v) => [SetAcc(v)]
    case AccStack(k) => [Load(Slot(vec, k))]
    case SetStack(k) => [Store(Slot(vec, k))]
    case Push => [Store(next)]
    case ToBool => [Choose(FALSY, Fixed(False), Fixed(True))]
    case ToNot => [Choose(FALSY, Fixed(True), Fixed(False))]
    case IsNull => [Choose(AccIs(Null), Fixed(True), Fixed(False))]
    case IsNotNull => [Choose(AccIs(Null), Fixed(False), Fixed(True))]
    case IntOp(op) => [IntBranch(op, Slot(vec, 0))]
    case Test(rel) =>
      [CallCompare(Slot(vec, 0)),
       Choose(Both(ResultIs(rel), AccIsNot(Raw(INVALID_COMPARISON))), Fixed(True), Fixed(False))]
    case Neq => [CallCompare(Slot(vec, 0)), Choose(AccIs(Raw(0)), Fixed(False), Fixed(True))]
    case Compare => [CallCompare(Slot(vec, 0)), Choose(AccIs(Raw(INVALID_COMPARISON)), Fixed(Null), AllocInt)]
    case PhysCompare => [AddressBranch(Slot(vec, 0))]
    case MakeArray(n) => [BuildArray(vec[|vec| - n..])]
    case Primitive(kind, n) => [CallPrimitive(kind, vec[|vec| - n..])]
    case _ => []
  }

  /** The symbolic stack after an instruction, whatever stands for an operand. */
  function VecAfter<T>(c: Instruction, vec: seq<T>, next: T): seq<T> {
    match c
    case Push => vec + [next]
    case Pop(n) => Popped(vec, n)
    case IntOp(_) => Popped(vec, 1)
    case Test(_) => Popped(vec, 1)
    case Neq => Popped(vec, 1)
    case Compare => Popped(vec, 1)
    case PhysCompare => Popped(vec, 1)
    case MakeArray(n) => Popped(vec, n)
    case Primitive(_, n) => Popped(vec, n)
    case _ => vec
  }

  function NextAfter(c: Instruction, next: nat): nat {
    if c.Push? then next + 1 else next
  }

  function EndsBlock(c: Instruction): bool {
    c.Jump? || c.JumpIf? || c.JumpIfNot? || c.JumpTable? || c.Ret?
  }

  /** Pop and Ret take what there is; everything else asserts that its slots exist. */
  function Translatable<T>(c: Instruction, vec: seq<T>): bool {
    c.Pop? || c.Ret? || Needs(c) <= |vec|
  }

  function CaseTargets(code: seq<Instruction>, i: nat, n: nat): seq<nat>
    requires i + n < |code|
  {
    seq(n, j requires 0 <= j < n => if code[i + 1 + j].Jump? then code[i + 1 + j].target else 0)
  }

  function ToBlocks(ids: seq<nat>): seq<Target> {
    seq(|ids|, j requires 0 <= j < |ids| => ToBlock(ids[j]))
  }

  function EdgesTo(targets: seq<Target>, vec: seq<nat>): seq<Edge> {
    seq(|targets|, j requires 0 <= j < |targets| => Edge(targets[j], vec))
  }

  /** The instruction at `i`, when it ends its block. */
  function Ending(code: seq<Instruction>, i: nat, end: nat, vec: seq<nat>, next: nat): Piece
    requires i < |code| && EndsBlock(code[i])
  {
    var after := After(code, end);
    match code[i]
    case Jump(t) => Piece([], Br(ToBlock(t)), [Edge(ToBlock(t), vec)], next)
    case JumpIf(t) => Piece([], BranchIf(ToBlock(t), after), [Edge(ToBlock(t), vec), Edge(after, vec)], next)
    case JumpIfNot(t) => Piece([], BranchIfNot(ToBlock(t), after), [Edge(ToBlock(t), vec), Edge(after, vec)], next)
    case JumpTable(n) =>
      if i + n < |code| then
        var cases := ToBlocks(CaseTargets(code, i, n));
        Piece([], Switch(cases, after), [Edge(after, vec)] + EdgesTo(cases, vec), next)
      else Piece([], Abort, [], next)
    case _ => Piece([], Return, [], next)
  }

  function Prepend(body: seq<Slotted>, p: Piece): Piece {
    p.(body := body + p.body)
  }

  /** The block from `i` to `end`. */
  function Compile(code: seq<Instruction>, i: nat, end: nat, vec: seq<nat>, next: nat): Piece
    requires end <= |code|
    decreases end - i
  {
    if i >= end then Piece([], Br(After(code, end)), [Edge(After(code, end), vec)], next)
    else if !Translatable(code[i], vec) then Piece([], Abort, [], next)
    else if EndsBlock(code[i]) then Ending(code, i, end, vec, next)
    else
      Prepend(if code[i].Pop? then [] else Emit(code[i], vec, next),
              Compile(code, i + 1, end, VecAfter(code[i], vec, next), NextAfter(code[i], next)))
  }

  lemma PrependPrepend(a: seq<Slotted>, b: seq<Slotted>, p: Piece)
    ensures Prepend(a, Prepend(b, p)) == Prepend(a + b, p)
  {
    assert a + (b + p.body) == a + b + p.body;
  }

  /** A set of slots told apart, and those from `next` on unused. */
  ghost predicate Unused(vec: seq<nat>, next: nat) {
    && (forall j :: 0 <= j < |vec| ==> vec[j] < next)
    && (forall j, k :: 0 <= j < k < |vec| ==> vec[j] != vec[k])
  }

  lemma UnusedAfter(c: Instruction, vec: seq<nat>, next: nat)
    requires Unused(vec, next)
    ensures Unused(VecAfter(c, vec, next), NextAfter(c, next))
  {
  }

  /** Edges go to block starts with unused slots, and slots are never given back. */
  ghost predicate EdgeFine(code: seq<Instruction>, e: Edge, next: nat) {
    Unused(e.vec, next) && (e.target.ToBlock? ==> e.target.id < |code| && e.target.id in Leaders(code))
  }

  ghost predicate PieceFine(code: seq<Instruction>, p: Piece, next: nat) {
    next <= p.next && forall j :: 0 <= j < |p.edges| ==> EdgeFine(code, p.edges[j], p.next)
  }

  lemma TargetFine(code: seq<Instruction>, i: nat, t: nat, vec: seq<nat>, next: nat)
    requires WellFormed(code) && i < |code| && Unused(vec, next)
    requires (code[i].Jump? || code[i].JumpIf? || code[i].JumpIfNot?) && t == code[i].target
    ensures EdgeFine(code, Edge(ToBlock(t), vec), next)
  {
    assert TargetOk(code, i) && t in LeadersOf(code, i);
  }

  lemma EndingFine(code: seq<Instruction>, i: nat, end: nat, vec: seq<nat>, next: nat)
    requires WellFormed(code) && i < end <= |code| && Unused(vec, next) && EndsBlock(code[i])
    requires end < |code| ==> end in Leaders(code)
    ensures PieceFine(code, Ending(code, i, end, vec, next), next)
  {
    hide Unused;
    var p := Ending(code, i, end, vec, next);
    if code[i].JumpTable? && i + code[i].cases < |code| {
      forall j | 0 <= j < |p.edges|
        ensures EdgeFine(code, p.edges[j], p.next)
      {
        if j > 0 {
          assert code[i + j].Jump?;
          TargetFine(code, i + j, code[i + j].target, vec, next);
        }
      }
    } else if !code[i].Ret? && !code[i].JumpTable? {
      TargetFine(code, i, code[i].target, vec, next);
    }
  }

  lemma {:induction false} CompileFine(code: seq<Instruction>, i: nat, end: nat, vec: seq<nat>, next: nat)
    requires WellFormed(code) && i <= end <= |code| && Unused(vec, next)
    requires end < |code| ==> end in Leaders(code)
    ensures PieceFine(code, Compile(code, i, end, vec, next), next)
    decreases end - i
  {
    if i < end && Translatable(code[i], vec) {
      if EndsBlock(code[i]) {
        EndingFine(code, i, end, vec, next);
      } else {
        CompileFine(code, i + 1, end, VecAfter(code[i], vec, next), NextAfter(code[i], next));
      }
    }
  }

  /** Where compilation stands in a block: its end, the symbolic stack, the next unused slot. */
  datatype Place = Place(end: nat, vec: seq<nat>, next: nat)

  /** Every edge goes to a compiled block and carries the stack that block was compiled with. */
  ghost predicate EdgesMet(blocks: map<nat, Block>, entry: map<nat, Place>, edges: seq<Edge>) {
    forall j :: 0 <= j < |edges| ==> EdgeMet(blocks, entry, edges[j])
  }

  ghost predicate EdgeMet(blocks: map<nat, Block>, entry: map<nat, Place>, e: Edge) {
    e.target.ToBlock? ==> e.target.id in blocks && e.target.id in entry && entry[e.target.id].vec == e.vec
  }

  /** The compiled function: each block is the translation of its instructions from its entry
      stack, and its edges are met. */
  ghost predicate Program(code: seq<Instruction>, blocks: map<nat, Block>, entry: map<nat, Place>) {
    forall b <- blocks ::
      && b in entry && b < |code| && entry[b].end == BlockEnd(code, b) && Unused(entry[b].vec, entry[b].next)
      && var p := Compile(code, b, entry[b].end, entry[b].vec, entry[b].next);
      && blocks[b] == Block(p.body, p.term) && EdgesMet(blocks, entry, p.edges)
  }

  /** One block's instructions, in order, until one ends the block. */
  method Translate(code: seq<Instruction>, from: nat, end: nat, entry: seq<nat>, first: nat) returns (p: Piece)
    requires from <= end <= |code|
    ensures p == Compile(code, from, end, entry, first)
  {
    var i, body, vec, next := from, [], entry, first;
    while i < end
      invariant from <= i <= end
      invariant Compile(code, from, end, entry, first) == Prepend(body, Compile(code, i, end, vec, next))
    {
      if !Translatable(code[i], vec) {
        return Piece(body, Abort, [], next);
      }
      if EndsBlock(code[i]) {
        return Prepend(body, Ending(code, i, end, vec, next));
      }
      var emitted := if code[i].Pop? then [] else Emit(code[i], vec, next);
      PrependPrepend(body, emitted,
                     Compile(code, i + 1, end, VecAfter(code[i], vec, next), NextAfter(code[i], next)));
      body := body + emitted;
      vec, next := VecAfter(code[i], vec, next), NextAfter(code[i], next);
      i := i + 1;
    }
    return Piece(body, Br(After(code, end)), [Edge(After(code, end), vec)], next);
  }

  /** The translation of block `b`, from the stack it was first reached with. */
  function BlockPiece(code: seq<Instruction>, b: nat, place: Place): Piece
    requires place.end <= |code|
  {
    Compile(code, b, place.end, place.vec, place.next)
  }

  // ------------------------------------------------------------------- the queue of blocks

  /** What the compiler knows between blocks: the stack each block was first reached with, the blocks still
      to be translated, those that have been and from where, the next unused slot, and whether every edge
      so far carried the stack its target was first reached with. */
  datatype Work = Work(stacks: map<nat, seq<nat>>, queue: seq<nat>, blocks: map<nat, Block>, places: map<nat, Place>,
                       next: nat, agreed: bool)

  /** The function's first block holds the arguments. */
  function First(nargs: nat): Work {
    Work(map[0 := seq(nargs, j => j)], [0], map[], map[], nargs, true)
  }

  /** One edge: a block reached for the first time keeps the stack and joins the queue. */
  function Follow(w: Work, e: Edge): Work {
    if !e.target.ToBlock? then w
    else if e.target.id in w.stacks then w.(agreed := w.agreed && w.stacks[e.target.id] == e.vec)
    else w.(stacks := w.stacks[e.target.id := e.vec], queue := w.queue + [e.target.id])
  }

  function FollowAll(w: Work, edges: seq<Edge>): Work {
    if edges == [] then w else Follow(FollowAll(w, edges[..|edges| - 1]), edges[|edges| - 1])
  }

  ghost predicate Able(code: seq<Instruction>, w: Work) {
    w.queue != [] && w.queue[0] in w.stacks && w.queue[0] < |code|
  }

  ghost function PlaceOf(code: seq<Instruction>, w: Work): Place
    requires Able(code, w)
  {
    Place(BlockEnd(code, w.queue[0]), w.stacks[w.queue[0]], w.next)
  }

  /** The block at the front of the queue translated. */
  ghost function Translated(code: seq<Instruction>, w: Work): Work
    requires Able(code, w)
  {
    var b, place := w.queue[0], PlaceOf(code, w);
    var p := BlockPiece(code, b, place);
    w.(queue := w.queue[1..], blocks := w.blocks[b := Block(p.body, p.term)], places := w.places[b := place],
      next := p.next)
  }

  /** One round of `makeFunction`. */
  ghost function Round(code: seq<Instruction>, w: Work): Work
    requires Able(code, w)
  {
    FollowAll(Translated(code, w), BlockPiece(code, w.queue[0], PlaceOf(code, w)).edges)
  }

  ghost function RoundIfAble(code: seq<Instruction>, w: Work): Work {
    if Able(code, w) then Round(code, w) else w
  }

  ghost function Rounds(code: seq<Instruction>, w: Work, n: nat): Work {
    Repeat((x: Work) => RoundIfAble(code, x), w, n)
  }

  function Repeat<S>(step: S -> S, s: S, n: nat): S
    decreases n
  {
    if n == 0 then s else Repeat(step, step(s), n - 1)
  }

  predicate Has<S>(inv: S -> bool, s: S) { inv(s) }

  lemma {:induction false} RepeatKeeps<S(!new)>(step: S -> S, inv: S -> bool, s: S, n: nat)
    requires inv(s) && forall x {:trigger Has(inv, x)} :: Has(inv, x) ==> Has(inv, step(x))
    ensures inv(Repeat(step, s, n))
    decreases n
  {
    assert Has(inv, s);
    if n > 0 {
      RepeatKeeps(step, inv, step(s), n - 1);
    }
  }

  lemma {:induction false} RepeatOnce<S>(step: S -> S, s: S, n: nat)
    ensures Repeat(step, s, n + 1) == step(Repeat(step, s, n))
    decreases n
  {
    if n > 0 {
      RepeatOnce(step, step(s), n - 1);
    }
  }

  lemma {:induction false} RepeatStays<S>(step: S -> S, s: S, n: nat, k: nat)
    requires step(Repeat(step, s, n)) == Repeat(step, s, n)
    ensures Repeat(step, s, n + k) == Repeat(step, s, n)
    decreases k
  {
    if k > 0 {
      RepeatStays(step, s, n, k - 1);
      RepeatOnce(step, s, n + k - 1);
    }
  }

  /** The edge leads to a block that has been reached. */
  predicate Leads(stacks: map<nat, seq<nat>>, e: Edge) {
    e.target.ToBlock? ==> e.target.id in stacks
  }

  /** The edge carries the stack that its target was first reached with. */
  predicate Agrees(stacks: map<nat, seq<nat>>, e: Edge) {
    e.target.ToBlock? ==> e.target.id in stacks && stacks[e.target.id] == e.vec
  }

  ghost predicate AllLead(stacks: map<nat, seq<nat>>, edges: seq<Edge>) {
    forall j :: 0 <= j < |edges| ==> Leads(stacks, edges[j])
  }

  ghost predicate AllAgree(stacks: map<nat, seq<nat>>, edges: seq<Edge>) {
    forall j :: 0 <= j < |edges| ==> Agrees(stacks, edges[j])
  }

  ghost predicate Grows(stacks: map<nat, seq<nat>>, stacks': map<nat, seq<nat>>) {
    forall b <- stacks :: b in stacks' && stacks'[b] == stacks[b]
  }

  /** The queue holds the blocks that have been reached and not translated, each once. */
  ghost predicate QueueOk(queue: seq<nat>, reached: set<nat>, done: set<nat>) {
    && (forall b :: b in queue <==> b in reached && b !in done)
    && (forall j, k :: 0 <= j < k < |queue| ==> queue[j] != queue[k])
    && done <= reached
  }

  ghost predicate Queued(w: Work) {
    QueueOk(w.queue, w.stacks.Keys, w.blocks.Keys)
  }

  lemma OneMoreQueued(queue: seq<nat>, reached: set<nat>, done: set<nat>, b: nat)
    requires QueueOk(queue, reached, done) && b !in reached
    ensures QueueOk(queue + [b], reached + {b}, done)
  {
    forall x
      ensures x in queue + [b] <==> x in reached + {b} && x !in done
    {
    }
  }

  lemma OneTaken(queue: seq<nat>, reached: set<nat>, done: set<nat>)
    requires QueueOk(queue, reached, done) && queue != []
    ensures queue[0] in reached && queue[0] !in done && QueueOk(queue[1..], reached, done + {queue[0]})
  {
    assert queue[0] in queue;
    forall x
      ensures x in queue[1..] <==> x in reached && x !in done + {queue[0]}
    {
      assert queue == [queue[0]] + queue[1..];
    }
  }

  /** Blocks reached are blocks of the function, with stacks of used slots. */
  ghost predicate Reached(code: seq<Instruction>, w: Work) {
    forall b <- w.stacks :: b < |code| && b in Leaders(code) && Unused(w.stacks[b], w.next)
  }

  lemma FollowKeeps(code: seq<Instruction>, w: Work, e: Edge)
    requires Queued(w) && Reached(code, w) && EdgeFine(code, e, w.next)
    ensures var w' := Follow(w, e);
      && Queued(w') && Reached(code, w') && Grows(w.stacks, w'.stacks) && Leads(w'.stacks, e)
      && w'.agreed == (w.agreed && Agrees(w'.stacks, e))
      && w'.blocks == w.blocks && w'.places == w.places && w'.next == w.next
  {
    var w' := Follow(w, e);
    if e.target.ToBlock? && e.target.id !in w.stacks {
      OneMoreQueued(w.queue, w.stacks.Keys, w.blocks.Keys, e.target.id);
      assert w'.stacks.Keys == w.stacks.Keys + {e.target.id};
    }
  }

  /** Edges that led to a block, and agreed or not, still do. */
  lemma GrownAgrees(stacks: map<nat, seq<nat>>, stacks': map<nat, seq<nat>>, edges: seq<Edge>)
    requires Grows(stacks, stacks') && AllLead(stacks, edges)
    ensures AllLead(stacks', edges) && (AllAgree(stacks', edges) <==> AllAgree(stacks, edges))
  {
    forall j | 0 <= j < |edges|
      ensures Leads(stacks', edges[j]) && (Agrees(stacks', edges[j]) <==> Agrees(stacks, edges[j]))
    {
      assert Leads(stacks, edges[j]);
    }
  }

  lemma {:induction false} FollowAllKeeps(code: seq<Instruction>, w: Work, edges: seq<Edge>)
    requires Queued(w) && Reached(code, w) && forall j :: 0 <= j < |edges| ==> EdgeFine(code, edges[j], w.next)
    ensures var w' := FollowAll(w, edges);
      && Queued(w') && Reached(code, w') && Grows(w.stacks, w'.stacks) && AllLead(w'.stacks, edges)
      && w'.agreed == (w.agreed && AllAgree(w'.stacks, edges))
      && w'.blocks == w.blocks && w'.places == w.places && w'.next == w.next
    decreases |edges|
  {
    hide Queued, Reached, EdgeFine;
    if edges != [] {
      var n := |edges| - 1;
      var w1 := FollowAll(w, edges[..n]);
      FollowAllKeeps(code, w, edges[..n]);
      FollowKeeps(code, w1, edges[n]);
      GrownAgrees(w1.stacks, Follow(w1, edges[n]).stacks, edges[..n]);
      AgreeAtLast(Follow(w1, edges[n]).stacks, edges);
    }
  }

  lemma AgreeAtLast(stacks: map<nat, seq<nat>>, edges: seq<Edge>)
    requires edges != []
    ensures var n := |edges| - 1;
      && (AllAgree(stacks, edges) <==> AllAgree(stacks, edges[..n]) && Agrees(stacks, edges[n]))
      && (AllLead(stacks, edges) <==> AllLead(stacks, edges[..n]) && Leads(stacks, edges[n]))
  {
    var n := |edges| - 1;
    assert forall j :: 0 <= j < n ==> edges[..n][j] == edges[j];
    assert edges == edges[..n] + [edges[n]];
  }

  /** Block `b` is the translation of its instructions, from the stack it was first reached with, and its
      edges lead to blocks that have been reached. */
  ghost predicate BlockDone(code: seq<Instruction>, w: Work, b: nat) {
    && b in w.blocks && b in w.places && b in w.stacks && b < |code|
    && w.places[b].vec == w.stacks[b] && w.places[b].end == BlockEnd(code, b) && Unused(w.stacks[b], w.places[b].next)
    && var p := BlockPiece(code, b, w.places[b]);
    && w.blocks[b] == Block(p.body, p.term) && AllLead(w.stacks, p.edges)
  }

  ghost predicate BlockAgrees(code: seq<Instruction>, w: Work, b: nat) {
    b in w.places && w.places[b].end <= |code| && AllAgree(w.stacks, BlockPiece(code, b, w.places[b]).edges)
  }

  /** Between rounds. */
  ghost predicate Consistent(code: seq<Instruction>, w: Work) {
    && Queued(w) && Reached(code, w)
    && (forall b <- w.blocks :: BlockDone(code, w, b))
    && (w.agreed <==> forall b <- w.blocks :: BlockAgrees(code, w, b))
  }

  lemma FirstConsistent(code: seq<Instruction>, nargs: nat)
    requires |code| > 0
    ensures Consistent(code, First(nargs))
  {
    assert 0 in Leaders(code);
  }

  /** What a round does not change. */
  lemma BlockStays(code: seq<Instruction>, w: Work, w': Work, b: nat)
    requires BlockDone(code, w, b) && Grows(w.stacks, w'.stacks)
    requires b in w'.blocks && w'.blocks[b] == w.blocks[b] && b in w'.places && w'.places[b] == w.places[b]
    ensures BlockDone(code, w', b) && (BlockAgrees(code, w', b) <==> BlockAgrees(code, w, b))
  {
    GrownAgrees(w.stacks, w'.stacks, BlockPiece(code, b, w.places[b]).edges);
  }

  lemma TranslatedQueued(code: seq<Instruction>, w: Work)
    requires Queued(w) && Reached(code, w) && w.queue != []
    ensures Able(code, w) && w.queue[0] !in w.blocks && Queued(Translated(code, w))
  {
    OneTaken(w.queue, w.stacks.Keys, w.blocks.Keys);
    assert Translated(code, w).blocks.Keys == w.blocks.Keys + {w.queue[0]};
  }

  lemma TranslatedReached(code: seq<Instruction>, w: Work)
    requires WellFormed(code) && Able(code, w) && Reached(code, w)
    ensures Reached(code, Translated(code, w))
    ensures var edges := BlockPiece(code, w.queue[0], PlaceOf(code, w)).edges;
      forall j :: 0 <= j < |edges| ==> EdgeFine(code, edges[j], Translated(code, w).next)
  {
    CompileFine(code, w.queue[0], BlockEnd(code, w.queue[0]), w.stacks[w.queue[0]], w.next);
  }

  /** A round translates one more block, follows its edges, and leaves the rest alone. */
  lemma RoundAdds(code: seq<Instruction>, w: Work)
    requires WellFormed(code) && Queued(w) && Reached(code, w) && w.queue != []
    ensures Able(code, w)
    ensures var b, place, w' := w.queue[0], PlaceOf(code, w), Round(code, w);
            var p := BlockPiece(code, b, place);
      && b !in w.blocks && Queued(w') && Reached(code, w') && Grows(w.stacks, w'.stacks)
      && w'.blocks == w.blocks[b := Block(p.body, p.term)] && w'.places == w.places[b := place]
      && AllLead(w'.stacks, p.edges) && w'.agreed == (w.agreed && AllAgree(w'.stacks, p.edges))
  {
    TranslatedQueued(code, w);
    TranslatedReached(code, w);
    FollowAllKeeps(code, Translated(code, w), BlockPiece(code, w.queue[0], PlaceOf(code, w)).edges);
  }

  lemma RoundKeys(code: seq<Instruction>, w: Work)
    requires WellFormed(code) && Queued(w) && Reached(code, w) && w.queue != []
    ensures Able(code, w) && Queued(Round(code, w)) && Reached(code, Round(code, w))
    ensures Round(code, w).blocks.Keys == w.blocks.Keys + {w.queue[0]} && w.queue[0] !in w.blocks
    ensures Grows(w.stacks, Round(code, w).stacks)
  {
    RoundAdds(code, w);
  }

  lemma NewBlockDone(code: seq<Instruction>, w: Work)
    requires WellFormed(code) && Queued(w) && Reached(code, w) && w.queue != []
    ensures Able(code, w) && BlockDone(code, Round(code, w), w.queue[0])
    ensures Round(code, w).agreed == (w.agreed && BlockAgrees(code, Round(code, w), w.queue[0]))
  {
    RoundAdds(code, w);
  }

  lemma OldBlockDone(code: seq<Instruction>, w: Work, b: nat)
    requires WellFormed(code) && Queued(w) && Reached(code, w) && w.queue != [] && BlockDone(code, w, b)
    ensures Able(code, w) && BlockDone(code, Round(code, w), b)
    ensures BlockAgrees(code, Round(code, w), b) <==> BlockAgrees(code, w, b)
  {
    RoundAdds(code, w);
    BlockStays(code, w, Round(code, w), b);
  }

  /** A round keeps all of it, and translates one more block. */
  lemma RoundConsistent(code: seq<Instruction>, w: Work)
    requires WellFormed(code) && Consistent(code, w) && w.queue != []
    ensures Able(code, w) && Consistent(code, Round(code, w))
    ensures Round(code, w).blocks.Keys == w.blocks.Keys + {w.queue[0]} && w.queue[0] !in w.blocks
    ensures Grows(w.stacks, Round(code, w).stacks)
  {
    RoundKeys(code, w);
    NewBlockDone(code, w);
    forall x | x in w.blocks
      ensures BlockDone(code, Round(code, w), x)
      ensures BlockAgrees(code, Round(code, w), x) <==> BlockAgrees(code, w, x)
    {
      OldBlockDone(code, w, x);
    }
    AllOfThem(code, w, Round(code, w), w.queue[0]);
  }

  lemma AllOfThem(code: seq<Instruction>, w: Work, w': Work, b: nat)
    requires w'.blocks.Keys == w.blocks.Keys + {b} && Queued(w') && Reached(code, w')
    requires BlockDone(code, w', b) && w'.agreed == (w.agreed && BlockAgrees(code, w', b))
    requires forall x <- w.blocks :: BlockDone(code, w', x) && (BlockAgrees(code, w', x) <==> BlockAgrees(code, w, x))
    requires w.agreed <==> forall x <- w.blocks :: BlockAgrees(code, w, x)
    ensures Consistent(code, w')
  {
    forall x | x in w'.blocks
      ensures BlockDone(code, w', x)
    {
      assert x == b || x in w.blocks;
    }
    if w'.agreed {
      forall x | x in w'.blocks
        ensures BlockAgrees(code, w', x)
      {
        assert x == b || x in w.blocks;
      }
    }
    assert b in w'.blocks && forall x <- w.blocks :: x in w'.blocks;
  }

  /** Once the queue is empty, further rounds change nothing. */
  lemma RoundsStop(code: seq<Instruction>, w: Work, n: nat, m: nat)
    requires Rounds(code, w, n).queue == [] && Rounds(code, w, m).queue == []
    ensures Rounds(code, w, n) == Rounds(code, w, m)
  {
    var step := (x: Work) => RoundIfAble(code, x);
    if n <= m {
      RepeatStays(step, w, n, m - n);
    } else {
      RepeatStays(step, w, m, n - m);
    }
  }

  lemma OneMoreRound(code: seq<Instruction>, w: Work, n: nat)
    requires Able(code, Rounds(code, w, n))
    ensures Rounds(code, w, n + 1) == Round(code, Rounds(code, w, n))
  {
    RepeatOnce((x: Work) => RoundIfAble(code, x), w, n);
  }

  /** The edges of a translated block lead into every closed set that holds the block. */
  lemma EdgesInside(code: seq<Instruction>, b: nat, vec: seq<nat>, next: nat, reach: set<nat>)
    requires b < |code| && b in reach && Closed(code, reach)
    ensures LeadInto(Compile(code, b, BlockEnd(code, b), vec, next).edges, reach)
  {
    var edges := Compile(code, b, BlockEnd(code, b), vec, next).edges;
    forall j | 0 <= j < |edges| && edges[j].target.ToBlock?
      ensures edges[j].target.id in reach
    {
      assert HasEdge(code, b, edges[j].target.id);
    }
  }

  /** The blocks that edges lead to. */
  ghost predicate LeadInto(edges: seq<Edge>, reach: set<nat>) {
    forall j :: 0 <= j < |edges| && edges[j].target.ToBlock? ==> edges[j].target.id in reach
  }

  /** An edge from block `b` to block `x`, whatever the stack. */
  ghost predicate HasEdge(code: seq<Instruction>, b: nat, x: nat) {
    b < |code| && exists vec, next, j ::
      var edges := Compile(code, b, BlockEnd(code, b), vec, next).edges;
      0 <= j < |edges| && edges[j].target == ToBlock(x)
  }

  /** A set of blocks that control does not leave. */
  ghost predicate Closed(code: seq<Instruction>, s: set<nat>) {
    0 in s && forall b, x :: b in s && HasEdge(code, b, x) ==> x in s
  }

  /** The table of blocks by their start. */
  function BlockEnds(chunks: seq<Chunk>): map<nat, nat> {
    if chunks == [] then map[]
    else
      var last := chunks[|chunks| - 1];
      BlockEnds(chunks[..|chunks| - 1])[last.from := last.to]
  }

  /** `ends` describes the function's blocks. */
  ghost predicate Split(code: seq<Instruction>, ends: map<nat, nat>) {
    && WellFormed(code) && |code| > 0
    && (forall b {:trigger IsBlock(code, ends, b)} :: b in ends ==> IsBlock(code, ends, b))
    && forall b <- Leaders(code) :: b < |code| ==> b in ends
  }

  ghost predicate IsBlock(code: seq<Instruction>, ends: map<nat, nat>, b: nat)
    requires b in ends
  {
    b < |code| && b in Leaders(code) && ends[b] == BlockEnd(code, b)
  }

  lemma StartsAtLast(chunks: seq<Chunk>, b: nat)
    requires chunks != []
    ensures StartsAt(chunks, b) <==> StartsAt(chunks[..|chunks| - 1], b) || chunks[|chunks| - 1].from == b
  {
    var n := |chunks| - 1;
    if StartsAt(chunks[..n], b) {
      var k :| 0 <= k < n && chunks[..n][k].from == b;
      assert chunks[k].from == b;
    }
    if StartsAt(chunks, b) {
      var k :| 0 <= k < |chunks| && chunks[k].from == b;
      assert k < n ==> chunks[..n][k].from == b;
    }
  }

  lemma {:induction false} BlockEndsKeys(chunks: seq<Chunk>, b: nat)
    ensures b in BlockEnds(chunks) <==> StartsAt(chunks, b)
  {
    if chunks != [] {
      StartsAtLast(chunks, b);
      BlockEndsKeys(chunks[..|chunks| - 1], b);
    }
  }

  lemma {:induction false} BlockEndsRight(code: seq<Instruction>, chunks: seq<Chunk>)
    requires forall c <- chunks :: c.from < |code| && c.to == BlockEnd(code, c.from)
    ensures forall b <- BlockEnds(chunks) :: b < |code| && BlockEnds(chunks)[b] == BlockEnd(code, b)
  {
    if chunks != [] {
      var n := |chunks| - 1;
      BlockEndsRight(code, chunks[..n]);
      assert chunks[n] in chunks;
    }
  }

  lemma BlocksSplit(code: seq<Instruction>, chunks: seq<Chunk>)
    requires WellFormed(code) && |code| > 0 && AreBlocks(code, chunks)
    ensures Split(code, BlockEnds(chunks)) && 0 in BlockEnds(chunks)
  {
    BlockEndsRight(code, chunks);
    forall b: nat
      ensures b in BlockEnds(chunks) <==> StartsAt(chunks, b)
    {
      BlockEndsKeys(chunks, b);
    }
    forall b | b in BlockEnds(chunks)
      ensures b in Leaders(code)
    {
      var k :| 0 <= k < |chunks| && chunks[k].from == b;
    }
    assert 0 in Leaders(code);
  }

  /** The compiler's state for one function. */
  class FunctionCompiler {
    const code: seq<Instruction>
    const ends: map<nat, nat>                 // every block and where it ends
    var stacks: map<nat, seq<nat>>            // the stack a block was first reached with
    var scheduled: set<nat>                   // blocks that have been queued
    var queue: seq<nat>
    var blocks: map<nat, Block>
    var next: nat                             // the next unused slot
    ghost var places: map<nat, Place>
    ghost var agreed: bool                    // every edge so far carried its target's stack
    ghost var rounds: nat                     // how many blocks have been compiled

    ghost function Current(): Work
      reads this
    {
      Work(stacks, queue, blocks, places, next, agreed)
    }

    /** None of the blocks has been reached but the first, which holds the arguments. */
    constructor (code: seq<Instruction>, ends: map<nat, nat>, nargs: nat)
      ensures this.code == code && this.ends == ends && Current() == First(nargs) && scheduled == stacks.Keys
      ensures rounds == 0
    {
      this.code, this.ends := code, ends;
      stacks := map[0 := seq(nargs, j => j)];
      scheduled, queue, blocks, next := {0}, [0], map[], nargs;
      places, agreed, rounds := map[], true, 0;
    }

    /** `copyOrCheckStack`: the first stack a block is reached with is kept; others are not
        compared with it. */
    method CopyOrCheckStack(b: nat, vec: seq<nat>)
      modifies this`stacks, this`agreed
      ensures stacks == if b in old(stacks) then old(stacks) else old(stacks)[b := vec]
      ensures agreed == (old(agreed) && stacks[b] == vec)
    {
      if b !in stacks {
        stacks := stacks[b := vec];
      }
      agreed := agreed && stacks[b] == vec;
    }

    method AddToCompilationQueue(b: nat)
      modifies this`scheduled, this`queue
      ensures scheduled == old(scheduled) + {b}
      ensures queue == if b in old(scheduled) then old(queue) else old(queue) + [b]
    {
      if b !in scheduled {
        scheduled := scheduled + {b};
        queue := queue + [b];
      }
    }

    /** `checkAndCopyStack`: follow one edge. */
    method CheckAndCopyStack(e: Edge)
      requires scheduled == stacks.Keys
      modifies this`stacks, this`agreed, this`scheduled, this`queue
      ensures Current() == Follow(old(Current()), e) && scheduled == stacks.Keys
    {
      if e.target.ToBlock? {
        CopyOrCheckStack(e.target.id, e.vec);
        AddToCompilationQueue(e.target.id);
      }
    }

    /** Follow the edges out of a block, in order. */
    method FollowEdges(edges: seq<Edge>)
      requires scheduled == stacks.Keys
      modifies this`stacks, this`agreed, this`scheduled, this`queue
      ensures Current() == FollowAll(old(Current()), edges) && scheduled == stacks.Keys
    {
      for k := 0 to |edges|
        invariant Current() == FollowAll(old(Current()), edges[..k]) && scheduled == stacks.Keys
      {
        assert edges[..k + 1][..k] == edges[..k];
        CheckAndCopyStack(edges[k]);
      }
      assert edges[..|edges|] == edges;
    }

    /** `getNextToCompile`. */
    method GetNextToCompile() returns (b: nat)
      requires queue != []
      modifies this`queue
      ensures b == old(queue)[0] && queue == old(queue)[1..]
      ensures QueueOk(old(queue), stacks.Keys, blocks.Keys) ==>
        b in stacks && b !in blocks && QueueOk(queue, stacks.Keys, blocks.Keys + {b})
    {
      if QueueOk(queue, stacks.Keys, blocks.Keys) {
        OneTaken(queue, stacks.Keys, blocks.Keys);
      }
      b := queue[0];
      queue := queue[1..];
    }

    /** Translate block `b` from the stack it was first reached with. */
    method TranslateBlock(b: nat, ghost before: Work) returns (edges: seq<Edge>)
      requires b in ends && b < |code| && ends[b] == BlockEnd(code, b) && b in stacks && Able(code, before)
      requires before.queue[0] == b && Current() == before.(queue := before.queue[1..])
      modifies this`blocks, this`places, this`next
      ensures Current() == Translated(code, before)
      ensures edges == BlockPiece(code, b, PlaceOf(code, before)).edges
    {
      var p := Translate(code, b, ends[b], stacks[b], next);
      places := places[b := Place(ends[b], stacks[b], next)];
      blocks := blocks[b := Block(p.body, p.term)];
      next := p.next;
      edges := p.edges;
    }

    /** `makeBasicBlock`: translate block `b`, which has just left the queue, and follow its edges. */
    method MakeBasicBlock(b: nat, ghost before: Work)
      requires b in ends && b < |code| && ends[b] == BlockEnd(code, b) && b in stacks && Able(code, before)
      requires before.queue[0] == b && Current() == before.(queue := before.queue[1..]) && scheduled == stacks.Keys
      modifies this`stacks, this`agreed, this`scheduled, this`queue, this`blocks, this`places, this`next
      ensures Current() == Round(code, before) && scheduled == stacks.Keys
    {
      var edges := TranslateBlock(b, before);
      FollowEdges(edges);
    }

    /** One block: the front of the queue. */
    method CompileNext()
      requires Able(code, Current()) && queue[0] in ends && ends[queue[0]] == BlockEnd(code, queue[0])
      requires scheduled == stacks.Keys
      modifies this
      ensures Current() == Round(code, old(Current())) && scheduled == stacks.Keys && rounds == old(rounds) + 1
    {
      ghost var before := Current();
      var b := GetNextToCompile();
      MakeBasicBlock(b, before);
      rounds := rounds + 1;
    }
  }

  /** A block that has been reached is one of the function's. */
  lemma BlockOf(code: seq<Instruction>, ends: map<nat, nat>, w: Work, b: nat)
    requires Split(code, ends) && Reached(code, w) && b in w.stacks
    ensures b in ends && b < |code| && ends[b] == BlockEnd(code, b)
  {
    assert b in ends && IsBlock(code, ends, b);
  }

  // ------------------------------------------------------------------- what the compiler makes

  /** Block `b` is the translation of its instructions from its entry stack, with its edges leading to blocks
      that are there. */
  ghost predicate IsTranslated(code: seq<Instruction>, blocks: map<nat, Block>, entry: map<nat, Place>, b: nat) {
    && b in blocks && b in entry && b < |code|
    && entry[b].end == BlockEnd(code, b) && Unused(entry[b].vec, entry[b].next)
    && var p := BlockPiece(code, b, entry[b]);
    && blocks[b] == Block(p.body, p.term)
    && forall j :: 0 <= j < |p.edges| && p.edges[j].target.ToBlock? ==> p.edges[j].target.id in blocks
  }

  ghost predicate AllTranslated(code: seq<Instruction>, blocks: map<nat, Block>, entry: map<nat, Place>) {
    forall b <- blocks :: IsTranslated(code, blocks, entry, b)
  }

  lemma OneTranslated(code: seq<Instruction>, w: Work, b: nat)
    requires BlockDone(code, w, b) && w.stacks.Keys <= w.blocks.Keys
    ensures IsTranslated(code, w.blocks, w.places, b)
  {
    hide Compile;
    var edges := BlockPiece(code, b, w.places[b]).edges;
    forall j | 0 <= j < |edges| && edges[j].target.ToBlock?
      ensures edges[j].target.id in w.blocks
    {
      assert Leads(w.stacks, edges[j]);
    }
  }

  lemma DoneTranslated(code: seq<Instruction>, w: Work)
    requires Consistent(code, w) && w.queue == []
    ensures AllTranslated(code, w.blocks, w.places) && w.blocks.Keys == w.stacks.Keys
  {
    hide IsTranslated, BlockDone, BlockAgrees;
    forall b | b in w.stacks
      ensures b in w.blocks
    {
      assert b !in w.queue;
    }
    forall b | b in w.blocks
      ensures IsTranslated(code, w.blocks, w.places, b)
    {
      OneTranslated(code, w, b);
    }
  }

  /** The edges out of a block are met if and only if they agreed. */
  lemma MetIfAgreed(code: seq<Instruction>, w: Work, b: nat)
    requires Consistent(code, w) && w.queue == [] && b in w.blocks
    ensures BlockDone(code, w, b)
    ensures BlockAgrees(code, w, b) <==> EdgesMet(w.blocks, w.places, BlockPiece(code, b, w.places[b]).edges)
  {
    DoneTranslated(code, w);
    assert BlockDone(code, w, b);
    var edges := BlockPiece(code, b, w.places[b]).edges;
    forall j | 0 <= j < |edges|
      ensures Agrees(w.stacks, edges[j]) <==> EdgeMet(w.blocks, w.places, edges[j])
    {
      assert Leads(w.stacks, edges[j]);
      if edges[j].target.ToBlock? {
        assert BlockDone(code, w, edges[j].target.id);
      }
    }
  }

  /** The comparison that `copyOrCheckStack` once asserted held every time if and only if the result is a
      program. */
  lemma AgreedIffProgram(code: seq<Instruction>, w: Work)
    requires Consistent(code, w) && w.queue == []
    ensures w.agreed <==> Program(code, w.blocks, w.places)
  {
    DoneTranslated(code, w);
    forall b | b in w.blocks
      ensures BlockAgrees(code, w, b) <==> EdgesMet(w.blocks, w.places, BlockPiece(code, b, w.places[b]).edges)
    {
      MetIfAgreed(code, w, b);
    }
  }

  /** The blocks reached lie in every set that control does not leave. */
  lemma RoundInside(code: seq<Instruction>, w: Work, reach: set<nat>)
    requires WellFormed(code) && Consistent(code, w) && w.queue != [] && Closed(code, reach) && w.stacks.Keys <= reach
    ensures Able(code, w) && Round(code, w).stacks.Keys <= reach
  {
    var b := w.queue[0];
    assert b in w.queue;
    var edges := BlockPiece(code, b, PlaceOf(code, w)).edges;
    EdgesInside(code, b, w.stacks[b], w.next, reach);
    FollowedInside(Translated(code, w), edges, reach);
  }

  lemma {:induction false} FollowedInside(w: Work, edges: seq<Edge>, reach: set<nat>)
    requires w.stacks.Keys <= reach && LeadInto(edges, reach)
    ensures FollowAll(w, edges).stacks.Keys <= reach
    decreases |edges|
  {
    if edges != [] {
      var n := |edges| - 1;
      assert forall j :: 0 <= j < n ==> edges[..n][j] == edges[j];
      FollowedInside(w, edges[..n], reach);
    }
  }

  /** Between rounds, having begun at `start`: nothing reached is forgotten, and nothing outside a set that
      control does not leave is reached. */
  ghost predicate KeepsFrom(code: seq<Instruction>, start: Work, reach: set<nat>, w: Work) {
    && Consistent(code, w) && Grows(start.stacks, w.stacks)
    && (Closed(code, reach) && start.stacks.Keys <= reach ==> w.stacks.Keys <= reach)
  }

  lemma RoundKeepsFrom(code: seq<Instruction>, start: Work, reach: set<nat>, w: Work)
    requires WellFormed(code) && KeepsFrom(code, start, reach, w)
    ensures KeepsFrom(code, start, reach, RoundIfAble(code, w))
  {
    if Able(code, w) {
      RoundConsistent(code, w);
      if Closed(code, reach) && start.stacks.Keys <= reach {
        RoundInside(code, w, reach);
      }
    }
  }

  lemma RoundsKeep(code: seq<Instruction>, start: Work, n: nat, reach: set<nat>)
    requires WellFormed(code) && Consistent(code, start)
    ensures KeepsFrom(code, start, reach, Rounds(code, start, n))
  {
    var step, inv := (w: Work) => RoundIfAble(code, w), (w: Work) => KeepsFrom(code, start, reach, w);
    forall w | Has(inv, w)
      ensures Has(inv, step(w))
    {
      RoundKeepsFrom(code, start, reach, w);
    }
    RepeatKeeps(step, inv, start, n);
  }

  /** Every block taken from the queue has an entry stack and has not been compiled before. */
  lemma NextRound(code: seq<Instruction>, ends: map<nat, nat>, nargs: nat, n: nat)
    requires Split(code, ends) && Rounds(code, First(nargs), n).queue != []
    ensures var w := Rounds(code, First(nargs), n);
      && Able(code, w) && Rounds(code, First(nargs), n + 1) == Round(code, w)
      && w.queue[0] in ends && ends[w.queue[0]] == BlockEnd(code, w.queue[0])
      && w.queue[0] in w.stacks && w.queue[0] !in w.blocks
      && Round(code, w).blocks.Keys == w.blocks.Keys + {w.queue[0]}
  {
    var w := Rounds(code, First(nargs), n);
    FirstConsistent(code, nargs);
    RoundsKeep(code, First(nargs), n, {});
    RoundConsistent(code, w);
    OneMoreRound(code, First(nargs), n);
    BlockOf(code, ends, w, w.queue[0]);
  }

  /** What the rounds come to. */
  lemma RoundsEnd(code: seq<Instruction>, nargs: nat, n: nat)
    requires WellFormed(code) && |code| > 0 && Rounds(code, First(nargs), n).queue == []
    ensures var w := Rounds(code, First(nargs), n);
      && AllTranslated(code, w.blocks, w.places) && (w.agreed <==> Program(code, w.blocks, w.places))
      && 0 in w.blocks && 0 in w.places && w.places[0].vec == seq(nargs, j => j)
  {
    var w := Rounds(code, First(nargs), n);
    FirstConsistent(code, nargs);
    RoundsKeep(code, First(nargs), n, {});
    assert 0 in First(nargs).stacks;
    DoneTranslated(code, w);
    EntryPlace(code, w);
    AgreedIffProgram(code, w);
  }

  lemma OnlyReachable(code: seq<Instruction>, nargs: nat, n: nat, reach: set<nat>)
    requires WellFormed(code) && |code| > 0 && Rounds(code, First(nargs), n).queue == [] && Closed(code, reach)
    ensures Rounds(code, First(nargs), n).blocks.Keys <= reach
  {
    FirstConsistent(code, nargs);
    RoundsKeep(code, First(nargs), n, reach);
    DoneTranslated(code, Rounds(code, First(nargs), n));
  }

  lemma EntryPlace(code: seq<Instruction>, w: Work)
    requires Consistent(code, w) && w.queue == [] && 0 in w.stacks
    ensures 0 in w.blocks && 0 in w.places && w.places[0].vec == w.stacks[0]
  {
    DoneTranslated(code, w);
    assert BlockDone(code, w, 0);
  }

  /** `makeFunction`: compile blocks from the queue until it is empty. What it makes is what the rounds
      make: translations of exactly the blocks that control can reach, and a program if and only if every
      edge agreed. */
  method MakeFunction(code: seq<Instruction>, nargs: nat, ghost reach: set<nat>)
    returns (blocks: map<nat, Block>, ghost entry: map<nat, Place>, ghost agreed: bool, ghost rounds: nat)
    requires WellFormed(code) && |code| > 0
    ensures var w := Rounds(code, First(nargs), rounds);
      w.queue == [] && blocks == w.blocks && entry == w.places && agreed == w.agreed
    ensures AllTranslated(code, blocks, entry) && 0 in blocks && 0 in entry && entry[0].vec == seq(nargs, j => j)
    ensures Closed(code, reach) ==> blocks.Keys <= reach
    ensures agreed <==> Program(code, blocks, entry)
  {
    var chunks := GetBlocks(code);
    BlocksSplit(code, chunks);
    var c := CompileQueue(code, BlockEnds(chunks), nargs);
    rounds := c.rounds;
    RoundsEnd(code, nargs, rounds);
    if Closed(code, reach) {
      OnlyReachable(code, nargs, rounds, reach);
    }
    blocks, entry, agreed := c.blocks, c.places, c.agreed;
  }

  /** The loop of `makeFunction`. */
  method CompileQueue(code: seq<Instruction>, ends: map<nat, nat>, nargs: nat) returns (c: FunctionCompiler)
    requires Split(code, ends)
    ensures fresh(c) && c.Current() == Rounds(code, First(nargs), c.rounds) && c.queue == []
  {
    c := new FunctionCompiler(code, ends, nargs);
    while c.queue != []
      invariant fresh(c) && c.code == code && c.ends == ends && c.scheduled == c.stacks.Keys
      invariant c.Current() == Rounds(code, First(nargs), c.rounds)
      decreases ends.Keys - c.blocks.Keys
    {
      NextRound(code, ends, nargs, c.rounds);
      c.CompileNext();
    }
  }
}
