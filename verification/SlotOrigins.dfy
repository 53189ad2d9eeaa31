/** Exactly when compiled code is right: when the operands on a block's stack were pushed by the same
    instructions whichever way control comes to it. */
module SlotOrigins {
  import opened BlockSplit
  import opened SlotCode
  import opened SlotCompiler
  import opened SlotSimulation

  /** What an operand is: an argument of the function, or what the instruction at `i` pushed. */
  datatype Origin = Argument(j: nat) | Pushed(i: nat)

  datatype Carried = Carried(target: Target, vec: seq<Origin>)

  /** The edges out of a block and the operands that they carry, from the instruction at `i` on. */
  function OriginEdges(code: seq<Instruction>, i: nat, end: nat, vec: seq<Origin>): seq<Carried>
    requires end <= |code|
    decreases end - i
  {
    if i >= end then [Carried(After(code, end), vec)]
    else if !Translatable(code[i], vec) then []
    else if EndsBlock(code[i]) then
      var edges := Ending(code, i, end, [], 0).edges;
      seq(|edges|, k requires 0 <= k < |edges| => Carried(edges[k].target, vec))
    else OriginEdges(code, i + 1, end, VecAfter(code[i], vec, Pushed(i)))
  }

  ghost function BlockEdges(code: seq<Instruction>, b: nat, vec: seq<Origin>): seq<Carried>
    requires b < |code|
  {
    OriginEdges(code, b, BlockEnd(code, b), vec)
  }

  predicate Meets(origins: map<nat, seq<Origin>>, e: Carried) {
    e.target.ToBlock? ==> e.target.id in origins && origins[e.target.id] == e.vec
  }

  ghost predicate AllMeet(origins: map<nat, seq<Origin>>, edges: seq<Carried>) {
    forall k :: 0 <= k < |edges| ==> Meets(origins, edges[k])
  }

  function Arguments(nargs: nat): seq<Origin> {
    seq(nargs, j requires 0 <= j < nargs => Argument(j))
  }

  /** A condition on the code alone: each block that control can come to has one list of origins for its
      operands, which every edge into it carries. */
  ghost predicate Sourced(code: seq<Instruction>, nargs: nat, origins: map<nat, seq<Origin>>) {
    && 0 in origins && origins[0] == Arguments(nargs)
    && forall b <- origins :: b < |code| ==> AllMeet(origins, BlockEdges(code, b, origins[b]))
  }

  // ------------------------------------------------------------------- slots stand for origins

  ghost predicate Known(slot: map<Origin, nat>, vec: seq<Origin>) {
    forall k :: 0 <= k < |vec| ==> vec[k] in slot
  }

  ghost function Slots(slot: map<Origin, nat>, vec: seq<Origin>): (r: seq<nat>)
    requires Known(slot, vec)
    ensures |r| == |vec| && forall k :: 0 <= k < |vec| ==> r[k] == slot[vec[k]]
  {
    seq(|vec|, k requires 0 <= k < |vec| => slot[vec[k]])
  }

  /** No slot stands for two origins, and those from `next` on for none. */
  ghost predicate Apart(slot: map<Origin, nat>, next: nat) {
    && (forall o <- slot :: slot[o] < next)
    && forall o, p :: o in slot && p in slot && slot[o] == slot[p] ==> o == p
  }

  ghost predicate Extends(slot: map<Origin, nat>, slot': map<Origin, nat>) {
    forall o <- slot :: o in slot' && slot'[o] == slot[o]
  }

  lemma SlotsExtend(slot: map<Origin, nat>, slot': map<Origin, nat>, vec: seq<Origin>)
    requires Known(slot, vec) && Extends(slot, slot')
    ensures Known(slot', vec) && Slots(slot', vec) == Slots(slot, vec)
  {
  }

  lemma SameSlots(slot: map<Origin, nat>, next: nat, a: seq<Origin>, b: seq<Origin>)
    requires Apart(slot, next) && Known(slot, a) && Known(slot, b) && Slots(slot, a) == Slots(slot, b)
    ensures a == b
  {
    assert |a| == |Slots(slot, a)| == |b|;
    forall k | 0 <= k < |a|
      ensures a[k] == b[k]
    {
      assert Slots(slot, a)[k] == Slots(slot, b)[k];
    }
  }

  /** The edges that the compiler follows, and what their stacks stand for. */
  ghost predicate Stands(slot: map<Origin, nat>, edges: seq<Edge>, origins: seq<Carried>) {
    && |edges| == |origins|
    && forall k :: 0 <= k < |edges| ==> StandsFor(slot, edges[k], origins[k])
  }

  ghost predicate StandsFor(slot: map<Origin, nat>, e: Edge, o: Carried) {
    e.target == o.target && Known(slot, o.vec) && e.vec == Slots(slot, o.vec)
  }

  /** The block goes on behind the instruction at `i`. */
  predicate GoesOn(code: seq<Instruction>, i: nat, end: nat, vec: seq<Origin>) {
    i < end <= |code| && Translatable(code[i], vec) && !EndsBlock(code[i])
  }

  lemma EndStands(code: seq<Instruction>, i: nat, end: nat, vec: seq<Origin>, next: nat, slot: map<Origin, nat>)
    requires i <= end <= |code| && !GoesOn(code, i, end, vec) && Known(slot, vec)
    ensures var p := Compile(code, i, end, Slots(slot, vec), next);
      Stands(slot, p.edges, OriginEdges(code, i, end, vec)) && p.next == next
  {
  }

  lemma OnStands(code: seq<Instruction>, i: nat, end: nat, vec: seq<Origin>, next: nat, slot: map<Origin, nat>)
    requires GoesOn(code, i, end, vec) && Known(slot, vec)
    ensures var p := Compile(code, i, end, Slots(slot, vec), next);
            var rest := Compile(code, i + 1, end, VecAfter(code[i], Slots(slot, vec), next), NextAfter(code[i], next));
      p.edges == rest.edges && p.next == rest.next
    ensures OriginEdges(code, i, end, vec) == OriginEdges(code, i + 1, end, VecAfter(code[i], vec, Pushed(i)))
  {
  }

  lemma AfterStands(c: Instruction, vec: seq<Origin>, slot: map<Origin, nat>, o: Origin)
    requires Known(slot, vec) && o in slot
    ensures Known(slot, VecAfter(c, vec, o))
    ensures Slots(slot, VecAfter(c, vec, o)) == VecAfter(c, Slots(slot, vec), slot[o])
  {
  }

  /** The slots that a block's pushes are given; `slot'` knows those of its instructions from `i` on. */
  ghost predicate Given(code: seq<Instruction>, i: nat, end: nat, slot: map<Origin, nat>, slot': map<Origin, nat>) {
    && Extends(slot, slot')
    && forall o <- slot' :: o in slot || (o.Pushed? && i <= o.i < end)
  }

  lemma {:induction false} CompileStands(code: seq<Instruction>, i: nat, end: nat, vec: seq<Origin>, next: nat,
                                         slot: map<Origin, nat>)
    returns (slot': map<Origin, nat>)
    requires i <= end <= |code| && Known(slot, vec) && Apart(slot, next)
    requires forall k :: i <= k < end ==> Pushed(k) !in slot
    ensures var p := Compile(code, i, end, Slots(slot, vec), next);
      Stands(slot', p.edges, OriginEdges(code, i, end, vec)) && Apart(slot', p.next)
    ensures Given(code, i, end, slot, slot')
    decreases end - i
  {
    hide Compile, OriginEdges, VecAfter, Stands;
    if !GoesOn(code, i, end, vec) {
      EndStands(code, i, end, vec, next, slot);
      return slot;
    }
    OnStands(code, i, end, vec, next, slot);
    if code[i].Push? {
      var more := slot[Pushed(i) := next];
      SlotsExtend(slot, more, vec);
      AfterStands(code[i], vec, more, Pushed(i));
      slot' := CompileStands(code, i + 1, end, VecAfter(code[i], vec, Pushed(i)), next + 1, more);
    } else {
      NotPushed(code[i], vec, slot, Pushed(i), next);
      slot' := CompileStands(code, i + 1, end, VecAfter(code[i], vec, Pushed(i)), next, slot);
    }
  }

  lemma NotPushed(c: Instruction, vec: seq<Origin>, slot: map<Origin, nat>, o: Origin, next: nat)
    requires Known(slot, vec) && !c.Push?
    ensures Known(slot, VecAfter(c, vec, o))
    ensures Slots(slot, VecAfter(c, vec, o)) == VecAfter(c, Slots(slot, vec), next)
  {
  }

  // ------------------------------------------------------------------- rounds

  ghost predicate StacksStand(stacks: map<nat, seq<nat>>, slot: map<Origin, nat>, origins: map<nat, seq<Origin>>) {
    forall b <- stacks :: b in origins && Known(slot, origins[b]) && stacks[b] == Slots(slot, origins[b])
  }

  lemma StacksExtend(stacks: map<nat, seq<nat>>, slot: map<Origin, nat>, slot': map<Origin, nat>,
                     origins: map<nat, seq<Origin>>)
    requires StacksStand(stacks, slot, origins) && Extends(slot, slot')
    ensures StacksStand(stacks, slot', origins)
  {
    forall b | b in stacks
      ensures Known(slot', origins[b]) && stacks[b] == Slots(slot', origins[b])
    {
      SlotsExtend(slot, slot', origins[b]);
    }
  }

  /** The instruction at `i` is in a block that has been translated. */
  ghost predicate InDone(code: seq<Instruction>, done: set<nat>, i: nat) {
    exists x :: x in done && x < |code| && x <= i < BlockEnd(code, x)
  }

  /** Slots have been given to pushes of translated blocks only, and the stacks of the blocks reached are those
      of their origins. */
  ghost predicate Placed(code: seq<Instruction>, w: Work, slot: map<Origin, nat>, origins: map<nat, seq<Origin>>) {
    && Apart(slot, w.next) && StacksStand(w.stacks, slot, origins)
    && forall o <- slot :: o.Pushed? ==> InDone(code, w.blocks.Keys, o.i)
  }

  lemma FirstPlaced(code: seq<Instruction>, nargs: nat, origins: map<nat, seq<Origin>>) returns (slot: map<Origin, nat>)
    requires 0 in origins && origins[0] == Arguments(nargs)
    ensures Placed(code, First(nargs), slot, origins)
  {
    slot := map j | 0 <= j < nargs :: Argument(j) := j;
    assert Slots(slot, origins[0]) == First(nargs).stacks[0];
  }

  /** Blocks do not overlap. */
  lemma SameBlock(code: seq<Instruction>, x: nat, b: nat, i: nat)
    requires x < |code| && b < |code| && x in Leaders(code) && b in Leaders(code)
    requires x <= i < BlockEnd(code, x) && b <= i < BlockEnd(code, b)
    ensures x == b
  {
    hide Leaders;
  }

  lemma NotDone(code: seq<Instruction>, done: set<nat>, b: nat, i: nat)
    requires b < |code| && b in Leaders(code) && b !in done && b <= i < BlockEnd(code, b)
    requires forall x <- done :: x in Leaders(code)
    ensures !InDone(code, done, i)
  {
    hide BlockEnd, Leaders;
    if InDone(code, done, i) {
      var x :| x in done && x < |code| && x <= i < BlockEnd(code, x);
      SameBlock(code, x, b, i);
    }
  }

  /** The block at the front is translated: its pushes get slots, and its edges carry those of their origins. */
  lemma FrontStands(code: seq<Instruction>, w: Work, slot: map<Origin, nat>, origins: map<nat, seq<Origin>>)
    returns (slot': map<Origin, nat>)
    requires WellFormed(code) && Consistent(code, w) && w.queue != [] && Placed(code, w, slot, origins)
    ensures Able(code, w) && w.queue[0] in origins
    ensures var b := w.queue[0];
      Stands(slot', BlockPiece(code, b, PlaceOf(code, w)).edges, BlockEdges(code, b, origins[b]))
    ensures Placed(code, Translated(code, w), slot', origins)
  {
    RoundAdds(code, w);
    var b := w.queue[0];
    forall k | b <= k < BlockEnd(code, b)
      ensures Pushed(k) !in slot
    {
      NotDone(code, w.blocks.Keys, b, k);
    }
    slot' := CompileStands(code, b, BlockEnd(code, b), origins[b], w.next, slot);
    StacksExtend(w.stacks, slot, slot', origins);
    PlacedAfter(code, w, slot, slot', origins);
  }

  lemma PlacedAfter(code: seq<Instruction>, w: Work, slot: map<Origin, nat>, slot': map<Origin, nat>,
                    origins: map<nat, seq<Origin>>)
    requires Able(code, w) && Placed(code, w, slot, origins)
    requires Given(code, w.queue[0], BlockEnd(code, w.queue[0]), slot, slot')
    requires Apart(slot', Translated(code, w).next) && StacksStand(w.stacks, slot', origins)
    ensures Placed(code, Translated(code, w), slot', origins)
  {
    var b, done := w.queue[0], Translated(code, w).blocks.Keys;
    assert b in done && w.blocks.Keys <= done;
    forall o | o in slot' && o.Pushed?
      ensures InDone(code, done, o.i)
    {
      if o in slot {
        assert InDone(code, w.blocks.Keys, o.i);
      }
    }
  }

  // ------------------------------------------------------------------- origins that agree make stacks that agree

  lemma {:induction false} FollowAllPlaced(w: Work, edges: seq<Edge>, carried: seq<Carried>, slot: map<Origin, nat>,
                                           origins: map<nat, seq<Origin>>)
    requires w.agreed && StacksStand(w.stacks, slot, origins) && Stands(slot, edges, carried)
    requires AllMeet(origins, carried)
    ensures var w' := FollowAll(w, edges);
      && w'.agreed && StacksStand(w'.stacks, slot, origins)
      && w'.next == w.next && w'.blocks == w.blocks
    decreases |edges|
  {
    if edges != [] {
      var n := |edges| - 1;
      FirstStand(slot, edges, carried);
      assert forall k :: 0 <= k < n ==> carried[..n][k] == carried[k];
      FollowAllPlaced(w, edges[..n], carried[..n], slot, origins);
      assert StandsFor(slot, edges[n], carried[n]) && Meets(origins, carried[n]);
    }
  }

  lemma FirstStand(slot: map<Origin, nat>, edges: seq<Edge>, carried: seq<Carried>)
    requires Stands(slot, edges, carried) && edges != []
    ensures Stands(slot, edges[..|edges| - 1], carried[..|edges| - 1])
  {
    forall k {:trigger edges[k]} | 0 <= k < |edges| - 1
      ensures StandsFor(slot, edges[..|edges| - 1][k], carried[..|edges| - 1][k])
    {
      assert StandsFor(slot, edges[k], carried[k]);
    }
  }

  ghost predicate SomePlaced(code: seq<Instruction>, w: Work, origins: map<nat, seq<Origin>>) {
    exists slot :: Placed(code, w, slot, origins)
  }

  lemma RoundPlaced(code: seq<Instruction>, w: Work, nargs: nat, origins: map<nat, seq<Origin>>)
    requires WellFormed(code) && Consistent(code, w) && w.queue != [] && Sourced(code, nargs, origins)
    requires w.agreed && SomePlaced(code, w, origins)
    ensures Able(code, w) && Round(code, w).agreed && SomePlaced(code, Round(code, w), origins)
  {
    var slot :| Placed(code, w, slot, origins);
    var slot' := FrontStands(code, w, slot, origins);
    var b, w1 := w.queue[0], Translated(code, w);
    FollowAllPlaced(w1, BlockPiece(code, b, PlaceOf(code, w)).edges, BlockEdges(code, b, origins[b]), slot', origins);
    assert Placed(code, Round(code, w), slot', origins);
  }

  lemma SourcedAgrees(code: seq<Instruction>, nargs: nat, n: nat, origins: map<nat, seq<Origin>>)
    requires WellFormed(code) && |code| > 0 && Sourced(code, nargs, origins)
    ensures Rounds(code, First(nargs), n).agreed
  {
    var step := (w: Work) => RoundIfAble(code, w);
    var inv := (w: Work) => Consistent(code, w) && w.agreed && SomePlaced(code, w, origins);
    FirstConsistent(code, nargs);
    var slot := FirstPlaced(code, nargs, origins);
    forall w | Has(inv, w)
      ensures Has(inv, step(w))
    {
      if Able(code, w) {
        RoundConsistent(code, w);
        RoundPlaced(code, w, nargs, origins);
      }
    }
    RepeatKeeps(step, inv, First(nargs), n);
  }

  // ------------------------------------------------------------------- stacks that agree come from origins that do

  /** The blocks reached have origins, and the edges of those translated agree with them. */
  ghost predicate Traced(code: seq<Instruction>, nargs: nat, w: Work, slot: map<Origin, nat>,
                         origins: map<nat, seq<Origin>>) {
    && Placed(code, w, slot, origins) && origins.Keys == w.stacks.Keys
    && 0 in origins && origins[0] == Arguments(nargs)
    && forall b <- w.blocks :: b in origins && b < |code| && AllMeet(origins, BlockEdges(code, b, origins[b]))
  }

  ghost predicate OriginsGrow(origins: map<nat, seq<Origin>>, origins': map<nat, seq<Origin>>) {
    forall b <- origins :: b in origins' && origins'[b] == origins[b]
  }

  lemma AllMeetGrown(origins: map<nat, seq<Origin>>, origins': map<nat, seq<Origin>>, edges: seq<Carried>)
    requires OriginsGrow(origins, origins') && AllMeet(origins, edges)
    ensures AllMeet(origins', edges)
  {
    forall k | 0 <= k < |edges|
      ensures Meets(origins', edges[k])
    {
      assert Meets(origins, edges[k]);
    }
  }

  lemma FollowTraced(w: Work, e: Edge, o: Carried, slot: map<Origin, nat>, origins: map<nat, seq<Origin>>)
    returns (origins': map<nat, seq<Origin>>)
    requires StacksStand(w.stacks, slot, origins) && origins.Keys == w.stacks.Keys && Apart(slot, w.next)
    requires StandsFor(slot, e, o) && Follow(w, e).agreed
    ensures StacksStand(Follow(w, e).stacks, slot, origins') && origins'.Keys == Follow(w, e).stacks.Keys
    ensures OriginsGrow(origins, origins') && Meets(origins', o)
  {
    origins' := origins;
    if e.target.ToBlock? {
      if e.target.id in w.stacks {
        SameSlots(slot, w.next, origins[e.target.id], o.vec);
      } else {
        origins' := origins[e.target.id := o.vec];
      }
    }
  }

  lemma {:induction false} FollowAllTraced(w: Work, edges: seq<Edge>, carried: seq<Carried>, slot: map<Origin, nat>,
                                           origins: map<nat, seq<Origin>>)
    returns (origins': map<nat, seq<Origin>>)
    requires StacksStand(w.stacks, slot, origins) && origins.Keys == w.stacks.Keys && Apart(slot, w.next)
    requires Stands(slot, edges, carried) && FollowAll(w, edges).agreed
    ensures var w' := FollowAll(w, edges);
      && StacksStand(w'.stacks, slot, origins') && origins'.Keys == w'.stacks.Keys
      && w'.next == w.next && w'.blocks == w.blocks
    ensures OriginsGrow(origins, origins') && AllMeet(origins', carried)
    decreases |edges|
  {
    origins' := origins;
    if edges != [] {
      var n := |edges| - 1;
      FirstStand(slot, edges, carried);
      var mid := FollowAllTraced(w, edges[..n], carried[..n], slot, origins);
      assert StandsFor(slot, edges[n], carried[n]);
      origins' := FollowTraced(FollowAll(w, edges[..n]), edges[n], carried[n], slot, mid);
      AllMeetGrown(mid, origins', carried[..n]);
      assert forall k :: 0 <= k < n ==> carried[..n][k] == carried[k];
    }
  }

  ghost predicate SomeTraced(code: seq<Instruction>, nargs: nat, w: Work) {
    exists slot, origins :: Traced(code, nargs, w, slot, origins)
  }

  lemma RoundTraced(code: seq<Instruction>, w: Work, nargs: nat)
    requires WellFormed(code) && Consistent(code, w) && w.queue != [] && SomeTraced(code, nargs, w)
    ensures Able(code, w) && (Round(code, w).agreed ==> SomeTraced(code, nargs, Round(code, w)))
  {
    var slot, origins :| Traced(code, nargs, w, slot, origins);
    var slot' := FrontStands(code, w, slot, origins);
    if Round(code, w).agreed {
      var b, w1 := w.queue[0], Translated(code, w);
      var carried := BlockEdges(code, b, origins[b]);
      var origins' := FollowAllTraced(w1, BlockPiece(code, b, PlaceOf(code, w)).edges, carried, slot', origins);
      forall x | x in Round(code, w).blocks
        ensures x in origins' && x < |code| && AllMeet(origins', BlockEdges(code, x, origins'[x]))
      {
        if x != b {
          AllMeetGrown(origins, origins', BlockEdges(code, x, origins[x]));
        }
      }
      assert Traced(code, nargs, Round(code, w), slot', origins');
    }
  }

  lemma AgreedTraced(code: seq<Instruction>, nargs: nat, n: nat)
    requires WellFormed(code) && |code| > 0 && Rounds(code, First(nargs), n).agreed
    ensures Consistent(code, Rounds(code, First(nargs), n)) && SomeTraced(code, nargs, Rounds(code, First(nargs), n))
  {
    var step := (w: Work) => RoundIfAble(code, w);
    var inv := (w: Work) => Consistent(code, w) && (w.agreed ==> SomeTraced(code, nargs, w));
    FirstConsistent(code, nargs);
    var origins := map[0 := Arguments(nargs)];
    var slot := FirstPlaced(code, nargs, origins);
    assert Traced(code, nargs, First(nargs), slot, origins);
    forall w | Has(inv, w)
      ensures Has(inv, step(w))
    {
      if Able(code, w) {
        RoundConsistent(code, w);
        if w.agreed {
          RoundTraced(code, w, nargs);
        } else {
          RoundAdds(code, w);
        }
      }
    }
    RepeatKeeps(step, inv, First(nargs), n);
  }

  // ------------------------------------------------------------------- exactly when

  /** The stacks that a function's blocks are first reached with agree on all edges, and the compiler's output is
      a program that the simulation holds of, if and only if operands have their origins wherever control comes
      from. */
  lemma AgreedIffSourced(code: seq<Instruction>, nargs: nat, n: nat)
    requires WellFormed(code) && |code| > 0 && Rounds(code, First(nargs), n).queue == []
    ensures var w := Rounds(code, First(nargs), n);
      && (w.agreed <==> exists origins :: Sourced(code, nargs, origins))
      && (Program(code, w.blocks, w.places) <==> exists origins :: Sourced(code, nargs, origins))
  {
    var w := Rounds(code, First(nargs), n);
    RoundsEnd(code, nargs, n);
    if w.agreed {
      AgreedTraced(code, nargs, n);
      var slot, origins :| Traced(code, nargs, w, slot, origins);
      DoneTranslated(code, w);
      assert Sourced(code, nargs, origins);
    }
    if origins :| Sourced(code, nargs, origins) {
      SourcedAgrees(code, nargs, n, origins);
    }
  }

  /** Whatever such a function is called with, the code that the compiler makes of it returns or throws what the
      interpreter does. */
  lemma SourcedCompiled(code: seq<Instruction>, world: World, args: seq<Value>, acc: Value, w: int, rounds: nat,
                        n: nat, origins: map<nat, seq<Origin>>)
    returns (m: nat)
    requires WellFormed(code) && |code| > 0 && Sourced(code, |args|, origins)
    requires Rounds(code, First(|args|), rounds).queue == []
    ensures var made := Rounds(code, First(|args|), rounds);
      0 in made.blocks && Follows(code, world, made.blocks, made.places, IRun(code, world, IState(0, acc, args, w), n),
                                  Start(made.blocks, args, acc, w), m)
  {
    var made := Rounds(code, First(|args|), rounds);
    AgreedIffSourced(code, |args|, rounds);
    RoundsEnd(code, |args|, rounds);
    m := CompiledFunction(code, world, made.blocks, made.places, args, acc, w, n);
  }
}
