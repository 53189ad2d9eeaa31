/** Threads that share a queue under one mutex and one condition variable: message queues, and counting
    locks, whose counter is the length of a queue of units. A step is one stay inside the mutex. */
module WaitQueue {
  import opened ObjTable

  /** `waiting` threads are blocked on the condition; `woken` ones have been signalled, or have woken for
      no reason, and have not run yet. */
  datatype State<V> = State(queue: seq<V>, waiting: set<nat>, woken: set<nat>)

  /** `hit` is the choice that a signal makes: some waiting threads, at least one if there are any. */
  datatype Event<V> =
    | Add(v: V, hit: set<nat>)
    | Push(v: V, hit: set<nat>)
    | Enter(t: nat, hit: set<nat>)
    | Resume(t: nat, hit: set<nat>)
    | Poll(hit: set<nat>)
    | Spurious(t: nat)
    | Timeout(t: nat)

  predicate Chosen(hit: set<nat>, waiting: set<nat>) {
    hit <= waiting && (waiting != {} ==> hit != {})
  }

  function Signalled<V>(s: State<V>, hit: set<nat>): State<V> {
    s.(waiting := s.waiting - hit, woken := s.woken + hit)
  }

  predicate Possible<V>(s: State<V>, e: Event<V>) {
    match e
    case Add(_, hit) => Chosen(hit, s.waiting)
    case Push(_, hit) => Chosen(hit, s.waiting)
    case Enter(t, hit) => t !in s.waiting && t !in s.woken && Chosen(hit, s.waiting)
    case Resume(t, hit) => t in s.woken && Chosen(hit, s.waiting)
    case Poll(hit) => Chosen(hit, s.waiting)
    case Spurious(t) => t in s.waiting
    case Timeout(t) => t in s.waiting || t in s.woken
  }

  /** Taking the first element; the taker signals if it leaves more behind. */
  function Taken<V>(s: State<V>, hit: set<nat>): State<V>
    requires s.queue != []
  {
    var rest := s.(queue := s.queue[1..]);
    if rest.queue == [] then rest else Signalled(rest, hit)
  }

  /** A consumer inside the mutex: it takes, or blocks. */
  function TakeOrWait<V>(s: State<V>, t: nat, hit: set<nat>): State<V> {
    if s.queue == [] then s.(waiting := s.waiting + {t}) else Taken(s, hit)
  }

  function Next<V>(s: State<V>, e: Event<V>): State<V> {
    match e
    case Add(v, hit) => Signalled(s.(queue := s.queue + [v]), hit)
    case Push(v, hit) => Signalled(s.(queue := [v] + s.queue), hit)
    case Enter(t, hit) => TakeOrWait(s, t, hit)
    case Resume(t, hit) => TakeOrWait(s.(woken := s.woken - {t}), t, hit)
    case Poll(hit) => if s.queue == [] then s else Taken(s, hit)
    case Spurious(t) => Signalled(s, {t})
    case Timeout(t) => s.(waiting := s.waiting - {t}, woken := s.woken - {t})
  }

  /** No lost wakeup: with something in the queue, nobody stays blocked unless another consumer has
      been woken and has yet to run. */
  predicate Inv<V>(s: State<V>) {
    && s.waiting !! s.woken
    && (s.queue != [] && s.waiting != {} ==> s.woken != {})
  }

  /** A timed wait ends although its thread was the one woken for what is in the queue. */
  predicate Swallows<V>(s: State<V>, e: Event<V>) {
    e.Timeout? && s.woken == {e.t} && s.queue != [] && s.waiting != {}
  }

  /** Every step keeps the invariant, except exactly a timeout that swallows the last wakeup. */
  lemma StepKeepsIff<V>(s: State<V>, e: Event<V>)
    requires Inv(s) && Possible(s, e)
    ensures Inv(Next(s, e)) <==> !Swallows(s, e)
  {
    if e.Timeout? && !Swallows(s, e) && s.queue != [] && s.waiting - {e.t} != {} {
      assert s.woken != {};
      if s.woken - {e.t} == {} {
        assert s.woken == {e.t};
      }
    }
    if e.Spurious? {
      assert e.t in Next(s, e).woken;
    }
  }

  // ------------------------------------------------------------------- runs

  function Run<V>(s: State<V>, es: seq<Event<V>>): State<V>
    decreases |es|
  {
    if es == [] then s else Run(Next(s, es[0]), es[1..])
  }

  ghost predicate Allowed<V>(s: State<V>, es: seq<Event<V>>)
    decreases |es|
  {
    es == [] || (Possible(s, es[0]) && Allowed(Next(s, es[0]), es[1..]))
  }

  ghost predicate NoneSwallowed<V>(s: State<V>, es: seq<Event<V>>)
    decreases |es|
  {
    es == [] || (!Swallows(s, es[0]) && NoneSwallowed(Next(s, es[0]), es[1..]))
  }

  ghost predicate Untimed<V>(es: seq<Event<V>>) {
    forall e <- es :: !e.Timeout?
  }

  lemma {:induction false} UntimedSwallowsNone<V>(s: State<V>, es: seq<Event<V>>)
    requires Untimed(es)
    ensures NoneSwallowed(s, es)
    decreases |es|
  {
    if es != [] {
      assert es[0] in es;
      UntimedSwallowsNone(Next(s, es[0]), es[1..]);
    }
  }

  lemma {:induction false} RunKeeps<V>(s: State<V>, es: seq<Event<V>>)
    requires Inv(s) && Allowed(s, es) && NoneSwallowed(s, es)
    ensures Inv(Run(s, es))
    decreases |es|
  {
    if es != [] {
      StepKeepsIff(s, es[0]);
      RunKeeps(Next(s, es[0]), es[1..]);
    }
  }

  /** With untimed waits, whenever something is in the queue and a consumer is blocked, some woken
      consumer can run, and when it runs it takes the first element. */
  lemma NoLostWakeup<V>(es: seq<Event<V>>)
    requires Allowed(State([], {}, {}), es) && Untimed(es)
    ensures var s := Run(State([], {}, {}), es);
            s.queue != [] && s.waiting != {} ==>
              exists t :: t in s.woken && Possible(s, Resume(t, s.waiting)) &&
                          Next(s, Resume(t, s.waiting)).queue == s.queue[1..]
  {
    var s0 := State<V>.State([], {}, {});
    UntimedSwallowsNone(s0, es);
    RunKeeps(s0, es);
    var s := Run(s0, es);
    if s.queue != [] && s.waiting != {} {
      var t :| t in s.woken;
      assert Possible(s, Resume(t, s.waiting));
    }
  }

  /** A run with one timed wait after which a thread is blocked beside an element with nobody woken to take it:
      the timed waiter was woken for the element and gave up instead of taking it. */
  lemma TimeoutSwallowsWakeup<V>(v: V) returns (es: seq<Event<V>>)
    ensures Allowed(State([], {}, {}), es)
    ensures Run(State([], {}, {}), es) == State([v], {1}, {})
  {
    var s0 := State<V>.State([], {}, {});
    var s1, s2, s3 := s0.(waiting := {0}), s0.(waiting := {0, 1}), State([v], {1}, {0});
    var add, out := Add(v, {0}), Timeout(0);
    assert Next(s0, Enter(0, {})) == s1 && Next(s1, Enter(1, {0})) == s2;
    assert {0, 1} - {0} == {1};
    assert Next(s2, add) == s3 && Next(s3, out) == State([v], {1}, {});
    var last := [out] + [];
    RunCons(s3, out, []);
    RunCons(s2, add, last);
    RunCons(s1, Enter(1, {0}), [add] + last);
    RunCons(s0, Enter(0, {}), [Enter(1, {0})] + ([add] + last));
    es := [Enter(0, {})] + ([Enter(1, {0})] + ([add] + last));
  }

  lemma RunCons<V>(s: State<V>, e: Event<V>, es: seq<Event<V>>)
    ensures Run(s, [e] + es) == Run(Next(s, e), es)
    ensures Allowed(s, [e] + es) <==> Possible(s, e) && Allowed(Next(s, e), es)
  {
    assert ([e] + es)[1..] == es;
  }

  // ------------------------------------------------------------------- what comes out

  /** What an event puts in at the end, and what it takes. */
  function In<V>(e: Event<V>): seq<V> {
    if e.Add? || e.Push? then [e.v] else []
  }

  function Out<V>(s: State<V>, e: Event<V>): seq<V> {
    if s.queue != [] && (e.Enter? || e.Resume? || e.Poll?) then [s.queue[0]] else []
  }

  function Ins<V>(es: seq<Event<V>>): seq<V> {
    if es == [] then [] else In(es[0]) + Ins(es[1..])
  }

  function Outs<V>(s: State<V>, es: seq<Event<V>>): seq<V>
    decreases |es|
  {
    if es == [] then [] else Out(s, es[0]) + Outs(Next(s, es[0]), es[1..])
  }

  /** With `add` only, messages come out in the order in which they went in, none lost and none twice,
      whatever the interleaving, the signals and the timeouts. */
  lemma {:induction false} FirstInFirstOut<V>(s: State<V>, es: seq<Event<V>>)
    requires forall e <- es :: !e.Push?
    ensures s.queue + Ins(es) == Outs(s, es) + Run(s, es).queue
    decreases |es|
  {
    if es == [] {
      assert s.queue + [] == [] + s.queue;
    } else {
      var s1 := Next(s, es[0]);
      assert es[0] in es;
      FifoStep(s, es[0]);
      FirstInFirstOut(s1, es[1..]);
      Regroup(s.queue, In(es[0]), Out(s, es[0]), s1.queue, Ins(es[1..]), Outs(s1, es[1..]), Run(s1, es[1..]).queue);
    }
  }

  lemma FifoStep<V>(s: State<V>, e: Event<V>)
    requires !e.Push?
    ensures s.queue + In(e) == Out(s, e) + Next(s, e).queue
  {
    if s.queue != [] {
      assert s.queue == [s.queue[0]] + s.queue[1..];
    }
  }

  lemma Regroup<V>(q: seq<V>, i: seq<V>, o: seq<V>, q1: seq<V>, later: seq<V>, out: seq<V>, q2: seq<V>)
    requires q + i == o + q1 && q1 + later == out + q2
    ensures q + (i + later) == o + out + q2
  {
    assert q + (i + later) == q + i + later == o + (q1 + later) == o + out + q2;
  }

  lemma ConservedStep<V>(s: State<V>, e: Event<V>)
    ensures multiset(s.queue) + multiset(In(e)) == multiset(Out(s, e)) + multiset(Next(s, e).queue)
  {
    if e.Push? {
      assert multiset([e.v] + s.queue) == multiset{e.v} + multiset(s.queue);
    } else {
      FifoStep(s, e);
      assert multiset(s.queue + In(e)) == multiset(Out(s, e) + Next(s, e).queue);
    }
  }

  lemma ConservedTwice<V>(q: seq<V>, i: seq<V>, o: seq<V>, q1: seq<V>, later: seq<V>, out: seq<V>, q2: seq<V>)
    requires multiset(q) + multiset(i) == multiset(o) + multiset(q1)
    requires multiset(q1) + multiset(later) == multiset(out) + multiset(q2)
    ensures multiset(q) + multiset(i + later) == multiset(o + out) + multiset(q2)
  {
    forall x
      ensures (multiset(q) + multiset(i + later))[x] == (multiset(o + out) + multiset(q2))[x]
    {
      assert (multiset(q) + multiset(i))[x] == (multiset(o) + multiset(q1))[x];
      assert (multiset(q1) + multiset(later))[x] == (multiset(out) + multiset(q2))[x];
    }
  }

  /** With `push` as well, every message comes out, or is still there, as often as it went in. */
  lemma {:induction false} Conserved<V>(s: State<V>, es: seq<Event<V>>)
    ensures multiset(s.queue) + multiset(Ins(es)) == multiset(Outs(s, es)) + multiset(Run(s, es).queue)
    decreases |es|
  {
    hide Next, In, Out;
    if es == [] {
      assert multiset(Ins(es)) == multiset{} == multiset(Outs(s, es));
    } else {
      var s1 := Next(s, es[0]);
      ConservedStep(s, es[0]);
      Conserved(s1, es[1..]);
      ConservedTwice(s.queue, In(es[0]), Out(s, es[0]), s1.queue, Ins(es[1..]), Outs(s1, es[1..]),
                     Run(s1, es[1..]).queue);
    }
  }

  /** A counting lock: its counter is always the releases less the waits that succeeded, timed waits
      included. */
  lemma {:induction false} CounterConserved(s: State<()>, es: seq<Event<()>>)
    ensures |Run(s, es).queue| == |s.queue| + |Ins(es)| - |Outs(s, es)|
    decreases |es|
  {
    if es != [] {
      CounterConserved(Next(s, es[0]), es[1..]);
    }
  }
}
