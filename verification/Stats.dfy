/** Call statistics: duplicates merged, then a bottom-up merge sort of the list. */
module Stats {
  datatype Stat = Stat(kind: string, ncalls: int, nerrors: int, subtime: int, totaltime: int)

  /** What the comparison looks at: the time, and more calls before fewer. */
  datatype Key = Key(time: int, calls: int)

  function KeyOf(s: Stat): Key {
    Key(s.totaltime, s.ncalls)
  }

  /** `cmp`, on counters whose differences a C `int` can hold. */
  function Cmp(a: Stat, b: Stat): int {
    var delta := a.totaltime - b.totaltime;
    if delta == 0 then b.ncalls - a.ncalls else delta
  }

  /** Less time first, and in the same time more calls first. */
  predicate Ordered(a: Stat, b: Stat) {
    a.totaltime < b.totaltime || (a.totaltime == b.totaltime && a.ncalls >= b.ncalls)
  }

  predicate Sorted(l: seq<Stat>) {
    forall i, j :: 0 <= i < j < |l| ==> Ordered(l[i], l[j])
  }

  /** The elements that the comparison does not tell apart from one with key `k`, in order. */
  function Alike(l: seq<Stat>, k: Key): seq<Stat> {
    if l == [] then [] else One(l[0], k) + Alike(l[1..], k)
  }

  function One(s: Stat, k: Key): seq<Stat> {
    if KeyOf(s) == k then [s] else []
  }

  lemma Assoc(x: seq<Stat>, y: seq<Stat>, z: seq<Stat>)
    ensures x + (y + z) == x + y + z
  {
  }

  lemma AlikeCons(s: Stat, l: seq<Stat>, k: Key)
    ensures Alike([s] + l, k) == One(s, k) + Alike(l, k)
  {
    assert ([s] + l)[1..] == l;
  }

  lemma {:induction false} AlikeConcat(x: seq<Stat>, y: seq<Stat>, k: Key)
    ensures Alike(x + y, k) == Alike(x, k) + Alike(y, k)
  {
    if x == [] {
      assert x + y == y;
    } else {
      assert (x + y)[1..] == x[1..] + y;
      AlikeConcat(x[1..], y, k);
      Assoc(One(x[0], k), Alike(x[1..], k), Alike(y, k));
    }
  }

  lemma {:induction false} AlikeNone(l: seq<Stat>, k: Key)
    requires forall s <- l :: KeyOf(s) != k
    ensures Alike(l, k) == []
  {
    if l != [] {
      AlikeNone(l[1..], k);
    }
  }

  /** Lists that agree on every class of alike elements are permutations of each other. */
  lemma {:induction false} AlikeCounts(l: seq<Stat>, s: Stat)
    ensures multiset(l)[s] == multiset(Alike(l, KeyOf(s)))[s]
  {
    hide KeyOf;
    if l != [] {
      AlikeCounts(l[1..], s);
      assert l == [l[0]] + l[1..];
      if KeyOf(l[0]) != KeyOf(s) {
        assert [] + Alike(l[1..], KeyOf(s)) == Alike(l[1..], KeyOf(s));
      }
    }
  }

  lemma AlikePermutes(x: seq<Stat>, y: seq<Stat>)
    requires forall k :: Alike(x, k) == Alike(y, k)
    ensures multiset(x) == multiset(y)
  {
    forall s: Stat
      ensures multiset(x)[s] == multiset(y)[s]
    {
      AlikeCounts(x, s);
      AlikeCounts(y, s);
    }
  }

  // ------------------------------------------------------------------- merging

  /** Two sorted runs in one; on a tie the first run goes first. */
  function Merged(p: seq<Stat>, q: seq<Stat>): (r: seq<Stat>)
    ensures |r| == |p| + |q|
    decreases |p| + |q|
  {
    if p == [] then q
    else if q == [] then p
    else if Cmp(p[0], q[0]) <= 0 then [p[0]] + Merged(p[1..], q)
    else [q[0]] + Merged(p, q[1..])
  }

  lemma {:induction false} MergedFrom(p: seq<Stat>, q: seq<Stat>)
    ensures forall s <- Merged(p, q) :: s in p || s in q
    decreases |p| + |q|
  {
    if p != [] && q != [] {
      if Cmp(p[0], q[0]) <= 0 {
        MergedFrom(p[1..], q);
      } else {
        MergedFrom(p, q[1..]);
      }
    }
  }

  lemma SortedCons(s: Stat, l: seq<Stat>)
    requires Sorted(l) && forall x <- l :: Ordered(s, x)
    ensures Sorted([s] + l)
  {
  }

  lemma {:induction false} MergedSorted(p: seq<Stat>, q: seq<Stat>)
    requires Sorted(p) && Sorted(q)
    ensures Sorted(Merged(p, q))
    decreases |p| + |q|
  {
    if p != [] && q != [] {
      if Cmp(p[0], q[0]) <= 0 {
        MergedSorted(p[1..], q);
        MergedFrom(p[1..], q);
        SortedCons(p[0], Merged(p[1..], q));
      } else {
        MergedSorted(p, q[1..]);
        MergedFrom(p, q[1..]);
        SortedCons(q[0], Merged(p, q[1..]));
      }
    }
  }

  /** Merging is stable: elements that compare equal keep their order, those of the first run first. */
  lemma {:induction false} MergedStable(p: seq<Stat>, q: seq<Stat>, k: Key)
    requires Sorted(p) && Sorted(q)
    ensures Alike(Merged(p, q), k) == Alike(p, k) + Alike(q, k)
    decreases |p| + |q|
  {
    if p != [] && q != [] {
      if Cmp(p[0], q[0]) <= 0 {
        MergedStable(p[1..], q, k);
        AlikeCons(p[0], Merged(p[1..], q), k);
        Assoc(One(p[0], k), Alike(p[1..], k), Alike(q, k));
      } else {
        MergedStable(p, q[1..], k);
        AlikeCons(q[0], Merged(p, q[1..]), k);
        AfterNone(p, q[0], k);
      }
    }
  }

  /** An element below the whole run finds no equal in it. */
  lemma AfterNone(p: seq<Stat>, s: Stat, k: Key)
    requires Sorted(p) && p != [] && Cmp(p[0], s) > 0
    ensures forall x: seq<Stat> :: One(s, k) + (Alike(p, k) + x) == Alike(p, k) + (One(s, k) + x)
  {
    if KeyOf(s) == k {
      AlikeNone(p, k);
    }
    forall x: seq<Stat>
      ensures One(s, k) + (Alike(p, k) + x) == Alike(p, k) + (One(s, k) + x)
    {
      if KeyOf(s) == k {
        assert [] + x == x && [] + (One(s, k) + x) == One(s, k) + x;
      } else {
        assert [] + x == x && [] + (Alike(p, k) + x) == Alike(p, k) + x;
      }
    }
  }

  // ------------------------------------------------------------------- passes

  function Min(x: nat, y: nat): nat {
    if x < y then x else y
  }

  /** One pass: neighbouring runs of `w` elements are merged. */
  function Pass(l: seq<Stat>, w: nat): (r: seq<Stat>)
    requires w > 0
    ensures |r| == |l|
    decreases |l|
  {
    if l == [] then []
    else
      var rest := l[Min(w, |l|)..];
      var k := Min(w, |rest|);
      Merged(l[..Min(w, |l|)], rest[..k]) + Pass(rest[k..], w)
  }

  /** Every run of `w` elements is sorted. */
  predicate Runs(l: seq<Stat>, w: nat)
    requires w > 0
    decreases |l|
  {
    l == [] || (Sorted(l[..Min(w, |l|)]) && Runs(l[Min(w, |l|)..], w))
  }

  lemma {:induction false} RunsOne(l: seq<Stat>)
    ensures Runs(l, 1)
    decreases |l|
  {
    if l != [] {
      RunsOne(l[1..]);
    }
  }

  /** A full run before more runs, or a last one. */
  lemma RunsCons(head: seq<Stat>, tail: seq<Stat>, w: nat)
    requires w > 0 && head != [] && Sorted(head) && Runs(tail, w)
    requires |head| == w || (|head| < w && tail == [])
    ensures Runs(head + tail, w)
  {
    assert (head + tail)[..|head|] == head && (head + tail)[|head|..] == tail;
  }

  lemma {:induction false} PassRuns(l: seq<Stat>, w: nat)
    requires w > 0 && Runs(l, w)
    ensures Runs(Pass(l, w), 2 * w)
    decreases |l|
  {
    if l != [] {
      var m := Min(w, |l|);
      var rest := l[m..];
      var k := Min(w, |rest|);
      assert Runs(rest, w);
      MergedSorted(l[..m], rest[..k]);
      PassRuns(rest[k..], w);
      RunsCons(Merged(l[..m], rest[..k]), Pass(rest[k..], w), 2 * w);
    }
  }

  lemma AlikeCut(l: seq<Stat>, m: nat, k: Key)
    requires m <= |l|
    ensures Alike(l, k) == Alike(l[..m], k) + Alike(l[m..], k)
  {
    assert l == l[..m] + l[m..];
    AlikeConcat(l[..m], l[m..], k);
  }

  lemma {:induction false} PassStable(l: seq<Stat>, w: nat, k: Key)
    requires w > 0 && Runs(l, w)
    ensures Alike(Pass(l, w), k) == Alike(l, k)
    decreases |l|
  {
    if l != [] {
      var m := Min(w, |l|);
      var rest := l[m..];
      var n := Min(w, |rest|);
      assert Runs(rest, w);
      MergedStable(l[..m], rest[..n], k);
      PassStable(rest[n..], w, k);
      AlikeConcat(Merged(l[..m], rest[..n]), Pass(rest[n..], w), k);
      AlikeCut(l, m, k);
      AlikeCut(rest, n, k);
      var x, y, z := Alike(l[..m], k), Alike(rest[..n], k), Alike(rest[n..], k);
      Assoc(x, y, z);
    }
  }

  // ------------------------------------------------------------------- the sort as it runs

  /** The inner loop: from `psize` elements at `p` and up to `qsize` at `q`, into the list under construction. */
  method MergeRuns(p0: seq<Stat>, psize0: nat, q0: seq<Stat>, qsize0: nat, list: seq<Stat>) returns (q: seq<Stat>,
                   out: seq<Stat>)
    requires psize0 <= |p0|
    ensures out == list + Merged(p0[..psize0], q0[..Min(qsize0, |q0|)]) && q == q0[Min(qsize0, |q0|)..]
  {
    var p, psize, qsize := p0, psize0, qsize0;
    q, out := q0, list;
    ghost var all := list + Merged(p[..psize], q[..Min(qsize, |q|)]);
    ghost var after := q0[Min(qsize0, |q0|)..];
    while psize > 0 || (qsize > 0 && q != [])
      invariant psize <= |p|
      invariant all == out + Merged(p[..psize], q[..Min(qsize, |q|)])
      invariant after == q[Min(qsize, |q|)..]
      decreases psize + |q|
    {
      ghost var x, y := p[..psize], q[..Min(qsize, |q|)];
      var e;
      if psize == 0 || (qsize > 0 && q != [] && Cmp(p[0], q[0]) > 0) {
        e, q, qsize := q[0], q[1..], qsize - 1;
        assert y == [e] + q[..Min(qsize, |q|)] && y[1..] == q[..Min(qsize, |q|)];
      } else {
        e, p, psize := p[0], p[1..], psize - 1;
        assert x == [e] + p[..psize] && x[1..] == p[..psize];
      }
      assert Merged(x, y) == [e] + Merged(p[..psize], q[..Min(qsize, |q|)]);
      out := out + [e];
    }
  }

  /** The middle loop: one pass, and how many merges it took. */
  method MergePass(list: seq<Stat>, insize: nat) returns (out: seq<Stat>, nmerges: nat)
    requires insize > 0
    ensures out == Pass(list, insize) && (nmerges <= 1 <==> |list| <= 2 * insize)
  {
    var p := list;
    out, nmerges := [], 0;
    while p != []
      invariant out + Pass(p, insize) == Pass(list, insize)
      invariant nmerges == 0 ==> p == list
      invariant nmerges == 1 ==> |p| == |list| - Min(2 * insize, |list|)
      invariant nmerges >= 2 ==> |list| > 2 * insize
      decreases |p|
    {
      nmerges := nmerges + 1;
      var psize := Min(insize, |p|);
      var q := p[psize..];
      ghost var k := Min(insize, |q|);
      ghost var head, tail := Merged(p[..psize], q[..k]), Pass(q[k..], insize);
      Assoc(out, head, tail);
      p, out := MergeRuns(p, psize, q, insize, out);
    }
    assert out + [] == out;
  }

  /** `sort`. */
  method Sort(list: seq<Stat>) returns (r: seq<Stat>)
    ensures Sorted(r) && |r| == |list|
    ensures forall k :: Alike(r, k) == Alike(list, k)
  {
    r := list;
    var insize := 1;
    RunsOne(list);
    while r != []
      invariant insize > 0 && Runs(r, insize) && |r| == |list|
      invariant forall k :: Alike(r, k) == Alike(list, k)
      invariant insize == 1 || insize < |r|
      decreases |r| - insize
    {
      var out, nmerges := MergePass(r, insize);
      PassRuns(r, insize);
      forall k
        ensures Alike(out, k) == Alike(r, k)
      {
        PassStable(r, insize, k);
      }
      r := out;
      insize := 2 * insize;
      if nmerges <= 1 {
        assert r[..Min(insize, |r|)] == r;
        return;
      }
    }
  }

  // ------------------------------------------------------------------- duplicates

  /** Two entries of the same kind in one. */
  function Plus(s: Stat, t: Stat): Stat {
    Stat(s.kind, s.ncalls + t.ncalls, s.nerrors + t.nerrors, s.subtime + t.subtime, s.totaltime + t.totaltime)
  }

  function Absorbed(s: Stat, l: seq<Stat>): (r: Stat)
    ensures r.kind == s.kind
    decreases |l|
  {
    if l == [] then s else Absorbed(if l[0].kind == s.kind then Plus(s, l[0]) else s, l[1..])
  }

  function Others(kind: string, l: seq<Stat>): (r: seq<Stat>)
    ensures |r| <= |l| && forall s <- r :: s.kind != kind && s in l
  {
    if l == [] then [] else (if l[0].kind == kind then [] else [l[0]]) + Others(kind, l[1..])
  }

  function NoDuplicates(l: seq<Stat>): seq<Stat>
    decreases |l|
  {
    if l == [] then [] else [Absorbed(l[0], l[1..])] + NoDuplicates(Others(l[0].kind, l[1..]))
  }

  // What the list says about one kind, added up number by number.
  function Calls(l: seq<Stat>, kind: string): int {
    if l == [] then 0 else (if l[0].kind == kind then l[0].ncalls else 0) + Calls(l[1..], kind)
  }

  function Errors(l: seq<Stat>, kind: string): int {
    if l == [] then 0 else (if l[0].kind == kind then l[0].nerrors else 0) + Errors(l[1..], kind)
  }

  function SubTime(l: seq<Stat>, kind: string): int {
    if l == [] then 0 else (if l[0].kind == kind then l[0].subtime else 0) + SubTime(l[1..], kind)
  }

  function Time(l: seq<Stat>, kind: string): int {
    if l == [] then 0 else (if l[0].kind == kind then l[0].totaltime else 0) + Time(l[1..], kind)
  }

  /** Two lists say the same about one kind. */
  predicate SameSums(x: seq<Stat>, y: seq<Stat>, kind: string) {
    && Calls(x, kind) == Calls(y, kind) && Errors(x, kind) == Errors(y, kind)
    && SubTime(x, kind) == SubTime(y, kind) && Time(x, kind) == Time(y, kind)
  }

  lemma {:induction false} AbsorbedSums(s: Stat, l: seq<Stat>)
    ensures var r := Absorbed(s, l);
      && r.ncalls == s.ncalls + Calls(l, s.kind) && r.nerrors == s.nerrors + Errors(l, s.kind)
      && r.subtime == s.subtime + SubTime(l, s.kind) && r.totaltime == s.totaltime + Time(l, s.kind)
    decreases |l|
  {
    if l != [] {
      AbsorbedSums(if l[0].kind == s.kind then Plus(s, l[0]) else s, l[1..]);
    }
  }

  lemma {:induction false} OthersSums(l: seq<Stat>, gone: string, kind: string)
    ensures SameSums(Others(gone, l), if kind == gone then [] else l, kind)
  {
    if l != [] {
      OthersSums(l[1..], gone, kind);
      if l[0].kind != gone {
        assert ([l[0]] + Others(gone, l[1..]))[1..] == Others(gone, l[1..]);
      } else {
        assert [] + Others(gone, l[1..]) == Others(gone, l[1..]);
      }
    }
  }

  /** Merging duplicates conserves calls, errors and both times, kind by kind. */
  lemma {:induction false} MergedSums(l: seq<Stat>, kind: string)
    ensures SameSums(NoDuplicates(l), l, kind)
    decreases |l|
  {
    if l != [] {
      var rest := NoDuplicates(Others(l[0].kind, l[1..]));
      AbsorbedSums(l[0], l[1..]);
      OthersSums(l[1..], l[0].kind, kind);
      MergedSums(Others(l[0].kind, l[1..]), kind);
      assert ([Absorbed(l[0], l[1..])] + rest)[1..] == rest;
    }
  }

  lemma {:induction false} SumsConcat(x: seq<Stat>, y: seq<Stat>, kind: string)
    ensures Calls(x + y, kind) == Calls(x, kind) + Calls(y, kind)
    ensures Errors(x + y, kind) == Errors(x, kind) + Errors(y, kind)
    ensures SubTime(x + y, kind) == SubTime(x, kind) + SubTime(y, kind)
    ensures Time(x + y, kind) == Time(x, kind) + Time(y, kind)
  {
    if x == [] {
      assert x + y == y;
    } else {
      assert (x + y)[1..] == x[1..] + y;
      SumsConcat(x[1..], y, kind);
    }
  }

  /** Two lists in which one entry stands at different places. */
  lemma SumsMoved(x: seq<Stat>, a: seq<Stat>, s: Stat, b: seq<Stat>, kind: string)
    requires SameSums(x, a + b, kind)
    ensures SameSums([s] + x, a + [s] + b, kind)
  {
    hide Calls, Errors, SubTime, Time;
    SumsConcat([s], x, kind);
    SumsConcat(a + [s], b, kind);
    SumsConcat(a, [s], kind);
    SumsConcat(a, b, kind);
  }

  lemma TakenOut(x: seq<Stat>, a: seq<Stat>, s: Stat, b: seq<Stat>)
    requires multiset([s] + x) == multiset(a + [s] + b)
    ensures multiset(x) == multiset(a + b)
  {
    assert multiset([s] + x) - multiset{s} == multiset(x);
    assert multiset(a + [s] + b) - multiset{s} == multiset(a) + multiset(b) == multiset(a + b);
  }

  /** Sums do not depend on the order. */
  lemma {:induction false} SumsPermuted(x: seq<Stat>, y: seq<Stat>, kind: string)
    requires multiset(x) == multiset(y)
    ensures SameSums(x, y, kind)
    decreases |x|
  {
    if x == [] {
      assert |y| == |multiset(y)| == |multiset(x)|;
    } else {
      hide SameSums;
      assert x[0] in multiset(y);
      var i :| 0 <= i < |y| && y[i] == x[0];
      assert x == [x[0]] + x[1..] && y == y[..i] + [x[0]] + y[i + 1..];
      TakenOut(x[1..], y[..i], x[0], y[i + 1..]);
      SumsPermuted(x[1..], y[..i] + y[i + 1..], kind);
      SumsMoved(x[1..], y[..i], x[0], y[i + 1..], kind);
    }
  }

  predicate HasKind(l: seq<Stat>, kind: string) {
    exists s :: s in l && s.kind == kind
  }

  lemma {:induction false} OthersKinds(gone: string, l: seq<Stat>, kind: string)
    ensures HasKind(Others(gone, l), kind) <==> HasKind(l, kind) && kind != gone
  {
    if l != [] {
      OthersKinds(gone, l[1..], kind);
      assert l == [l[0]] + l[1..];
      if l[0].kind != gone && l[0].kind == kind {
        assert l[0] in Others(gone, l);
      }
    }
  }

  /** The kinds are those of the list. */
  lemma {:induction false} MergedKinds(l: seq<Stat>, kind: string)
    ensures HasKind(NoDuplicates(l), kind) <==> HasKind(l, kind)
    decreases |l|
  {
    if l != [] {
      var others := Others(l[0].kind, l[1..]);
      var first := Absorbed(l[0], l[1..]);
      MergedKinds(others, kind);
      OthersKinds(l[0].kind, l[1..], kind);
      assert l == [l[0]] + l[1..] && first in NoDuplicates(l);
    }
  }

  /** Of the kinds `j` and `k`, `j` comes first in the list. */
  predicate Earlier(l: seq<Stat>, j: string, k: string) {
    l != [] && (l[0].kind == j || (l[0].kind != k && Earlier(l[1..], j, k)))
  }

  lemma {:induction false} OthersEarlier(gone: string, l: seq<Stat>, j: string, k: string)
    requires Earlier(Others(gone, l), j, k) && k != gone
    ensures Earlier(l, j, k)
  {
    if l[0].kind != gone {
      assert ([l[0]] + Others(gone, l[1..]))[1..] == Others(gone, l[1..]);
    }
    if l[0].kind != j && l[0].kind != k {
      assert [] + Others(gone, l[1..]) == Others(gone, l[1..]);
      OthersEarlier(gone, l[1..], j, k);
    }
  }

  /** They stay in the order in which the kinds first occur. */
  lemma {:induction false} MergedInOrder(l: seq<Stat>, i: nat, j: nat)
    requires i < j < |NoDuplicates(l)|
    ensures Earlier(l, NoDuplicates(l)[i].kind, NoDuplicates(l)[j].kind)
    decreases |l|
  {
    var others := Others(l[0].kind, l[1..]);
    var rest := NoDuplicates(others);
    if i > 0 {
      MergedInOrder(others, i - 1, j - 1);
      assert NoDuplicates(l)[j] == rest[j - 1];
      assert rest[j - 1] in rest;
      MergedKinds(others, rest[j - 1].kind);
      OthersKinds(l[0].kind, l[1..], rest[j - 1].kind);
      OthersEarlier(l[0].kind, l[1..], rest[i - 1].kind, rest[j - 1].kind);
      MergedKinds(others, rest[i - 1].kind);
    }
  }

  predicate Distinct(l: seq<Stat>) {
    forall i, j :: 0 <= i < j < |l| ==> l[i].kind != l[j].kind
  }

  lemma DistinctCons(s: Stat, l: seq<Stat>)
    requires Distinct(l) && forall j :: 0 <= j < |l| ==> l[j].kind != s.kind
    ensures Distinct([s] + l)
  {
  }

  /** Afterwards no two entries are of one kind. */
  lemma {:induction false} MergedDistinct(l: seq<Stat>)
    ensures Distinct(NoDuplicates(l))
    decreases |l|
  {
    if l != [] {
      var others := Others(l[0].kind, l[1..]);
      var rest := NoDuplicates(others);
      MergedDistinct(others);
      forall j | 0 <= j < |rest|
        ensures rest[j].kind != l[0].kind
      {
        MergedKinds(others, rest[j].kind);
        assert rest[j] in rest;
      }
      DistinctCons(Absorbed(l[0], l[1..]), rest);
    }
  }

  /** The inner loop of the merging pass. */
  method Absorb(l: seq<Stat>) returns (s: Stat, others: seq<Stat>)
    requires l != []
    ensures s == Absorbed(l[0], l[1..]) && others == Others(l[0].kind, l[1..])
  {
    s, others := l[0], [];
    var rest := l[1..];
    while rest != []
      invariant s.kind == l[0].kind && Absorbed(l[0], l[1..]) == Absorbed(s, rest)
      invariant Others(l[0].kind, l[1..]) == others + Others(l[0].kind, rest)
      decreases |rest|
    {
      var t := rest[0];
      Assoc(others, [t], Others(s.kind, rest[1..]));
      if t.kind == s.kind {
        s := Plus(s, t);
        assert [] + Others(s.kind, rest[1..]) == Others(s.kind, rest[1..]);
      } else {
        others := others + [t];
      }
      rest := rest[1..];
    }
    assert others + [] == others;
  }

  /** The part of `neko_stats_build` that makes the list: duplicates merged, and the result sorted. */
  method Build(list: seq<Stat>) returns (r: seq<Stat>)
    ensures Sorted(r) && multiset(r) == multiset(NoDuplicates(list))
    ensures forall k :: Alike(r, k) == Alike(NoDuplicates(list), k)
    ensures Distinct(r) && forall kind :: SameSums(r, list, kind) && (HasKind(r, kind) <==> HasKind(list, kind))
  {
    var l := WithoutDuplicates(list);
    r := Sort(l);
    AlikePermutes(r, l);
    MergedDistinct(list);
    DistinctPermuted(l, r);
    forall kind
      ensures SameSums(r, list, kind) && (HasKind(r, kind) <==> HasKind(list, kind))
    {
      MergedSums(list, kind);
      SumsPermuted(r, l, kind);
      MergedKinds(list, kind);
      KindsPermuted(r, l, kind);
    }
  }

  lemma KindsPermuted(x: seq<Stat>, y: seq<Stat>, kind: string)
    requires multiset(x) == multiset(y)
    ensures HasKind(x, kind) <==> HasKind(y, kind)
  {
    assert forall s :: s in x <==> s in multiset(x);
    assert forall s :: s in y <==> s in multiset(y);
  }

  lemma {:induction false} OnceEach(l: seq<Stat>, s: Stat)
    requires Distinct(l)
    ensures multiset(l)[s] <= 1
  {
    if l != [] {
      OnceEach(l[1..], s);
      assert l == [l[0]] + l[1..];
      assert forall j :: 0 <= j < |l[1..]| ==> l[1..][j].kind != l[0].kind;
    }
  }

  lemma TwiceEach(l: seq<Stat>, i: nat, j: nat)
    requires i < j < |l|
    ensures l[i] == l[j] ==> multiset(l)[l[i]] >= 2
  {
    assert l == l[..j] + l[j..];
    assert l[i] in l[..j] && l[j] in l[j..];
  }

  lemma DistinctPermuted(x: seq<Stat>, y: seq<Stat>)
    requires multiset(x) == multiset(y) && Distinct(x)
    ensures Distinct(y)
  {
    forall i, j | 0 <= i < j < |y|
      ensures y[i].kind != y[j].kind
    {
      TwiceEach(y, i, j);
      OnceEach(x, y[i]);
      assert y[i] in multiset(x) && y[j] in multiset(x);
    }
  }

  method WithoutDuplicates(list: seq<Stat>) returns (l: seq<Stat>)
    ensures l == NoDuplicates(list)
  {
    var done, rest := [], list;
    while rest != []
      invariant NoDuplicates(list) == done + NoDuplicates(rest)
      decreases |rest|
    {
      var s, others := Absorb(rest);
      Assoc(done, [s], NoDuplicates(others));
      done, rest := done + [s], others;
    }
    assert done + [] == done;
    l := done;
  }
}
