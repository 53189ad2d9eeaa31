/** A document that is written out is parsed into the events that describe it. */
module XmlRoundTrip {
  import opened ObjTable
  import opened Xml
  import FieldIntern
  import MachineInt

  /** A node as it can be written; `short` is `<name/>`. */
  datatype Node =
    | Elem(name: string, attribs: seq<(string, string)>, kids: seq<Node>, short: bool)
    | Text(text: string)
    | Data(text: string)
    | Note(text: string)
    | Head(text: string)
    | Doc(text: string)

  /** A value goes between double quotes, unless it holds one. */
  function QuoteFor(v: string): char {
    if '"' in v then '\'' else '"'
  }

  function Quoted(v: string): string {
    [QuoteFor(v)] + v + [QuoteFor(v)]
  }

  function PrintAttribs(attribs: seq<(string, string)>): string {
    if attribs == [] then ""
    else " " + (attribs[0].0 + ("=" + Quoted(attribs[0].1))) + PrintAttribs(attribs[1..])
  }

  function Print(n: Node): string {
    match n
    case Elem(name, attribs, kids, short) =>
      "<" + name + PrintAttribs(attribs) + (if short then "/>" else ">" + PrintAll(kids) + "</" + name + ">")
    case Text(t) => t
    case Data(t) => "<![CDATA[" + t + "]]>"
    case Note(t) => "<!--" + t + "-->"
    case Head(t) => "<?" + t + "?>"
    case Doc(t) => "<!DOCTYPE" + t + ">"
  }

  function PrintAll(ns: seq<Node>): string {
    if ns == [] then "" else Print(ns[0]) + PrintAll(ns[1..])
  }

  /** Character data or an element: what `nsubs` counts. */
  predicate Holds(n: Node) {
    !n.Note? && !n.Head? && !n.Doc?
  }

  predicate AnyHolds(ns: seq<Node>) {
    ns != [] && (Holds(ns[0]) || AnyHolds(ns[1..]))
  }

  function Calls(n: Node): seq<Event> {
    match n
    case Elem(name, attribs, kids, short) =>
      [Open(name, attribs)] + if short then [Done(None)] else CallsAll(kids) + Filler(kids) + [Done(Some(name))]
    case Text(t) => [Chars(t)]
    case Data(t) => [Raw(t)]
    case Note(t) => [Remark(t)]
    case Head(t) => [Remark("?" + t + "?")]
    case Doc(t) => [Type(t)]
  }

  function CallsAll(ns: seq<Node>): seq<Event> {
    if ns == [] then [] else Calls(ns[0]) + CallsAll(ns[1..])
  }

  /** An empty text stands for nothing. */
  function Filler(ns: seq<Node>): seq<Event> {
    if AnyHolds(ns) then [] else [Chars("")]
  }

  predicate ValidName(name: string) {
    name != "" && forall i :: 0 <= i < |name| ==> IsValidChar(name[i])
  }

  /** `end` comes first behind the text. */
  predicate EndsFirst(text: string, end: string) {
    forall i :: 0 <= i < |text| ==> !(end <= (text + end)[i..])
  }

  /** Inside a doctype, with `k` brackets open, only the last `>` is outside of all brackets, and comes next. */
  predicate Bracketed(text: string, k: int) {
    if text == "" then k == 0
    else
      && (text[0] == '>' ==> k != 0)
      && Bracketed(text[1..], if text[0] == '[' then k + 1 else if text[0] == ']' then k - 1 else k)
  }

  predicate ValidAttribs(attribs: seq<(string, string)>) {
    forall i :: 0 <= i < |attribs| ==> ValidName(attribs[i].0) && QuoteFor(attribs[i].1) !in attribs[i].1
  }

  predicate FineAttribs(attribs: seq<(string, string)>) {
    && ValidAttribs(attribs)
    && (forall i, j :: 0 <= i < j < |attribs| ==> attribs[i].0 != attribs[j].0)
  }

  /** What can be written so that it is read back. */
  predicate Fine(n: Node) {
    match n
    case Elem(name, attribs, kids, short) =>
      ValidName(name) && FineAttribs(attribs) && FineAll(kids) && (short ==> kids == [])
    case Text(t) => t != "" && '<' !in t
    case Data(t) => EndsFirst(t, "]]>")
    case Note(t) => EndsFirst(t, "-->")
    case Head(t) => EndsFirst(t, "?>")
    case Doc(t) => Bracketed(t, 0)
  }

  /** Texts do not touch. */
  predicate FineAll(ns: seq<Node>) {
    ns == [] || (Fine(ns[0]) && FineAll(ns[1..]) && (|ns| > 1 && ns[0].Text? ==> !ns[1].Text?))
  }

  // ------------------------------------------------------------------- field ids

  predicate NamesStand(names: Names, attribs: seq<(string, string)>) {
    forall i :: 0 <= i < |attribs| ==> Stands(names, attribs[i].0)
  }

  /** No attribute's id stands for another name. */
  predicate NodeStands(names: Names, n: Node) {
    n.Elem? ==> NamesStand(names, n.attribs) && AllStand(names, n.kids)
  }

  predicate AllStand(names: Names, ns: seq<Node>) {
    ns == [] || (NodeStands(names, ns[0]) && AllStand(names, ns[1..]))
  }

  /** `s` continues with `w` at `p`. */
  predicate Has(s: string, p: nat, w: string) {
    p + |w| <= |s| && s[p..p + |w|] == w
  }

  lemma HasParts(s: string, p: nat, v: string, w: string)
    requires Has(s, p, v + w)
    ensures Has(s, p, v) && Has(s, p + |v|, w)
  {
    var t := s[p..p + |v + w|];
    assert s[p..p + |v|] == t[..|v|] && s[p + |v|..p + |v| + |w|] == t[|v|..];
  }

  lemma HasAt(s: string, p: nat, w: string, i: nat)
    requires Has(s, p, w) && i < |w|
    ensures s[p + i] == w[i]
  {
    assert s[p..p + |w|][i] == s[p + i];
  }

  lemma OntoNone(o: Outcome)
    ensures Onto([], o) == o
  {
    assert [] + o.events == o.events;
  }

  lemma OntoOnto(a: seq<Event>, b: seq<Event>, o: Outcome)
    ensures Onto(a, Onto(b, o)) == Onto(a + b, o)
  {
    assert a + (b + o.events) == (a + b) + o.events;
  }

  // ------------------------------------------------------------------- scanning

  /** A round that only moves on. */
  lemma Quiet(s: string, parent: Option<string>, f: Frame, f': Frame)
    requires FrameOk(s, parent, f) && f.p < |s| && Act(s, parent, f) == Next(f', [])
    ensures FrameOk(s, parent, f') && Walk(s, parent, f) == Walk(s, parent, f')
  {
    MoveOk(s, parent, f);
    OntoNone(Walk(s, parent, f'));
  }

  lemma Same(s: string, parent: Option<string>, f: Frame, f': Frame)
    requires FrameOk(s, parent, f) && f.p < |s| && Act(s, parent, f) == Stay(f')
    ensures FrameOk(s, parent, f') && Walk(s, parent, f) == Walk(s, parent, f')
  {
    MoveOk(s, parent, f);
  }

  predicate InName(state: State) {
    state.TagName? || state.AttribName? || state.Close?
  }

  lemma {:induction false} ScanName(s: string, parent: Option<string>, f: Frame, q: nat)
    requires FrameOk(s, parent, f) && InName(f.state) && f.p <= q <= |s|
    requires forall i :: f.p <= i < q ==> IsValidChar(s[i])
    ensures FrameOk(s, parent, f.(p := q)) && Walk(s, parent, f) == Walk(s, parent, f.(p := q))
    decreases q - f.p
  {
    if f.p < q {
      Quiet(s, parent, f, Forward(f));
      ScanName(s, parent, Forward(f), q);
    }
  }

  lemma {:induction false} ScanValue(s: string, parent: Option<string>, f: Frame, q: nat)
    requires FrameOk(s, parent, f) && f.state.AttribVal? && f.p <= q <= |s|
    requires forall i :: f.p <= i < q ==> s[i] != s[f.start]
    ensures FrameOk(s, parent, f.(p := q)) && Walk(s, parent, f) == Walk(s, parent, f.(p := q))
    decreases q - f.p
  {
    if f.p < q {
      Quiet(s, parent, f, Forward(f));
      ScanValue(s, parent, Forward(f), q);
    }
  }

  lemma {:induction false} ScanText(s: string, parent: Option<string>, f: Frame, q: nat)
    requires FrameOk(s, parent, f) && f.state.PCData? && f.p <= q <= |s|
    requires forall i :: f.p <= i < q ==> s[i] != '<'
    ensures FrameOk(s, parent, f.(p := q)) && Walk(s, parent, f) == Walk(s, parent, f.(p := q))
    decreases q - f.p
  {
    if f.p < q {
      Quiet(s, parent, f, Forward(f));
      ScanText(s, parent, Forward(f), q);
    }
  }

  /** CDATA and comments, up to what ends them. */
  lemma {:induction false} ScanRaw(s: string, parent: Option<string>, f: Frame, q: nat, end: string)
    requires FrameOk(s, parent, f) && (f.state.CData? || f.state.Comment?) && f.p <= q <= |s|
    requires end == (if f.state.CData? then "]]>" else "-->")
    requires NoNul(end) && forall i :: f.p <= i < q ==> !Starts(s, i, end)
    ensures FrameOk(s, parent, f.(p := q)) && Walk(s, parent, f) == Walk(s, parent, f.(p := q))
    decreases q - f.p
  {
    if f.p < q {
      Quiet(s, parent, f, Forward(f));
      ScanRaw(s, parent, Forward(f), q, end);
    }
  }

  lemma Emits(s: string, parent: Option<string>, f: Frame, f': Frame, events: seq<Event>)
    requires FrameOk(s, parent, f) && f.p < |s| && Act(s, parent, f) == Next(f', events)
    ensures FrameOk(s, parent, f') && Walk(s, parent, f) == Onto(events, Walk(s, parent, f'))
  {
    MoveOk(s, parent, f);
  }

  // ------------------------------------------------------------------- nodes without nodes in them

  /** A text is over at a tag, or at the end of the document. */
  predicate TextEnds(s: string, parent: Option<string>, q: nat) {
    q <= |s| && if q == |s| then parent.None? else s[q] == '<'
  }

  /** What every node does for the call that reads it. */
  ghost predicate Reads(s: string, parent: Option<string>, f: Frame, events: seq<Event>, f': Frame, length: nat,
                  holds: bool) {
    && FrameOk(s, parent, f) && FrameOk(s, parent, f') && f'.state.Begin? && f'.p == f.p + length
    && f'.names == f.names && f'.nbrackets == f.nbrackets
    && (f'.nsubs > 0 <==> f.nsubs > 0 || holds)
    && Walk(s, parent, f) == Onto(events, Walk(s, parent, f'))
  }

  lemma TextRead(s: string, parent: Option<string>, f: Frame, t: string) returns (f': Frame)
    requires FrameOk(s, parent, f) && f.state.Begin? && Has(s, f.p, t) && Fine(Text(t))
      && TextEnds(s, parent, f.p + |t|)
    ensures Reads(s, parent, f, [Chars(t)], f', |t|, true)
  {
    var q := f.p + |t|;
    forall i | f.p <= i < q
      ensures s[i] != '<'
    {
      HasAt(s, f.p, t, i - f.p);
    }
    var g := f.(state := PCData, start := f.p);
    Same(s, parent, f, g);
    ScanText(s, parent, g, q);
    f' := g.(p := q, state := Begin, nsubs := f.nsubs + 1);
    TextOver(s, parent, g.(p := q), f', t);
  }

  lemma TextOver(s: string, parent: Option<string>, g: Frame, f': Frame, t: string)
    requires FrameOk(s, parent, g) && g.state.PCData? && TextEnds(s, parent, g.p) && t != "" && s[g.start..g.p] == t
    requires f' == g.(state := Begin, nsubs := g.nsubs + 1)
    ensures FrameOk(s, parent, f') && Walk(s, parent, g) == Onto([Chars(t)], Walk(s, parent, f'))
  {
    if g.p < |s| {
      var h := Forward(Skip(g, BeginNode)).(nsubs := g.nsubs + 1);
      Emits(s, parent, g, h, [Chars(t)]);
      Quiet(s, parent, f', h);
    }
  }

  lemma {:induction false} HasStarts(s: string, p: nat, w: string)
    requires p <= |s| && NoNul(w)
    ensures Starts(s, p, w) <==> Has(s, p, w)
    decreases |w|
  {
    if w == "" {
      assert s[p..p] == w;
    } else if p < |s| && s[p] == w[0] {
      HasStarts(s, p + 1, w[1..]);
      if Has(s, p + 1, w[1..]) {
        assert s[p..p + |w|] == [s[p]] + s[p + 1..p + |w|];
        assert w == [w[0]] + w[1..];
      }
      if Has(s, p, w) {
        assert s[p + 1..p + |w|] == s[p..p + |w|][1..];
      }
    } else if Has(s, p, w) {
      HasAt(s, p, w, 0);
    }
  }

  /** The text at `p` is `v`, which is `w` but for the case of letters. */
  lemma {:induction false} HasStartsAnyCase(s: string, p: nat, v: string, w: string)
    requires Has(s, p, v) && NoNul(w) && |v| == |w| && forall i :: 0 <= i < |v| ==> Lower(v[i]) == w[i]
    ensures StartsAnyCase(s, p, w)
    decreases |w|
  {
    if w != "" {
      HasAt(s, p, v, 0);
      assert s[p + 1..p + |v|] == s[p..p + |v|][1..];
      HasStartsAnyCase(s, p + 1, v[1..], w[1..]);
    }
  }

  /** What ends a text does not come earlier. */
  lemma NotEarlier(s: string, p: nat, t: string, end: string, i: nat)
    requires Has(s, p, t + end) && EndsFirst(t, end) && NoNul(end) && p <= i < p + |t|
    ensures !Starts(s, i, end)
  {
    HasStarts(s, i, end);
    if Has(s, i, end) {
      HasInside(s, p, t + end, i, end);
    }
  }

  lemma HasInside(s: string, p: nat, u: string, i: nat, w: string)
    requires Has(s, p, u) && Has(s, i, w) && p <= i && i + |w| <= p + |u|
    ensures w <= u[i - p..]
  {
    forall k | 0 <= k < |w|
      ensures u[i - p..][k] == w[k]
    {
      HasAt(s, p, u, i - p + k);
      HasAt(s, i, w, k);
    }
  }

  /** What a finished text is reported as. */
  function Reported(state: State, t: string): Event {
    if state.CData? then Raw(t) else Remark(t)
  }

  lemma RawOver(s: string, parent: Option<string>, g: Frame, f': Frame, end: string)
    requires FrameOk(s, parent, g) && (g.state.CData? || g.state.Comment?)
    requires end == (if g.state.CData? then "]]>" else "-->") && Starts(s, g.p, end)
    requires f' == g.(p := g.p + 3, state := Begin, nsubs := if g.state.CData? then g.nsubs + 1 else g.nsubs)
    ensures FrameOk(s, parent, f')
    ensures Walk(s, parent, g) == Onto([Reported(g.state, s[g.start..g.p])], Walk(s, parent, f'))
  {
    Emits(s, parent, g, f', [Reported(g.state, s[g.start..g.p])]);
  }

  /** From the first character of the text to behind what ends it. */
  lemma RawRead(s: string, parent: Option<string>, f: Frame, t: string, end: string) returns (f': Frame)
    requires FrameOk(s, parent, f) && (f.state.CData? || f.state.Comment?) && f.start == f.p
    requires end == (if f.state.CData? then "]]>" else "-->") && Has(s, f.p, t + end) && EndsFirst(t, end)
    ensures FrameOk(s, parent, f') && f'.state.Begin? && f'.p == f.p + |t| + 3 && f'.names == f.names
    ensures f'.nbrackets == f.nbrackets
    ensures f'.nsubs == if f.state.CData? then f.nsubs + 1 else f.nsubs
    ensures Walk(s, parent, f) == Onto([Reported(f.state, t)], Walk(s, parent, f'))
  {
    hide Walk;
    var q := f.p + |t|;
    forall i | f.p <= i < q
      ensures !Starts(s, i, end)
    {
      NotEarlier(s, f.p, t, end, i);
    }
    ScanRaw(s, parent, f, q, end);
    HasParts(s, f.p, t, end);
    HasStarts(s, q, end);
    f' := f.(p := q + 3, state := Begin, nsubs := if f.state.CData? then f.nsubs + 1 else f.nsubs);
    RawOver(s, parent, f.(p := q), f', end);
  }

  /** From `<` to the state that looks at what follows it. */
  lemma Opening(s: string, parent: Option<string>, f: Frame) returns (g: Frame)
    requires FrameOk(s, parent, f) && f.state.Begin? && f.p + 1 < |s| && s[f.p] == '<' && !IsSpace(s[f.p + 1])
    ensures g == f.(state := BeginNode, next := BeginNode, p := f.p + 1)
    ensures FrameOk(s, parent, g) && Walk(s, parent, f) == Walk(s, parent, g)
  {
    g := Forward(Skip(f, BeginNode));
    Quiet(s, parent, f, g);
    Same(s, parent, g, g.(state := BeginNode));
    g := g.(state := BeginNode);
  }

  lemma DataOpens(s: string, parent: Option<string>, f: Frame) returns (h: Frame)
    requires FrameOk(s, parent, f) && f.state.Begin? && Has(s, f.p, "<![" + "CDATA[")
    ensures FrameOk(s, parent, h) && h.state.CData? && h.start == h.p == f.p + 9 && h.nsubs == f.nsubs
    ensures h.names == f.names && h.nbrackets == f.nbrackets
    ensures Walk(s, parent, f) == Walk(s, parent, h)
  {
    HasParts(s, f.p, "<![", "CDATA[");
    HasAt(s, f.p, "<![", 0);
    HasAt(s, f.p, "<![", 1);
    HasAt(s, f.p, "<![", 2);
    var g := Opening(s, parent, f);
    HasStartsAnyCase(s, f.p + 3, "CDATA[", "cdata[");
    h := g.(state := CData, start := f.p + 9, p := f.p + 9);
    Quiet(s, parent, g, h);
  }

  lemma DataRead(s: string, parent: Option<string>, f: Frame, t: string) returns (f': Frame)
    requires FrameOk(s, parent, f) && f.state.Begin? && Has(s, f.p, Print(Data(t))) && Fine(Data(t))
    ensures Reads(s, parent, f, [Raw(t)], f', |t| + 12, true)
  {
    assert Print(Data(t)) == ("<![" + "CDATA[") + (t + "]]>");
    HasParts(s, f.p, "<![" + "CDATA[", t + "]]>");
    var h := DataOpens(s, parent, f);
    f' := RawRead(s, parent, h, t, "]]>");
  }

  lemma NoteOpens(s: string, parent: Option<string>, f: Frame) returns (h: Frame)
    requires FrameOk(s, parent, f) && f.state.Begin? && Has(s, f.p, "<!" + "--")
    ensures FrameOk(s, parent, h) && h.state.Comment? && h.start == h.p == f.p + 4 && h.nsubs == f.nsubs
    ensures h.names == f.names && h.nbrackets == f.nbrackets
    ensures Walk(s, parent, f) == Walk(s, parent, h)
  {
    HasParts(s, f.p, "<!", "--");
    HasAt(s, f.p, "<!", 0);
    HasAt(s, f.p, "<!", 1);
    HasAt(s, f.p + 2, "--", 0);
    var g := Opening(s, parent, f);
    HasStarts(s, f.p + 2, "--");
    h := g.(state := Comment, start := f.p + 4, p := f.p + 4);
    Quiet(s, parent, g, h);
  }

  lemma NoteRead(s: string, parent: Option<string>, f: Frame, t: string) returns (f': Frame)
    requires FrameOk(s, parent, f) && f.state.Begin? && Has(s, f.p, Print(Note(t))) && Fine(Note(t))
    ensures Reads(s, parent, f, [Remark(t)], f', |t| + 7, false)
  {
    assert Print(Note(t)) == ("<!" + "--") + (t + "-->");
    HasParts(s, f.p, "<!" + "--", t + "-->");
    var h := NoteOpens(s, parent, f);
    f' := RawRead(s, parent, h, t, "-->");
  }

  lemma {:induction false} ScanHeader(s: string, parent: Option<string>, f: Frame, q: nat)
    requires FrameOk(s, parent, f) && f.state.Header? && f.p <= q <= |s|
    requires NoNul("?>") && forall i :: f.p <= i < q ==> !Starts(s, i, "?>")
    ensures FrameOk(s, parent, f.(p := q)) && Walk(s, parent, f) == Walk(s, parent, f.(p := q))
    decreases q - f.p
  {
    if f.p < q {
      Quiet(s, parent, f, Forward(f));
      ScanHeader(s, parent, Forward(f), q);
    }
  }

  lemma HeaderOpens(s: string, parent: Option<string>, f: Frame) returns (h: Frame)
    requires FrameOk(s, parent, f) && f.state.Begin? && Has(s, f.p, "<?")
    ensures FrameOk(s, parent, h) && h == f.(state := Header, next := BeginNode, start := f.p + 1, p := f.p + 2)
    ensures Walk(s, parent, f) == Walk(s, parent, h) && s[h.start] == '?'
  {
    HasAt(s, f.p, "<?", 0);
    HasAt(s, f.p, "<?", 1);
    var g := Opening(s, parent, f);
    h := Forward(g).(state := Header, start := g.p);
    Quiet(s, parent, g, h);
  }

  lemma HeaderOver(s: string, parent: Option<string>, h: Frame, t: string) returns (f': Frame)
    requires FrameOk(s, parent, h) && h.state.Header? && Has(s, h.p, "?>") && h.start < h.p
    requires s[h.start] == '?' && s[h.start + 1..h.p] == t
    ensures f' == h.(p := h.p + 2, state := Begin)
    ensures FrameOk(s, parent, f') && Walk(s, parent, h) == Onto([Remark("?" + t + "?")], Walk(s, parent, f'))
  {
    HasStarts(s, h.p, "?>");
    HasAt(s, h.p, "?>", 0);
    f' := h.(p := h.p + 2, state := Begin);
    assert s[h.start..h.p + 1] == [s[h.start]] + s[h.start + 1..h.p] + [s[h.p]];
    Emits(s, parent, h, f', [Remark("?" + t + "?")]);
  }

  /** A header is reported as a comment, with both question marks. */
  lemma HeaderRead(s: string, parent: Option<string>, f: Frame, t: string) returns (f': Frame)
    requires FrameOk(s, parent, f) && f.state.Begin? && Has(s, f.p, Print(Head(t))) && Fine(Head(t))
    ensures Reads(s, parent, f, [Remark("?" + t + "?")], f', |t| + 4, false)
  {
    hide Walk, Act, Starts;
    assert Print(Head(t)) == "<?" + (t + "?>");
    HasParts(s, f.p, "<?", t + "?>");
    var h := HeaderOpens(s, parent, f);
    var q := h.p + |t|;
    forall i | h.p <= i < q
      ensures !Starts(s, i, "?>")
    {
      NotEarlier(s, h.p, t, "?>", i);
    }
    ScanHeader(s, parent, h, q);
    HasParts(s, h.p, t, "?>");
    f' := HeaderOver(s, parent, h.(p := q), t);
  }

  /** A doctype, with its brackets, up to the `>` that ends it. */
  lemma {:induction false} ScanDoc(s: string, parent: Option<string>, f: Frame, t: string)
    requires FrameOk(s, parent, f) && f.state.DocType? && Has(s, f.p, t) && Bracketed(t, f.nbrackets)
    ensures var h := f.(p := f.p + |t|, nbrackets := 0);
      FrameOk(s, parent, h) && Walk(s, parent, f) == Walk(s, parent, h)
    decreases |t|
  {
    hide Walk;
    if t != "" {
      HasAt(s, f.p, t, 0);
      assert t == [t[0]] + t[1..];
      HasParts(s, f.p, [t[0]], t[1..]);
      var k := if t[0] == '[' then f.nbrackets + 1 else if t[0] == ']' then f.nbrackets - 1 else f.nbrackets;
      Quiet(s, parent, f, Forward(f).(nbrackets := k));
      ScanDoc(s, parent, Forward(f).(nbrackets := k), t[1..]);
    }
  }

  lemma DocOpens(s: string, parent: Option<string>, f: Frame) returns (h: Frame)
    requires FrameOk(s, parent, f) && f.state.Begin? && Has(s, f.p, "<!D" + "OCTYPE")
    ensures FrameOk(s, parent, h) && h.state.DocType? && h.start == h.p == f.p + 9 && h.nsubs == f.nsubs
    ensures h.names == f.names && h.nbrackets == f.nbrackets
    ensures Walk(s, parent, f) == Walk(s, parent, h)
  {
    HasParts(s, f.p, "<!D", "OCTYPE");
    HasAt(s, f.p, "<!D", 0);
    HasAt(s, f.p, "<!D", 1);
    HasAt(s, f.p, "<!D", 2);
    var g := Opening(s, parent, f);
    HasStartsAnyCase(s, f.p + 3, "OCTYPE", "octype");
    h := g.(state := DocType, start := f.p + 9, p := f.p + 9);
    Quiet(s, parent, g, h);
  }

  lemma DocRead(s: string, parent: Option<string>, f: Frame, t: string) returns (f': Frame)
    requires FrameOk(s, parent, f) && f.state.Begin? && f.nbrackets == 0
    requires Has(s, f.p, Print(Doc(t))) && Fine(Doc(t))
    ensures Reads(s, parent, f, [Type(t)], f', |t| + 10, false)
  {
    hide Walk, Act;
    assert Print(Doc(t)) == ("<!D" + "OCTYPE") + (t + ">");
    HasParts(s, f.p, "<!D" + "OCTYPE", t + ">");
    var h := DocOpens(s, parent, f);
    HasParts(s, h.p, t, ">");
    HasAt(s, h.p + |t|, ">", 0);
    ScanDoc(s, parent, h, t);
    f' := DocOver(s, parent, h.(p := h.p + |t|));
  }

  lemma DocOver(s: string, parent: Option<string>, g: Frame) returns (f': Frame)
    requires FrameOk(s, parent, g) && g.state.DocType? && g.nbrackets == 0 && g.p < |s| && s[g.p] == '>'
    ensures f' == g.(p := g.p + 1, state := Begin)
    ensures FrameOk(s, parent, f') && Walk(s, parent, g) == Onto([Type(s[g.start..g.p])], Walk(s, parent, f'))
  {
    f' := g.(p := g.p + 1, state := Begin);
    Emits(s, parent, g, f', [Type(s[g.start..g.p])]);
  }

  // ------------------------------------------------------------------- tags

  /** The name at `p` ends at `q`. */
  predicate NameAt(s: string, p: nat, q: nat, name: string) {
    && p < q < |s| && s[p..q] == name && !IsValidChar(s[q])
    && forall i :: p <= i < q ==> IsValidChar(s[i])
  }

  lemma NamePlaced(s: string, p: nat, name: string, rest: string)
    requires Has(s, p, name + rest) && ValidName(name) && rest != "" && !IsValidChar(rest[0])
    ensures NameAt(s, p, p + |name|, name) && Has(s, p + |name|, rest) && s[p + |name|] == rest[0]
  {
    HasParts(s, p, name, rest);
    HasAt(s, p + |name|, rest, 0);
    forall i | p <= i < p + |name|
      ensures IsValidChar(s[i])
    {
      HasAt(s, p, name, i - p);
    }
  }

  /** The name of a tag, with `TagName` looking at its first character. */
  lemma TagNameRead(s: string, parent: Option<string>, g: Frame, q: nat, name: string) returns (h: Frame)
    requires FrameOk(s, parent, g) && g.state.TagName? && g.start == g.p && NameAt(s, g.p, q, name)
    ensures h == Skip(g.(p := q), Body).(nodename := name, attribs := [])
    ensures FrameOk(s, parent, h) && Walk(s, parent, g) == Walk(s, parent, h)
  {
    ScanName(s, parent, g, q);
    h := Skip(g.(p := q), Body).(nodename := name, attribs := []);
    Same(s, parent, g.(p := q), h);
  }

  /** `<name`. */
  lemma TagStart(s: string, parent: Option<string>, f: Frame, name: string, rest: string) returns (h: Frame)
    requires FrameOk(s, parent, f) && f.state.Begin? && Has(s, f.p, "<" + (name + rest))
    requires ValidName(name) && rest != "" && !IsValidChar(rest[0])
    ensures FrameOk(s, parent, h) && h.state.IgnoreSpaces? && h.next.Body? && h.p == f.p + 1 + |name|
    ensures h.nodename == name && h.attribs == [] && h.nsubs == f.nsubs && h.names == f.names
    ensures h.nbrackets == f.nbrackets && Has(s, h.p, rest)
    ensures Walk(s, parent, f) == Walk(s, parent, h)
  {
    hide Walk;
    HasParts(s, f.p, "<", name + rest);
    HasAt(s, f.p, "<", 0);
    NamePlaced(s, f.p + 1, name, rest);
    var g := Opening(s, parent, f);
    Same(s, parent, g, g.(state := TagName, start := g.p));
    h := TagNameRead(s, parent, g.(state := TagName, start := g.p), g.p + |name|, name);
  }

  /** Whatever the state waiting behind spaces, a character that is none is looked at in it. */
  lemma Looked(s: string, parent: Option<string>, f: Frame)
    requires FrameOk(s, parent, f) && f.state.IgnoreSpaces? && f.p < |s| && !IsSpace(s[f.p])
    ensures FrameOk(s, parent, f.(state := f.next)) && Walk(s, parent, f) == Walk(s, parent, f.(state := f.next))
  {
    Same(s, parent, f, f.(state := f.next));
  }

  lemma EqualsRead(s: string, parent: Option<string>, f: Frame) returns (h: Frame)
    requires FrameOk(s, parent, f) && f.state.IgnoreSpaces? && f.next.Equals? && f.p + 1 < |s|
    requires s[f.p] == '=' && s[f.p + 1] in {'"', '\''}
    ensures h == f.(state := AttvalBegin, next := AttvalBegin, p := f.p + 1)
    ensures FrameOk(s, parent, h) && Walk(s, parent, f) == Walk(s, parent, h)
  {
    Looked(s, parent, f);
    h := Forward(Skip(f, AttvalBegin));
    Quiet(s, parent, f.(state := Equals), h);
    Looked(s, parent, h);
    h := h.(state := AttvalBegin);
  }

  /** A name and `=`, from the state that looks for attributes. */
  lemma AttribNameRead(s: string, parent: Option<string>, f: Frame, name: string, rest: string) returns (h: Frame)
    requires FrameOk(s, parent, f) && f.state.Body? && Has(s, f.p, name + ("=" + rest)) && rest != ""
    requires rest[0] in {'"', '\''}
    requires ValidName(name) && Stands(f.names, name) && !Bound(f.attribs, IdOf(name))
    ensures FrameOk(s, parent, h) && h.state.AttvalBegin? && h.p == f.p + |name| + 1 && h.aname == name
    ensures h.names == f.names && h.nbrackets == f.nbrackets
    ensures h.attribs == f.attribs && h.nodename == f.nodename && h.nsubs == f.nsubs && Has(s, h.p, rest)
    ensures Walk(s, parent, f) == Walk(s, parent, h)
  {
    hide Walk, IdOf, ValidName;
    NamePlaced(s, f.p, name, "=" + rest);
    var q := f.p + |name|;
    HasParts(s, q, "=", rest);
    HasAt(s, q + 1, rest, 0);
    var g := f.(state := AttribName, start := f.p);
    Same(s, parent, f, g);
    ScanName(s, parent, g, q);
    h := Skip(g.(p := q), Equals).(aname := name);
    Same(s, parent, g.(p := q), h);
    h := EqualsRead(s, parent, h);
  }

  /** A value between quotes. */
  lemma AttribValueRead(s: string, parent: Option<string>, f: Frame, v: string) returns (h: Frame)
    requires FrameOk(s, parent, f) && f.state.AttvalBegin? && Has(s, f.p, Quoted(v)) && QuoteFor(v) !in v
    ensures FrameOk(s, parent, h) && h.state.IgnoreSpaces? && h.next.Body? && h.p == f.p + |v| + 2
    ensures h.attribs == f.attribs + [(f.aname, v)] && h.nodename == f.nodename && h.nsubs == f.nsubs
    ensures h.names == f.names && h.nbrackets == f.nbrackets
    ensures Walk(s, parent, f) == Walk(s, parent, h)
  {
    hide Walk;
    var q, quote := f.p + 1 + |v|, QuoteFor(v);
    HasParts(s, f.p, [quote] + v, [quote]);
    HasParts(s, f.p, [quote], v);
    HasAt(s, f.p, [quote], 0);
    HasAt(s, q, [quote], 0);
    forall i | f.p + 1 <= i < q
      ensures s[i] != quote
    {
      HasAt(s, f.p + 1, v, i - f.p - 1);
    }
    var g := Forward(f).(state := AttribVal, start := f.p);
    Quiet(s, parent, f, g);
    ScanValue(s, parent, g, q);
    h := Forward(Skip(g.(p := q), Body)).(attribs := f.attribs + [(f.aname, v)]);
    Quiet(s, parent, g.(p := q), h);
  }

  lemma AttribRead(s: string, parent: Option<string>, f: Frame, name: string, v: string) returns (h: Frame)
    requires FrameOk(s, parent, f) && f.state.IgnoreSpaces? && f.next.Body?
    requires Has(s, f.p, " " + (name + ("=" + Quoted(v)))) && ValidName(name) && QuoteFor(v) !in v
    requires Stands(f.names, name) && !Bound(f.attribs, IdOf(name))
    ensures FrameOk(s, parent, h) && h.state.IgnoreSpaces? && h.next.Body? && h.p == f.p + |name| + |v| + 4
    ensures h.attribs == f.attribs + [(name, v)] && h.nodename == f.nodename && h.nsubs == f.nsubs
    ensures h.names == f.names && h.nbrackets == f.nbrackets
    ensures Walk(s, parent, f) == Walk(s, parent, h)
  {
    var rest := Quoted(v);
    HasParts(s, f.p, " ", name + ("=" + rest));
    HasAt(s, f.p, " ", 0);
    HasAt(s, f.p + 1, name + ("=" + rest), 0);
    Quiet(s, parent, f, Forward(f));
    Looked(s, parent, Forward(f));
    var g := AttribNameRead(s, parent, Forward(f).(state := Body), name, rest);
    h := AttribValueRead(s, parent, g, v);
  }

  /** The ids that stand for the names to come are not bound yet. */
  predicate NewNames(names: Names, had: seq<(string, string)>, attribs: seq<(string, string)>) {
    forall i :: 0 <= i < |attribs| && Stands(names, attribs[i].0) ==> !Bound(had, IdOf(attribs[i].0))
  }

  lemma AttribsTail(names: Names, had: seq<(string, string)>, attribs: seq<(string, string)>)
    requires attribs != [] && FineAttribs(attribs) && NewNames(names, had, attribs) && Stands(names, attribs[0].0)
    ensures FineAttribs(attribs[1..]) && NewNames(names, had + [attribs[0]], attribs[1..])
    ensures had + attribs == (had + [attribs[0]]) + attribs[1..]
  {
    forall i | 0 <= i < |attribs[1..]| && Stands(names, attribs[1..][i].0)
      ensures !Bound(had + [attribs[0]], IdOf(attribs[1..][i].0))
    {
      assert attribs[1..][i] == attribs[i + 1];
      assert !Bound(had, IdOf(attribs[i + 1].0)) && attribs[0].0 != attribs[i + 1].0;
    }
  }

  /** The state between the attributes of a tag, after those that have been read. */
  ghost predicate Between(s: string, parent: Option<string>, f: Frame, h: Frame, attribs: seq<(string, string)>) {
    && FrameOk(s, parent, f) && FrameOk(s, parent, h) && h.state.IgnoreSpaces? && h.next.Body?
    && h.attribs == f.attribs + attribs && h.nodename == f.nodename && h.nsubs == f.nsubs && h.names == f.names
    && h.nbrackets == f.nbrackets
    && Walk(s, parent, f) == Walk(s, parent, h)
  }

  lemma {:induction false} AttribsRead(s: string, parent: Option<string>, f: Frame, attribs: seq<(string, string)>)
    returns (h: Frame)
    requires FrameOk(s, parent, f) && f.state.IgnoreSpaces? && f.next.Body?
    requires Has(s, f.p, PrintAttribs(attribs)) && FineAttribs(attribs) && NewNames(f.names, f.attribs, attribs)
    requires NamesStand(f.names, attribs)
    ensures Between(s, parent, f, h, attribs) && h.p == f.p + |PrintAttribs(attribs)|
    decreases |attribs|
  {
    if attribs == [] {
      h := f;
    } else {
      var (name, v) := attribs[0];
      HasParts(s, f.p, " " + (name + ("=" + Quoted(v))), PrintAttribs(attribs[1..]));
      AttribsTail(f.names, f.attribs, attribs);
      var g := AttribRead(s, parent, f, name, v);
      h := AttribsRead(s, parent, g, attribs[1..]);
    }
  }

  /** `>`: the element's contents come next. */
  lemma LongEnd(s: string, parent: Option<string>, f: Frame) returns (h: Frame)
    requires FrameOk(s, parent, f) && f.state.IgnoreSpaces? && f.next.Body? && f.p < |s| && s[f.p] == '>'
    ensures FrameOk(s, parent, h) && h.state.Childs? && h.p == f.p + 1
    ensures h.nodename == f.nodename && h.nsubs == f.nsubs + 1 && h.names == f.names && h.nbrackets == f.nbrackets
    ensures Walk(s, parent, f) == Onto([Open(f.nodename, f.attribs)], Walk(s, parent, h))
  {
    Looked(s, parent, f);
    h := Forward(f.(state := Childs)).(nsubs := f.nsubs + 1);
    Emits(s, parent, f.(state := Body), h, [Open(f.nodename, f.attribs)]);
  }

  /** `/>`. */
  lemma ShortEnd(s: string, parent: Option<string>, f: Frame) returns (h: Frame)
    requires FrameOk(s, parent, f) && f.state.IgnoreSpaces? && f.next.Body? && Has(s, f.p, "/>")
    ensures FrameOk(s, parent, h) && h.state.Begin? && h.p == f.p + 2 && h.nsubs == f.nsubs + 1
    ensures h.names == f.names && h.nbrackets == f.nbrackets
    ensures Walk(s, parent, f) == Onto([Open(f.nodename, f.attribs)] + [Done(None)], Walk(s, parent, h))
  {
    HasAt(s, f.p, "/>", 0);
    HasAt(s, f.p, "/>", 1);
    Looked(s, parent, f);
    var g := Forward(f.(state := WaitEnd)).(nsubs := f.nsubs + 1);
    Emits(s, parent, f.(state := Body), g, [Open(f.nodename, f.attribs)]);
    h := Forward(g).(state := Begin);
    Emits(s, parent, g, h, [Done(None)]);
    OntoOnto([Open(f.nodename, f.attribs)], [Done(None)], Walk(s, parent, h));
  }

  /** The closing tag ends the call that reads the contents. */
  lemma ClosingRead(s: string, f: Frame, name: string)
    requires FrameOk(s, Some(name), f) && f.state.Begin? && Has(s, f.p, "</" + (name + ">")) && ValidName(name)
    ensures Walk(s, Some(name), f)
         == Outcome((if f.nsubs == 0 then [Chars("")] else []) + [Done(Some(name))], Returned(f.p + 2 + |name|))
  {
    hide Walk;
    var parent := Some(name);
    HasParts(s, f.p, "</", name + ">");
    HasAt(s, f.p, "</", 0);
    HasAt(s, f.p, "</", 1);
    NamePlaced(s, f.p + 2, name, ">");
    var g := Opening(s, parent, f);
    var h := Forward(Skip(g, Close)).(start := g.p + 1);
    Quiet(s, parent, g, h);
    Looked(s, parent, h);
    ClosingNameRead(s, name, h.(state := Close), h.p + |name|);
  }

  lemma ClosingNameRead(s: string, name: string, f: Frame, q: nat)
    requires FrameOk(s, Some(name), f) && f.state.Close? && f.start == f.p && NameAt(s, f.p, q, name) && s[q] == '>'
    ensures Walk(s, Some(name), f)
         == Outcome((if f.nsubs == 0 then [Chars("")] else []) + [Done(Some(name))], Returned(q))
  {
    var parent := Some(name);
    ScanName(s, parent, f, q);
    var h := Skip(f.(p := q), WaitEndRet).(closing := name);
    Same(s, parent, f.(p := q), h);
    Looked(s, parent, h);
  }

  // ------------------------------------------------------------------- nodes and lists of nodes

  /** What follows the attributes of an element. */
  function PrintTail(n: Node): string
    requires n.Elem?
  {
    if n.short then "/>" else ">" + (PrintAll(n.kids) + ("</" + (n.name + ">")))
  }

  lemma ElemParts(n: Node)
    requires n.Elem?
    ensures Print(n) == "<" + (n.name + (PrintAttribs(n.attribs) + PrintTail(n)))
    ensures var rest := PrintAttribs(n.attribs) + PrintTail(n); rest != "" && !IsValidChar(rest[0])
  {
  }

  /** Up to the end of the opening tag. */
  lemma HeadRead(s: string, parent: Option<string>, f: Frame, n: Node) returns (h: Frame)
    requires FrameOk(s, parent, f) && f.state.Begin? && n.Elem? && Has(s, f.p, Print(n))
    requires ValidName(n.name) && FineAttribs(n.attribs) && NamesStand(f.names, n.attribs)
    ensures FrameOk(s, parent, h) && h.state.IgnoreSpaces? && h.next.Body?
    ensures h.p == f.p + 1 + |n.name| + |PrintAttribs(n.attribs)|
    ensures h.nodename == n.name && h.attribs == n.attribs && h.nsubs == f.nsubs && h.names == f.names
    ensures h.nbrackets == f.nbrackets && Has(s, h.p, PrintTail(n))
    ensures Walk(s, parent, f) == Walk(s, parent, h)
  {
    ElemParts(n);
    h := HeadParts(s, parent, f, n.name, n.attribs, PrintTail(n));
  }

  lemma HeadParts(s: string, parent: Option<string>, f: Frame, name: string, attribs: seq<(string, string)>,
                  tail: string)
    returns (h: Frame)
    requires FrameOk(s, parent, f) && f.state.Begin? && Has(s, f.p, "<" + (name + (PrintAttribs(attribs) + tail)))
    requires ValidName(name) && FineAttribs(attribs) && NamesStand(f.names, attribs)
    requires var rest := PrintAttribs(attribs) + tail; rest != "" && !IsValidChar(rest[0])
    ensures FrameOk(s, parent, h) && h.state.IgnoreSpaces? && h.next.Body? && h.nodename == name && h.attribs == attribs
    ensures h.nsubs == f.nsubs && h.p == f.p + 1 + |name| + |PrintAttribs(attribs)| && Has(s, h.p, tail)
    ensures h.names == f.names && h.nbrackets == f.nbrackets
    ensures Walk(s, parent, f) == Walk(s, parent, h)
  {
    hide Walk, FrameOk, Has, PrintAttribs, FineAttribs, ValidName;
    var g := TagStart(s, parent, f, name, PrintAttribs(attribs) + tail);
    HasParts(s, g.p, PrintAttribs(attribs), tail);
    h := AttribsRead(s, parent, g, attribs);
    assert [] + attribs == attribs;
  }

  /** The contents and the closing tag, as the call made for them reads them. */
  lemma {:induction false} InsideRead(s: string, names: Names, p: nat, n: Node)
    requires n.Elem? && Fine(n) && !n.short && Has(s, p, PrintAll(n.kids) + ("</" + (n.name + ">")))
    requires AllStand(names, n.kids)
    ensures Walk(s, Some(n.name), Fresh(names, p))
         == Outcome(CallsAll(n.kids) + Filler(n.kids) + [Done(Some(n.name))],
                    Returned(p + |PrintAll(n.kids)| + 2 + |n.name|))
    decreases n, 0
  {
    hide Walk;
    var parent, closing := Some(n.name), "</" + (n.name + ">");
    HasParts(s, p, PrintAll(n.kids), closing);
    HasAt(s, p + |PrintAll(n.kids)|, closing, 0);
    var g := AllRead(s, parent, Fresh(names, p), n.kids);
    ClosingRead(s, g, n.name);
    assert CallsAll(n.kids) + (Filler(n.kids) + [Done(parent)]) == CallsAll(n.kids) + Filler(n.kids) + [Done(parent)];
  }

  lemma {:induction false} ElemRead(s: string, parent: Option<string>, f: Frame, n: Node) returns (f': Frame)
    requires FrameOk(s, parent, f) && f.state.Begin? && n.Elem? && Fine(n) && Has(s, f.p, Print(n))
    requires NodeStands(f.names, n)
    ensures Reads(s, parent, f, Calls(n), f', |Print(n)|, true)
    decreases n, 1
  {
    hide Walk;
    var h := HeadRead(s, parent, f, n);
    ElemParts(n);
    if n.short {
      f' := ShortEnd(s, parent, h);
    } else {
      var contents := PrintAll(n.kids) + ("</" + (n.name + ">"));
      HasParts(s, h.p, ">", contents);
      HasAt(s, h.p, ">", 0);
      var g := LongEnd(s, parent, h);
      InsideRead(s, g.names, g.p, n);
      f' := ChildRead(s, parent, g, n, CallsAll(n.kids) + Filler(n.kids) + [Done(Some(n.name))],
                      g.p + |PrintAll(n.kids)| + 2 + |n.name|);
      OntoOnto([Open(n.name, n.attribs)], CallsAll(n.kids) + Filler(n.kids) + [Done(Some(n.name))],
        Walk(s, parent, f'));
    }
  }

  /** Back from the call for the contents. */
  lemma ChildRead(s: string, parent: Option<string>, g: Frame, n: Node, events: seq<Event>, q: nat) returns (f': Frame)
    requires FrameOk(s, parent, g) && g.state.Childs? && g.p <= q < |s| && n.Elem? && g.nodename == n.name
    requires Walk(s, Some(n.name), Fresh(g.names, g.p)) == Outcome(events, Returned(q))
    ensures FrameOk(s, parent, f') && f'.state.Begin? && f'.p == q + 1 && f'.nsubs == g.nsubs && f'.names == g.names
    ensures f'.nbrackets == g.nbrackets
    ensures Walk(s, parent, g) == Onto(events, Walk(s, parent, f'))
  {
    f' := After(g, q);
  }

  lemma {:induction false} NodeRead(s: string, parent: Option<string>, f: Frame, n: Node) returns (f': Frame)
    requires FrameOk(s, parent, f) && f.state.Begin? && Fine(n) && NodeStands(f.names, n) && Has(s, f.p, Print(n))
    requires f.nbrackets == 0
    requires n.Text? ==> TextEnds(s, parent, f.p + |Print(n)|)
    ensures Reads(s, parent, f, Calls(n), f', |Print(n)|, Holds(n))
    decreases n, 2
  {
    match n
    case Elem(_, _, _, _) => f' := ElemRead(s, parent, f, n);
    case Text(t) => f' := TextRead(s, parent, f, t);
    case Data(t) => f' := DataRead(s, parent, f, t);
    case Note(t) => f' := NoteRead(s, parent, f, t);
    case Head(t) => f' := HeaderRead(s, parent, f, t);
    case Doc(t) => f' := DocRead(s, parent, f, t);
  }

  /** Behind a text comes a tag, or the end. */
  lemma TextIsOver(s: string, parent: Option<string>, p: nat, ns: seq<Node>)
    requires ns != [] && FineAll(ns) && Has(s, p, PrintAll(ns)) && TextEnds(s, parent, p + |PrintAll(ns)|)
    ensures Has(s, p, Print(ns[0])) && Has(s, p + |Print(ns[0])|, PrintAll(ns[1..]))
    ensures ns[0].Text? ==> TextEnds(s, parent, p + |Print(ns[0])|)
  {
    hide Fine, Print, FineAttribs, Has;
    HasParts(s, p, Print(ns[0]), PrintAll(ns[1..]));
    if ns[0].Text? && |ns| > 1 {
      StartsTag(ns[1]);
      HasAt(s, p + |Print(ns[0])|, PrintAll(ns[1..]), 0);
    }
  }

  lemma StartsTag(n: Node)
    requires !n.Text?
    ensures Print(n) != "" && Print(n)[0] == '<'
  {
  }

  lemma {:induction false} AllRead(s: string, parent: Option<string>, f: Frame, ns: seq<Node>) returns (f': Frame)
    requires FrameOk(s, parent, f) && f.state.Begin? && FineAll(ns) && Has(s, f.p, PrintAll(ns)) && f.nbrackets == 0
    requires AllStand(f.names, ns) && TextEnds(s, parent, f.p + |PrintAll(ns)|)
    ensures Reads(s, parent, f, CallsAll(ns), f', |PrintAll(ns)|, AnyHolds(ns))
    decreases ns, 3
  {
    hide Walk;
    if ns == [] {
      f' := f;
      OntoNone(Walk(s, parent, f));
    } else {
      TextIsOver(s, parent, f.p, ns);
      var g := NodeRead(s, parent, f, ns[0]);
      f' := AllRead(s, parent, g, ns[1..]);
      OntoOnto(Calls(ns[0]), CallsAll(ns[1..]), Walk(s, parent, f'));
    }
  }

  // ------------------------------------------------------------------- field conflicts

  lemma ConflictRaises(s: string, parent: Option<string>, f: Frame, name: string)
    requires FrameOk(s, parent, f) && f.state.AttribName? && NameAt(s, f.start, f.p, name) && !Stands(f.names, name)
    ensures Walk(s, parent, f).end.Raised?
  {
    assert Act(s, parent, f) == Wrong(Conflict(f.names, name));
  }

  /** A name in an opening tag whose id stands for another name. */
  lemma NameRaises(s: string, parent: Option<string>, f: Frame, name: string, rest: string)
    requires FrameOk(s, parent, f) && f.state.Body? && Has(s, f.p, name + rest) && rest != "" && !IsValidChar(rest[0])
    requires ValidName(name) && !Stands(f.names, name)
    ensures Walk(s, parent, f).end.Raised?
  {
    hide Walk;
    NamePlaced(s, f.p, name, rest);
    var q := f.p + |name|;
    var g := f.(state := AttribName, start := f.p);
    Same(s, parent, f, g);
    ScanName(s, parent, g, q);
    ConflictRaises(s, parent, g.(p := q), name);
  }

  lemma AttribRaises(s: string, parent: Option<string>, f: Frame, name: string, v: string)
    requires FrameOk(s, parent, f) && f.state.IgnoreSpaces? && f.next.Body?
    requires Has(s, f.p, " " + (name + ("=" + Quoted(v)))) && ValidName(name) && !Stands(f.names, name)
    ensures Walk(s, parent, f).end.Raised?
  {
    hide Walk;
    var rest := "=" + Quoted(v);
    HasParts(s, f.p, " ", name + rest);
    HasAt(s, f.p, " ", 0);
    HasAt(s, f.p + 1, name + rest, 0);
    Quiet(s, parent, f, Forward(f));
    Looked(s, parent, Forward(f));
    NameRaises(s, parent, Forward(f).(state := Body), name, rest);
  }

  /** The first name that does not stand. */
  lemma {:induction false} AttribsRaise(s: string, parent: Option<string>, f: Frame, attribs: seq<(string, string)>)
    requires FrameOk(s, parent, f) && f.state.IgnoreSpaces? && f.next.Body?
    requires Has(s, f.p, PrintAttribs(attribs)) && FineAttribs(attribs) && NewNames(f.names, f.attribs, attribs)
    requires !NamesStand(f.names, attribs)
    ensures Walk(s, parent, f).end.Raised?
    decreases |attribs|
  {
    hide Walk;
    var (name, v) := attribs[0];
    HasParts(s, f.p, " " + (name + ("=" + Quoted(v))), PrintAttribs(attribs[1..]));
    if Stands(f.names, name) {
      AttribsTail(f.names, f.attribs, attribs);
      var g := AttribRead(s, parent, f, name, v);
      AttribsRaise(s, parent, g, attribs[1..]);
    } else {
      AttribRaises(s, parent, f, name, v);
    }
  }

  lemma HeadRaises(s: string, parent: Option<string>, f: Frame, n: Node)
    requires FrameOk(s, parent, f) && f.state.Begin? && n.Elem? && Has(s, f.p, Print(n))
    requires ValidName(n.name) && FineAttribs(n.attribs) && !NamesStand(f.names, n.attribs)
    ensures Walk(s, parent, f).end.Raised?
  {
    hide Walk;
    ElemParts(n);
    var g := TagStart(s, parent, f, n.name, PrintAttribs(n.attribs) + PrintTail(n));
    HasParts(s, g.p, PrintAttribs(n.attribs), PrintTail(n));
    AttribsRaise(s, parent, g, n.attribs);
  }

  lemma ChildRaises(s: string, parent: Option<string>, g: Frame)
    requires FrameOk(s, parent, g) && g.state.Childs? && g.p < |s|
    requires Walk(s, Some(g.nodename), Fresh(g.names, g.p)).end.Raised?
    ensures Walk(s, parent, g).end.Raised?
  {
  }

  lemma {:induction false} InsideRaises(s: string, names: Names, p: nat, n: Node)
    requires n.Elem? && Fine(n) && !n.short && Has(s, p, PrintAll(n.kids) + ("</" + (n.name + ">")))
    requires !AllStand(names, n.kids)
    ensures Walk(s, Some(n.name), Fresh(names, p)).end.Raised?
    decreases n, 0
  {
    hide Walk;
    var closing := "</" + (n.name + ">");
    HasParts(s, p, PrintAll(n.kids), closing);
    HasAt(s, p + |PrintAll(n.kids)|, closing, 0);
    AllRaises(s, Some(n.name), Fresh(names, p), n.kids);
  }

  lemma {:induction false} ElemRaises(s: string, parent: Option<string>, f: Frame, n: Node)
    requires FrameOk(s, parent, f) && f.state.Begin? && n.Elem? && Fine(n) && Has(s, f.p, Print(n))
    requires !NodeStands(f.names, n)
    ensures Walk(s, parent, f).end.Raised?
    decreases n, 1
  {
    hide Walk;
    if !NamesStand(f.names, n.attribs) {
      HeadRaises(s, parent, f, n);
    } else {
      var h := HeadRead(s, parent, f, n);
      HasParts(s, h.p, ">", PrintAll(n.kids) + ("</" + (n.name + ">")));
      HasAt(s, h.p, ">", 0);
      var g := LongEnd(s, parent, h);
      InsideRaises(s, g.names, g.p, n);
      ChildRaises(s, parent, g);
    }
  }

  lemma {:induction false} AllRaises(s: string, parent: Option<string>, f: Frame, ns: seq<Node>)
    requires FrameOk(s, parent, f) && f.state.Begin? && FineAll(ns) && Has(s, f.p, PrintAll(ns)) && f.nbrackets == 0
    requires !AllStand(f.names, ns) && TextEnds(s, parent, f.p + |PrintAll(ns)|)
    ensures Walk(s, parent, f).end.Raised?
    decreases ns, 3
  {
    hide Walk;
    TextIsOver(s, parent, f.p, ns);
    if NodeStands(f.names, ns[0]) {
      var g := NodeRead(s, parent, f, ns[0]);
      AllRaises(s, parent, g, ns[1..]);
    } else {
      ElemRaises(s, parent, f, ns[0]);
    }
  }

  // ------------------------------------------------------------------- documents

  lemma DocumentRead(names: Names, ns: seq<Node>)
    requires FineAll(ns) && AllStand(names, ns)
    ensures Walk(PrintAll(ns), None, Fresh(names, 0)) == Outcome(CallsAll(ns) + Filler(ns), Returned(|PrintAll(ns)|))
  {
    var s := PrintAll(ns);
    assert s[0..0 + |s|] == s;
    var f := AllRead(s, None, Fresh(names, 0), ns);
    assert s[f.p..f.p] == "";
    assert Walk(s, None, f) == Outcome(Filler(ns), Returned(f.p));
  }

  lemma DocumentRaises(names: Names, ns: seq<Node>)
    requires FineAll(ns) && !AllStand(names, ns)
    ensures Walk(PrintAll(ns), None, Fresh(names, 0)).end.Raised?
  {
    hide Walk;
    var s := PrintAll(ns);
    assert s[0..0 + |s|] == s;
    AllRaises(s, None, Fresh(names, 0), ns);
  }

  /** The round trip: parsing a document that is written out returns at its end and has made the calls that
      describe it, if and only if no attribute's id stands for another name. The document must not contain a
      NUL, nor begin with a byte order mark, which would be skipped. */
  lemma RoundTrip(names: Names, ns: seq<Node>)
    requires FineAll(ns) && NoNul(PrintAll(ns)) && !(BOM <= PrintAll(ns))
    ensures if AllStand(names, ns)
            then Parsed(names, PrintAll(ns)) == Outcome(CallsAll(ns) + Filler(ns), Returned(|PrintAll(ns)|))
            else Parsed(names, PrintAll(ns)).end.Raised?
  {
    hide Walk;
    CStringWhole(PrintAll(ns));
    if AllStand(names, ns) {
      DocumentRead(names, ns);
    } else {
      DocumentRaises(names, ns);
    }
  }

  // ------------------------------------------------------------------- documents that are not well formed

  function Small(c: char): char {
    if 'A' <= c <= 'Z' then (c as int + 32) as char else c
  }

  /** The name in small letters. */
  function InSmall(name: string): string {
    seq(|name|, i requires 0 <= i < |name| => Small(name[i]))
  }

  lemma SmallNames(a: string, b: string)
    ensures SameName(a, b) <==> InSmall(a) == InSmall(b)
  {
    if InSmall(a) == InSmall(b) {
      assert |a| == |InSmall(a)| == |b|;
      forall i | 0 <= i < |a|
        ensures Lower(a[i]) == Lower(b[i])
      {
        assert InSmall(a)[i] == InSmall(b)[i];
      }
    }
  }

  /** The closing tag, with whatever name. */
  lemma ClosingOther(s: string, a: string, f: Frame, b: string)
    requires FrameOk(s, Some(a), f) && f.state.Begin? && Has(s, f.p, "</" + (b + ">")) && ValidName(b)
    ensures if SameName(a, b)
            then Walk(s, Some(a), f)
              == Outcome((if f.nsubs == 0 then [Chars("")] else []) + [Done(Some(b))], Returned(f.p + 2 + |b|))
            else Walk(s, Some(a), f).end.Raised?
  {
    hide Walk;
    var parent := Some(a);
    HasParts(s, f.p, "</", b + ">");
    HasAt(s, f.p, "</", 0);
    HasAt(s, f.p, "</", 1);
    NamePlaced(s, f.p + 2, b, ">");
    var g := Opening(s, parent, f);
    var h := Forward(Skip(g, Close)).(start := g.p + 1);
    Quiet(s, parent, g, h);
    Looked(s, parent, h);
    ClosingNameOther(s, a, h.(state := Close), h.p + |b|, b);
  }

  lemma ClosingNameOther(s: string, a: string, f: Frame, q: nat, b: string)
    requires FrameOk(s, Some(a), f) && f.state.Close? && f.start == f.p && NameAt(s, f.p, q, b) && s[q] == '>'
    ensures if SameName(a, b)
            then Walk(s, Some(a), f)
              == Outcome((if f.nsubs == 0 then [Chars("")] else []) + [Done(Some(b))], Returned(q))
            else Walk(s, Some(a), f).end.Raised?
  {
    var parent := Some(a);
    ScanName(s, parent, f, q);
    if SameName(a, b) {
      var h := Skip(f.(p := q), WaitEndRet).(closing := b);
      Same(s, parent, f.(p := q), h);
      Looked(s, parent, h);
    }
  }

  /** `<a></b>` is an element if and only if the two names are the same in small letters; otherwise it raises. */
  lemma ClosingNames(names: Names, a: string, b: string)
    requires ValidName(a) && ValidName(b)
    ensures var text := "<" + (a + (">" + ("</" + (b + ">"))));
      if InSmall(a) == InSmall(b)
      then Walk(text, None, Fresh(names, 0)) == Outcome([Open(a, []), Chars(""), Done(Some(b))], Returned(|text|))
      else Walk(text, None, Fresh(names, 0)).end.Raised?
  {
    hide Walk;
    var s := "<" + (a + (">" + ("</" + (b + ">"))));
    SmallNames(a, b);
    assert Has(s, 0, s);
    var h := TagStart(s, None, Fresh(names, 0), a, ">" + ("</" + (b + ">")));
    HasParts(s, h.p, ">", "</" + (b + ">"));
    HasAt(s, h.p, ">", 0);
    var g := LongEnd(s, None, h);
    ClosingOther(s, a, Fresh(names, g.p), b);
    if SameName(a, b) {
      var f := ChildRead(s, None, g, Elem(a, [], [], false), [Chars("")] + [Done(Some(b))], g.p + 2 + |b|);
      NothingMore(s, f);
    } else {
      ChildRaises(s, None, g);
    }
  }

  lemma NothingMore(s: string, f: Frame)
    requires FrameOk(s, None, f) && f.state.Begin? && f.p == |s| && f.nsubs > 0
    ensures Walk(s, None, f) == Outcome([], Returned(|s|))
  {
  }

  /** A name that the tag has had before, or that occurs twice. */
  ghost predicate Repeats(had: seq<(string, string)>, attribs: seq<(string, string)>) {
    || (exists j :: 0 <= j < |attribs| && Bound(had, IdOf(attribs[j].0)))
    || (exists i, j :: 0 <= i < j < |attribs| && attribs[i].0 == attribs[j].0)
  }

  lemma BoundAfter(had: seq<(string, string)>, a: (string, string), name: string)
    ensures Bound(had, IdOf(name)) || a.0 == name ==> Bound(had + [a], IdOf(name))
  {
    if a.0 == name {
      assert (had + [a])[|had|] == a;
    }
    if i :| 0 <= i < |had| && IdOf(had[i].0) == IdOf(name) {
      assert (had + [a])[i] == had[i];
    }
  }

  lemma RepeatsLater(had: seq<(string, string)>, attribs: seq<(string, string)>)
    requires attribs != [] && Repeats(had, attribs) && !Bound(had, IdOf(attribs[0].0))
    ensures Repeats(had + [attribs[0]], attribs[1..])
  {
    hide Bound, IdOf;
    if j :| 0 <= j < |attribs| && Bound(had, IdOf(attribs[j].0)) {
      BoundAfter(had, attribs[0], attribs[j].0);
      assert attribs[1..][j - 1] == attribs[j];
    } else {
      var i, j :| 0 <= i < j < |attribs| && attribs[i].0 == attribs[j].0;
      assert attribs[1..][j - 1] == attribs[j];
      if i == 0 {
        BoundAfter(had, attribs[0], attribs[j].0);
      } else {
        assert attribs[1..][i - 1] == attribs[i];
      }
    }
  }

  lemma DuplicateRaises(s: string, parent: Option<string>, f: Frame, name: string, rest: string)
    requires FrameOk(s, parent, f) && f.state.Body? && Has(s, f.p, name + rest) && rest != "" && !IsValidChar(rest[0])
    requires ValidName(name) && Stands(f.names, name) && Bound(f.attribs, IdOf(name))
    ensures Walk(s, parent, f).end.Raised?
  {
    hide Walk;
    NamePlaced(s, f.p, name, rest);
    var g := f.(state := AttribName, start := f.p);
    Same(s, parent, f, g);
    ScanName(s, parent, g, f.p + |name|);
    DuplicateHere(s, parent, g.(p := f.p + |name|), name);
  }

  lemma DuplicateHere(s: string, parent: Option<string>, f: Frame, name: string)
    requires FrameOk(s, parent, f) && f.state.AttribName? && NameAt(s, f.start, f.p, name)
    requires Stands(f.names, name) && Bound(f.attribs, IdOf(name))
    ensures Walk(s, parent, f).end.Raised?
  {
    assert Act(s, parent, f) == Wrong("Duplicate attribute");
  }

  /** However the ids stand, a tag in which an attribute occurs twice raises. */
  lemma {:induction false} RepeatedRaises(s: string, parent: Option<string>, f: Frame, attribs: seq<(string, string)>)
    requires FrameOk(s, parent, f) && f.state.IgnoreSpaces? && f.next.Body?
    requires Has(s, f.p, PrintAttribs(attribs)) && ValidAttribs(attribs) && Repeats(f.attribs, attribs)
    ensures Walk(s, parent, f).end.Raised?
    decreases |attribs|
  {
    hide Walk, Bound, Act, IdOf, Stands, Has;
    var (name, v) := attribs[0];
    HasParts(s, f.p, " " + (name + ("=" + Quoted(v))), PrintAttribs(attribs[1..]));
    if !Stands(f.names, name) {
      AttribRaises(s, parent, f, name, v);
    } else if Bound(f.attribs, IdOf(name)) {
      var rest := name + ("=" + Quoted(v));
      SpaceSkipped(s, parent, f, rest);
      DuplicateRaises(s, parent, Forward(f).(state := Body), name, "=" + Quoted(v));
    } else {
      var g := AttribRead(s, parent, f, name, v);
      RepeatsLater(f.attribs, attribs);
      RepeatedRaises(s, parent, g, attribs[1..]);
    }
  }

  lemma SpaceSkipped(s: string, parent: Option<string>, f: Frame, rest: string)
    requires FrameOk(s, parent, f) && f.state.IgnoreSpaces?
    requires Has(s, f.p, " " + rest) && rest != "" && !IsSpace(rest[0])
    ensures var g := Forward(f).(state := f.next);
      FrameOk(s, parent, g) && Walk(s, parent, f) == Walk(s, parent, g) && Has(s, g.p, rest)
  {
    hide Walk;
    HasParts(s, f.p, " ", rest);
    HasAt(s, f.p, " ", 0);
    HasAt(s, f.p + 1, rest, 0);
    Quiet(s, parent, f, Forward(f));
    Looked(s, parent, Forward(f));
  }

  // ------------------------------------------------------------------- when nobody else interns names

  function AttribNames(attribs: seq<(string, string)>): set<string> {
    set i | 0 <= i < |attribs| :: attribs[i].0
  }

  function NodeNames(n: Node): set<string> {
    if n.Elem? then AttribNames(n.attribs) + AllNames(n.kids) else {}
  }

  /** The names of all attributes of a document. */
  function AllNames(ns: seq<Node>): set<string> {
    if ns == [] then {} else NodeNames(ns[0]) + AllNames(ns[1..])
  }

  ghost predicate EachStands(names: Names, all: set<string>) {
    forall name <- all :: Stands(names, name)
  }

  lemma {:induction false} NodeStandsIff(names: Names, n: Node)
    ensures NodeStands(names, n) <==> EachStands(names, NodeNames(n))
    decreases n, 0
  {
    if n.Elem? {
      AllStandIff(names, n.kids);
      assert NamesStand(names, n.attribs) <==> EachStands(names, AttribNames(n.attribs)) by {
        forall i | 0 <= i < |n.attribs|
          ensures n.attribs[i].0 in AttribNames(n.attribs)
        {
        }
      }
    }
  }

  lemma {:induction false} AllStandIff(names: Names, ns: seq<Node>)
    ensures AllStand(names, ns) <==> EachStands(names, AllNames(ns))
    decreases ns, 1
  {
    if ns != [] {
      NodeStandsIff(names, ns[0]);
      AllStandIff(names, ns[1..]);
    }
  }

  /** No two of the names, nor one of them and one of `before`, have the same id. */
  ghost predicate Apart(before: set<string>, all: set<string>) {
    forall a, b :: a in all && b in all + before && IdOf(a) == IdOf(b) ==> a == b
  }

  /** The names in `before` were interned before; while the document is parsed, nobody but the parser interns
      a name with the id of one of the document's. */
  ghost predicate Alone(names: Names, before: set<string>, all: set<string>) {
    && EachStands(names, before)
    && forall a <- all :: names(IdOf(a)) in all + before && IdOf(names(IdOf(a))) == IdOf(a)
  }

  lemma StandIffApart(names: Names, before: set<string>, all: set<string>)
    requires Alone(names, before, all)
    ensures EachStands(names, all) <==> Apart(before, all)
  {
    if Apart(before, all) {
      forall a | a in all
        ensures Stands(names, a)
      {
        assert names(IdOf(a)) in all + before;
      }
    }
  }

  /** Then a document is read back if and only if its attribute names have ids of their own. */
  lemma RoundTripIff(names: Names, before: set<string>, ns: seq<Node>)
    requires FineAll(ns) && NoNul(PrintAll(ns)) && !(BOM <= PrintAll(ns)) && Alone(names, before, AllNames(ns))
    ensures Parsed(names, PrintAll(ns)) == Outcome(CallsAll(ns) + Filler(ns), Returned(|PrintAll(ns)|))
            <==> Apart(before, AllNames(ns))
  {
    hide Parsed;
    RoundTrip(names, ns);
    AllStandIff(names, ns);
    StandIffApart(names, before, AllNames(ns));
  }

  predicate IsByte(c: char, b: MachineInt.Byte) {
    c as int == b
  }

  lemma BytesOf(name: string, bytes: seq<MachineInt.Byte>)
    requires |bytes| == |name| && forall i: nat :: i < |name| ==> IsByte(name[i], bytes[i])
    ensures IdOf(name) == FieldIntern.FieldId(bytes)
  {
    assert bytes == seq(|name|, i requires 0 <= i < |name| => name[i] as int % 256);
  }

  lemma FirstId()
    ensures IdOf("cctakw") == -487137543
  {
    var bytes: seq<MachineInt.Byte> := [99, 99, 116, 97, 107, 119];
    FieldIntern.FieldIdBy(bytes, [0, 99, 22176, 4945364, -1044667379, -1032591426, -487137543],
      [0, 0, 0, 1, -108, -107]);
    BytesOf("cctakw", bytes);
  }

  lemma SecondId()
    ensures IdOf("aaazaa") == -487137543
  {
    var bytes: seq<MachineInt.Byte> := [97, 97, 97, 122, 97, 97];
    FieldIntern.FieldIdBy(bytes, [0, 97, 21728, 4845441, -1066950183, 440794216, -487137543],
      [0, 0, 0, 1, -111, 46]);
    BytesOf("aaazaa", bytes);
  }

  const COLLIDING: Node := Elem("a", [("cctakw", "1"), ("aaazaa", "2")], [], true)

  lemma PrintTwo(name: string, a: (string, string), b: (string, string))
    ensures Print(Elem(name, [a, b], [], true))
         == "<" + name + (" " + (a.0 + ("=" + Quoted(a.1))) + (" " + (b.0 + ("=" + Quoted(b.1))))) + "/>"
  {
    assert [a, b][1..] == [b] && [b][1..] == [];
    assert PrintAttribs([b]) == " " + (b.0 + ("=" + Quoted(b.1)));
  }

  lemma CollidingPrinted()
    ensures PrintAll([COLLIDING]) == "<a cctakw=\"1\" aaazaa=\"2\"/>"
  {
    hide Print, PrintAttribs;
    PrintOne(COLLIDING);
    PrintTwo("a", ("cctakw", "1"), ("aaazaa", "2"));
  }

  lemma PrintOne(n: Node)
    ensures PrintAll([n]) == Print(n)
  {
    assert [n][1..] == [];
  }

  /** A document that is never read back, whatever was interned before it and by whom: its two attributes
      have the same id. */
  lemma CollidingNames(names: Names)
    ensures FineAll([COLLIDING]) && IdOf("cctakw") == IdOf("aaazaa")
    ensures Parsed(names, "<a cctakw=\"1\" aaazaa=\"2\"/>").end.Raised?
  {
    hide Parsed, IdOf;
    FirstId();
    SecondId();
    CollidingPrinted();
    assert COLLIDING.attribs[0].0 != COLLIDING.attribs[1].0;
    assert !Stands(names, COLLIDING.attribs[0].0) || !Stands(names, COLLIDING.attribs[1].0);
    assert !AllStand(names, [COLLIDING]);
    assert PrintAll([COLLIDING])[0] != BOM[0];
    RoundTrip(names, [COLLIDING]);
  }
}
