/** The event-driven XML parser: a state machine over the characters of a C string that calls itself for
    the contents of an element. */
module Xml {
  import opened ObjTable
  import FieldIntern

  datatype State =
    | IgnoreSpaces | Begin | BeginNode | TagName | Body | AttribName | Equals | AttvalBegin | AttribVal
    | Childs | Close | WaitEnd | WaitEndRet | PCData | Header | Comment | DocType | CData

  /** A call to the events object. `Done` takes no argument there; here it remembers the name in the
      closing tag, if there was one. */
  datatype Event =
    | Open(name: string, attribs: seq<(string, string)>)
    | Done(closing: Option<string>)
    | Chars(text: string)
    | Raw(text: string)
    | Remark(text: string)
    | Type(text: string)

  /** What each field id stands for: the name that it is bound to once `val_id` has been called for it, and
      for ever after, whichever thread came first. */
  type Names = int -> string

  /** The local variables of `do_parse_xml`; `closing` is the closing tag's name, which it only compares. The
      names that ids stand for do not change. */
  datatype Frame = Frame(state: State, next: State, start: nat, p: nat, aname: string,
                         attribs: seq<(string, string)>, nodename: string, closing: string, nsubs: nat, nbrackets: int,
                         names: Names)

  /** How a call ends: it returns with `*lp`, or raises an error found at `p`. */
  datatype End = Returned(p: nat) | Raised(msg: string, p: nat)

  datatype Outcome = Outcome(events: seq<Event>, end: End)

  /** What one round of the loop does. */
  datatype Move =
    | Stay(f: Frame)                       // `continue`: the same character again
    | Next(f: Frame, events: seq<Event>)   // on to the next character
    | Child
    | Leave(events: seq<Event>)
    | Wrong(msg: string)

  // ------------------------------------------------------------------- characters

  /** The character at `i`, which may be the closing NUL but nothing beyond. */
  function At(s: string, i: nat): char
    requires i <= |s|
  {
    if i < |s| then s[i] else '\0'
  }

  predicate NoNul(s: string) {
    forall i :: 0 <= i < |s| ==> s[i] != '\0'
  }

  predicate IsValidChar(c: char) {
    'a' <= c <= 'z' || 'A' <= c <= 'Z' || '0' <= c <= '9' || c == ':' || c == '.' || c == '_' || c == '-'
  }

  predicate IsSpace(c: char) {
    c == '\n' || c == '\r' || c == '\t' || c == ' '
  }

  function Lower(c: char): char {
    if 'A' <= c <= 'Z' then (c as int + 32) as char else c
  }

  /** `strcasecmp` finds no difference. */
  predicate SameName(a: string, b: string) {
    |a| == |b| && forall i :: 0 <= i < |a| ==> Lower(a[i]) == Lower(b[i])
  }

  /** The text at `i` is `word`, character by character and up to the first that differs. */
  predicate Starts(s: string, i: nat, word: string)
    requires i <= |s| && NoNul(word)
    ensures Starts(s, i, word) ==> i + |word| <= |s|
    decreases |word|
  {
    word == "" || (At(s, i) == word[0] && Starts(s, i + 1, word[1..]))
  }

  /** The same whatever the case; `word` is in lower case. */
  predicate StartsAnyCase(s: string, i: nat, word: string)
    requires i <= |s| && NoNul(word)
    ensures StartsAnyCase(s, i, word) ==> i + |word| <= |s|
    decreases |word|
  {
    word == "" || (Lower(At(s, i)) == word[0] && StartsAnyCase(s, i + 1, word[1..]))
  }

  // ------------------------------------------------------------------- one round

  /** The id of a name, whose characters are bytes. */
  function IdOf(name: string): int {
    FieldIntern.FieldId(seq(|name|, i requires 0 <= i < |name| => name[i] as int % 256))
  }

  /** `val_id` succeeds: the name's id does not stand for another name. */
  predicate Stands(names: Names, name: string) {
    names(IdOf(name)) == name
  }

  /** The object of attributes has a field of that id. */
  predicate Bound(attribs: seq<(string, string)>, id: int) {
    exists i :: 0 <= i < |attribs| && IdOf(attribs[i].0) == id
  }

  function Conflict(names: Names, name: string): string {
    "Field conflict between " + names(IdOf(name)) + " and " + name
  }

  /** The state that will look at the character: spaces are skipped before it or not. */
  function Rank(f: Frame): nat {
    match f.state
    case IgnoreSpaces => 1 + RankOf(f.next)
    case TagName => if f.p > f.start then 3 else 0
    case AttribName => if f.p > f.start then 2 else 0
    case _ => RankOf(f.state)
  }

  function RankOf(state: State): nat {
    match state
    case Begin => 1
    case BeginNode => 1
    case Body => 1
    case Childs => 2
    case Close => 2
    case _ => 0
  }

  predicate InCloseTag(state: State) {
    state.Close? || state.WaitEndRet?
  }

  predicate InOpenTag(state: State) {
    state.TagName? || state.Body? || state.AttribName? || state.Equals? || state.AttvalBegin? || state.AttribVal?
  }

  predicate InsideText(state: State) {
    state.PCData? || state.CData? || state.Comment? || state.Header? || state.DocType?
  }

  /** What holds of the locals whenever a round begins. */
  predicate FrameOk(s: string, parent: Option<string>, f: Frame) {
    && f.start <= f.p <= |s|
    && (f.state.IgnoreSpaces? ==> f.next.BeginNode? || f.next.Close? || f.next.WaitEndRet?
                                  || f.next.Body? || f.next.Equals? || f.next.AttvalBegin?)
    && (f.state.AttribVal? ==> f.start < f.p)
    && (InCloseTag(Pending(f)) ==> parent.Some?)
    && (Pending(f).WaitEndRet? ==> SameName(parent.value, f.closing))
  }

  /** The state in which the next character that is no space will be looked at. */
  function Pending(f: Frame): State {
    if f.state.IgnoreSpaces? then f.next else f.state
  }

  function Skip(f: Frame, next: State): Frame {
    f.(state := IgnoreSpaces, next := next)
  }

  function Forward(f: Frame): Frame {
    f.(p := f.p + 1)
  }

  /** Text up to the next `<`, names, and everything else that is read as a whole. */
  function InText(s: string, f: Frame): Move
    requires f.start <= f.p < |s| && InsideText(f.state)
  {
    var c, text := s[f.p], s[f.start..f.p];
    match f.state
    case PCData =>
      if c == '<' then Next(Forward(Skip(f, BeginNode)).(nsubs := f.nsubs + 1), [Chars(text)]) else Next(Forward(f), [])
    case CData =>
      if Starts(s, f.p, "]]>") then
        Next(f.(p := f.p + 3, state := Begin, nsubs := f.nsubs + 1), [Raw(text)])
      else Next(Forward(f), [])
    case Comment =>
      if Starts(s, f.p, "-->") then Next(f.(p := f.p + 3, state := Begin), [Remark(text)]) else Next(Forward(f), [])
    case Header =>
      if Starts(s, f.p, "?>") then Next(f.(p := f.p + 2, state := Begin), [Remark(s[f.start..f.p + 1])])
      else Next(Forward(f), [])
    case DocType =>
      if c == '[' then Next(Forward(f).(nbrackets := f.nbrackets + 1), [])
      else if c == ']' then Next(Forward(f).(nbrackets := f.nbrackets - 1), [])
      else if c == '>' && f.nbrackets == 0 then Next(Forward(f).(state := Begin), [Type(text)])
      else Next(Forward(f), [])
  }

  /** After `<!`. */
  function InDeclaration(s: string, f: Frame): Move
    requires f.p < |s|
  {
    if At(s, f.p + 1) == '[' then
      if !StartsAnyCase(s, f.p + 2, "cdata[") then Wrong("Expected <![CDATA[")
      else Next(f.(state := CData, start := f.p + 8, p := f.p + 8), [])
    else if Lower(At(s, f.p + 1)) == 'd' then
      if !StartsAnyCase(s, f.p + 2, "octype") then Wrong("Expected <!DOCTYPE")
      else Next(f.(state := DocType, start := f.p + 8, p := f.p + 8), [])
    else if !Starts(s, f.p + 1, "--") then Wrong("Expected <!--")
    else Next(f.(state := Comment, start := f.p + 3, p := f.p + 3), [])
  }

  /** After `<`. */
  function InNode(s: string, parent: Option<string>, f: Frame): Move
    requires f.p < |s|
  {
    match s[f.p]
    case '!' => InDeclaration(s, f)
    case '?' => Next(Forward(f).(state := Header, start := f.p), [])
    case '/' =>
      if parent.None? then Wrong("Expected node name") else Next(Forward(Skip(f, Close)).(start := f.p + 1), [])
    case _ => Stay(f.(state := TagName, start := f.p))
  }

  /** Inside an opening tag. */
  function InTag(s: string, f: Frame): Move
    requires f.start <= f.p < |s| && InOpenTag(f.state)
  {
    var c := s[f.p];
    match f.state
    case TagName =>
      if IsValidChar(c) then Next(Forward(f), [])
      else if f.p == f.start then Wrong("Expected node name")
      else Stay(Skip(f, Body).(nodename := s[f.start..f.p], attribs := []))
    case Body =>
      if c == '/' then Next(Forward(f).(state := WaitEnd, nsubs := f.nsubs + 1), [Open(f.nodename, f.attribs)])
      else if c == '>' then Next(Forward(f).(state := Childs, nsubs := f.nsubs + 1), [Open(f.nodename, f.attribs)])
      else Stay(f.(state := AttribName, start := f.p))
    case AttribName =>
      if IsValidChar(c) then Next(Forward(f), [])
      else if f.p == f.start then Wrong("Expected attribute name")
      else
        var name := s[f.start..f.p];
        if !Stands(f.names, name) then Wrong(Conflict(f.names, name))
        else if Bound(f.attribs, IdOf(name)) then Wrong("Duplicate attribute")
        else Stay(Skip(f, Equals).(aname := name))
    case Equals => if c == '=' then Next(Forward(Skip(f, AttvalBegin)), []) else Wrong("Expected =")
    case AttvalBegin =>
      if c == '"' || c == '\'' then Next(Forward(f).(state := AttribVal, start := f.p), []) else Wrong("Expected \"")
    case AttribVal =>
      if f.start < f.p && c == s[f.start] then
        Next(Forward(Skip(f, Body)).(attribs := f.attribs + [(f.aname, s[f.start + 1..f.p])]), [])
      else Next(Forward(f), [])
  }

  /** At the end of a tag, and inside a closing one. */
  function InClosing(s: string, parent: Option<string>, f: Frame): Move
    requires f.start <= f.p < |s| && (f.state.WaitEnd? || (InCloseTag(f.state) && parent.Some?))
  {
    var c := s[f.p];
    match f.state
    case WaitEnd => if c == '>' then Next(Forward(f).(state := Begin), [Done(None)]) else Wrong("Expected >")
    case WaitEndRet =>
      if c != '>' then Wrong("Expected >")
      else Leave((if f.nsubs == 0 then [Chars("")] else []) + [Done(Some(f.closing))])
    case Close =>
      var name := s[f.start..f.p];
      if IsValidChar(c) then Next(Forward(f), [])
      else if name == "" then Wrong("Expected node name")
      else if !SameName(parent.value, name) then Wrong("Expected </" + parent.value + ">")
      else Stay(Skip(f, WaitEndRet).(closing := name))
  }

  /** One round of the loop. */
  function Act(s: string, parent: Option<string>, f: Frame): Move
    requires FrameOk(s, parent, f) && f.p < |s|
  {
    var c := s[f.p];
    if f.state.IgnoreSpaces? then
      if IsSpace(c) then Next(Forward(f), []) else Stay(f.(state := f.next))
    else if f.state.Begin? then
      if c == '<' then Next(Forward(Skip(f, BeginNode)), []) else Stay(f.(state := PCData, start := f.p))
    else if f.state.BeginNode? then InNode(s, parent, f)
    else if f.state.Childs? then Child
    else if InsideText(f.state) then InText(s, f)
    else if InOpenTag(f.state) then InTag(s, f)
    else InClosing(s, parent, f)
  }

  /** After the loop. */
  function AtEnd(s: string, parent: Option<string>, f: Frame): Outcome
    requires f.start <= f.p == |s|
  {
    var start := if f.state.Begin? then f.p else f.start;
    if parent.None? && (f.state.Begin? || f.state.PCData?) then
      Outcome(if f.p != start || f.nsubs == 0 then [Chars(s[start..f.p])] else [], Returned(f.p))
    else
      Outcome([], Raised("Unexpected end", f.p))
  }

  function Fresh(names: Names, p: nat): Frame {
    Frame(Begin, Begin, p, p, "", [], "", "", 0, 0, names)
  }

  function After(f: Frame, p: nat): Frame {
    f.(state := Begin, start := p, p := p + 1)
  }

  function Onto(events: seq<Event>, o: Outcome): Outcome {
    o.(events := events + o.events)
  }

  /** The loop from locals `f` on, until the call returns or raises: it returns at the `>` of the closing
      tag, or at the end of the text. */
  function Walk(s: string, parent: Option<string>, f: Frame): (o: Outcome)
    requires FrameOk(s, parent, f)
    ensures o.end.Returned? ==> f.p <= o.end.p <= |s| && (o.end.p == |s| <==> parent.None?)
    decreases |s| - f.p, Rank(f)
  {
    if f.p == |s| then AtEnd(s, parent, f)
    else
      MoveOk(s, parent, f);
      match Act(s, parent, f)
      case Stay(f') => Walk(s, parent, f')
      case Next(f', events) => Onto(events, Walk(s, parent, f'))
      case Leave(events) => Outcome(events, Returned(f.p))
      case Wrong(msg) => Outcome([], Raised(msg, f.p))
      case Child =>
        var o := Walk(s, Some(f.nodename), Fresh(f.names, f.p));
        if o.end.Raised? then o else Onto(o.events, Walk(s, parent, After(f, o.end.p)))
  }

  /** Every round moves on in the text, or looks at the same character in a state of lower rank. */
  ghost predicate MovesOn(s: string, parent: Option<string>, f: Frame, m: Move) {
    match m
    case Stay(f') => FrameOk(s, parent, f') && f'.p == f.p && Rank(f') < Rank(f) && f'.names == f.names
    case Next(f', _) => FrameOk(s, parent, f') && f'.p > f.p && f'.names == f.names
    case Child => f.state.Childs?
    case Leave(_) => parent.Some?
    case Wrong(_) => true
  }

  lemma TextMovesOn(s: string, parent: Option<string>, f: Frame)
    requires FrameOk(s, parent, f) && f.p < |s| && InsideText(f.state)
    ensures MovesOn(s, parent, f, InText(s, f))
  {
  }

  lemma DeclarationMovesOn(s: string, parent: Option<string>, f: Frame)
    requires FrameOk(s, parent, f) && f.p < |s| && f.state.BeginNode?
    ensures MovesOn(s, parent, f, InDeclaration(s, f))
  {
  }

  lemma NodeMovesOn(s: string, parent: Option<string>, f: Frame)
    requires FrameOk(s, parent, f) && f.p < |s| && f.state.BeginNode?
    ensures MovesOn(s, parent, f, InNode(s, parent, f))
  {
    DeclarationMovesOn(s, parent, f);
  }

  lemma TagMovesOn(s: string, parent: Option<string>, f: Frame)
    requires FrameOk(s, parent, f) && f.p < |s| && InOpenTag(f.state)
    ensures MovesOn(s, parent, f, InTag(s, f))
  {
  }

  lemma ClosingMovesOn(s: string, parent: Option<string>, f: Frame)
    requires FrameOk(s, parent, f) && f.p < |s| && (f.state.WaitEnd? || InCloseTag(f.state))
    ensures MovesOn(s, parent, f, InClosing(s, parent, f))
  {
  }

  lemma MoveOk(s: string, parent: Option<string>, f: Frame)
    requires FrameOk(s, parent, f) && f.p < |s|
    ensures MovesOn(s, parent, f, Act(s, parent, f))
  {
    if f.state.BeginNode? {
      NodeMovesOn(s, parent, f);
    } else if InsideText(f.state) {
      TextMovesOn(s, parent, f);
    } else if InOpenTag(f.state) {
      TagMovesOn(s, parent, f);
    } else if f.state.WaitEnd? || InCloseTag(f.state) {
      ClosingMovesOn(s, parent, f);
    }
  }

  // ------------------------------------------------------------------- the events are well nested

  /** An element that is open, or the document (which has no name): whether any event came inside it, and
      whether one did that is character data or an element. */
  datatype Element = Element(name: Option<string>, touched: bool, held: bool)

  /** The open elements after one more event, the innermost first; `None` where the event has no place.
      `Done` without a closing tag ends an element that nothing came inside. With one, the names agree
      whatever their case and the element holds something, if only an empty text. */
  function Nested(open: seq<Element>, e: Event): Option<seq<Element>> {
    if open == [] then None
    else if e.Done? then
      if |open| > 1 && open[0].name.Some?
         && (if e.closing.None? then !open[0].touched
             else open[0].held && SameName(open[0].name.value, e.closing.value))
      then Some(open[1..]) else None
    else
      var outer := [Element(open[0].name, true, open[0].held || e.Open? || e.Chars? || e.Raw?)] + open[1..];
      Some(if e.Open? then [Element(Some(e.name), false, false)] + outer else outer)
  }

  function AllNested(open: seq<Element>, events: seq<Event>): Option<seq<Element>>
    decreases |events|
  {
    if events == [] then Some(open)
    else
      var next := Nested(open, events[0]);
      if next.None? then None else AllNested(next.value, events[1..])
  }

  lemma {:induction false} NestedThen(open: seq<Element>, events: seq<Event>, more: seq<Event>)
    requires AllNested(open, events).Some?
    ensures AllNested(open, events + more) == AllNested(AllNested(open, events).value, more)
    decreases |events|
  {
    if events == [] {
      assert events + more == more;
    } else {
      assert (events + more)[1..] == events[1..] + more;
      NestedThen(Nested(open, events[0]).value, events[1..], more);
    }
  }

  /** The elements open when a round begins: the call's own, and below it its callers'. */
  function Opened(f: Frame, own: Element, outer: seq<Element>): seq<Element> {
    if f.state.WaitEnd? || f.state.Childs? then [Element(Some(f.nodename), false, false), own] + outer
    else [own] + outer
  }

  predicate Owns(parent: Option<string>, f: Frame, own: Element, outer: seq<Element>) {
    own.name == parent && (own.held <==> f.nsubs > 0) && (parent.Some? ==> outer != [])
  }

  function OwnAfter(own: Element, m: Move): Element
    requires m.Next?
  {
    Element(own.name, own.touched || (m.events != [] && !m.events[0].Done?), m.f.nsubs > 0)
  }

  predicate NextNested(f: Frame, own: Element, outer: seq<Element>, m: Move) {
    m.Next? ==> AllNested(Opened(f, own, outer), m.events) == Some(Opened(m.f, OwnAfter(own, m), outer))
  }

  lemma NoEvent(open: seq<Element>)
    ensures AllNested(open, []) == Some(open)
  {
  }

  /** One event inside the innermost element. */
  lemma EventInside(own: Element, outer: seq<Element>, e: Event)
    requires !e.Done?
    ensures var own' := Element(own.name, true, own.held || e.Open? || e.Chars? || e.Raw?);
      AllNested([own] + outer, [e])
        == Some(if e.Open? then [Element(Some(e.name), false, false), own'] + outer else [own'] + outer)
  {
    var own' := Element(own.name, true, own.held || e.Open? || e.Chars? || e.Raw?);
    assert ([own] + outer)[1..] == outer && [e][1..] == [];
    NoEvent(Nested([own] + outer, e).value);
    if e.Open? {
      assert [Element(Some(e.name), false, false)] + ([own'] + outer)
        == [Element(Some(e.name), false, false), own'] + outer;
    }
  }

  /** The end of the innermost element. */
  lemma EventEnds(inner: Element, outer: seq<Element>, closing: Option<string>)
    requires outer != [] && inner.name.Some?
    requires if closing.None? then !inner.touched else inner.held && SameName(inner.name.value, closing.value)
    ensures AllNested([inner] + outer, [Done(closing)]) == Some(outer)
  {
    assert ([inner] + outer)[1..] == outer && [Done(closing)][1..] == [];
    NoEvent(outer);
  }

  lemma TextNested(s: string, parent: Option<string>, f: Frame, own: Element, outer: seq<Element>)
    requires FrameOk(s, parent, f) && f.p < |s| && InsideText(f.state) && Owns(parent, f, own, outer)
    ensures NextNested(f, own, outer, InText(s, f))
  {
    var m := InText(s, f);
    if m.events != [] {
      EventInside(own, outer, m.events[0]);
      assert m.events == [m.events[0]];
    } else {
      NoEvent([own] + outer);
    }
  }

  lemma NodeNested(s: string, parent: Option<string>, f: Frame, own: Element, outer: seq<Element>)
    requires FrameOk(s, parent, f) && f.p < |s| && f.state.BeginNode? && Owns(parent, f, own, outer)
    ensures NextNested(f, own, outer, InNode(s, parent, f))
  {
    NoEvent([own] + outer);
  }

  lemma TagNested(s: string, parent: Option<string>, f: Frame, own: Element, outer: seq<Element>)
    requires FrameOk(s, parent, f) && f.p < |s| && InOpenTag(f.state) && Owns(parent, f, own, outer)
    ensures NextNested(f, own, outer, InTag(s, f))
  {
    var m := InTag(s, f);
    if m.Next? {
      if m.events != [] {
        EventInside(own, outer, m.events[0]);
        assert m.events == [m.events[0]];
      } else {
        NoEvent([own] + outer);
      }
    }
  }

  lemma ClosingNested(s: string, parent: Option<string>, f: Frame, own: Element, outer: seq<Element>)
    requires FrameOk(s, parent, f) && f.p < |s| && (f.state.WaitEnd? || InCloseTag(f.state))
      && Owns(parent, f, own, outer)
    ensures NextNested(f, own, outer, InClosing(s, parent, f))
  {
    var m := InClosing(s, parent, f);
    if m.Next? && m.events != [] {
      var inner := Element(Some(f.nodename), false, false);
      EventEnds(inner, [own] + outer, None);
      assert [inner, own] + outer == [inner] + ([own] + outer);
    } else {
      NoEvent([own] + outer);
    }
  }

  lemma MoveNested(s: string, parent: Option<string>, f: Frame, own: Element, outer: seq<Element>)
    requires FrameOk(s, parent, f) && f.p < |s| && Owns(parent, f, own, outer)
    ensures NextNested(f, own, outer, Act(s, parent, f))
  {
    if f.state.BeginNode? {
      NodeNested(s, parent, f, own, outer);
    } else if InsideText(f.state) {
      TextNested(s, parent, f, own, outer);
    } else if InOpenTag(f.state) {
      TagNested(s, parent, f, own, outer);
    } else if f.state.WaitEnd? || InCloseTag(f.state) {
      ClosingNested(s, parent, f, own, outer);
    } else {
      NoEvent([own] + outer);
    }
  }

  /** What is open when a call is over: what was open around its element, or the document. */
  predicate Ended(parent: Option<string>, outer: seq<Element>, open: Option<seq<Element>>) {
    && open.Some?
    && if parent.Some? then open.value == outer
       else |open.value| == 1 && open.value[0].name.None? && open.value[0].held
  }

  /** From anywhere in a call: every event it makes has its place, also when it raises in the end, and
      when it returns its element has been closed. */
  lemma {:induction false} WalkNested(s: string, parent: Option<string>, f: Frame, own: Element, outer: seq<Element>)
    requires FrameOk(s, parent, f) && Owns(parent, f, own, outer) && (parent.None? ==> outer == [])
    ensures AllNested(Opened(f, own, outer), Walk(s, parent, f).events).Some?
    ensures Walk(s, parent, f).end.Returned? ==>
      Ended(parent, outer, AllNested(Opened(f, own, outer), Walk(s, parent, f).events))
    decreases |s| - f.p, Rank(f)
  {
    if f.p == |s| {
      EndNested(s, parent, f, own, outer);
    } else {
      MoveOk(s, parent, f);
      MoveNested(s, parent, f, own, outer);
      match Act(s, parent, f)
      case Stay(f') =>
        StayOpens(s, parent, f);
        WalkNested(s, parent, f', own, outer);
      case Next(f', events) =>
        var own' := OwnAfter(own, Act(s, parent, f));
        WalkNested(s, parent, f', own', outer);
        NestedThen(Opened(f, own, outer), events, Walk(s, parent, f').events);
      case Leave(events) => LeaveNested(s, parent, f, own, outer);
      case Wrong(_) => NoEvent(Opened(f, own, outer));
      case Child =>
        var inner := Element(Some(f.nodename), false, false);
        assert Opened(f, own, outer) == [inner] + ([own] + outer);
        WalkNested(s, Some(f.nodename), Fresh(f.names, f.p), inner, [own] + outer);
        var o := Walk(s, Some(f.nodename), Fresh(f.names, f.p));
        if o.end.Returned? {
          WalkNested(s, parent, After(f, o.end.p), own, outer);
          NestedThen(Opened(f, own, outer), o.events, Walk(s, parent, After(f, o.end.p)).events);
        }
    }
  }

  lemma StayOpens(s: string, parent: Option<string>, f: Frame)
    requires FrameOk(s, parent, f) && f.p < |s| && Act(s, parent, f).Stay?
    ensures var f' := Act(s, parent, f).f;
      !f.state.WaitEnd? && !f.state.Childs? && !f'.state.WaitEnd? && !f'.state.Childs? && f'.nsubs == f.nsubs
  {
  }

  lemma EndNested(s: string, parent: Option<string>, f: Frame, own: Element, outer: seq<Element>)
    requires FrameOk(s, parent, f) && f.p == |s| && Owns(parent, f, own, outer) && (parent.None? ==> outer == [])
    ensures var o := AtEnd(s, parent, f);
      && AllNested(Opened(f, own, outer), o.events).Some?
      && (o.end.Returned? ==> Ended(parent, outer, AllNested(Opened(f, own, outer), o.events)))
  {
    var o := AtEnd(s, parent, f);
    if o.events == [] {
      NoEvent(Opened(f, own, outer));
    } else {
      EventInside(own, outer, o.events[0]);
      assert o.events == [o.events[0]];
    }
  }

  lemma LeaveNested(s: string, parent: Option<string>, f: Frame, own: Element, outer: seq<Element>)
    requires FrameOk(s, parent, f) && f.p < |s| && Owns(parent, f, own, outer) && Act(s, parent, f).Leave?
    ensures AllNested(Opened(f, own, outer), Act(s, parent, f).events) == Some(outer)
  {
    var done := [Done(Some(f.closing))];
    if f.nsubs == 0 {
      var empty := [Chars("")];
      EventInside(own, outer, empty[0]);
      EventEnds(Element(own.name, true, true), outer, Some(f.closing));
      NestedThen([own] + outer, empty, done);
    } else {
      EventEnds(own, outer, Some(f.closing));
      assert [] + done == done;
    }
  }

  // ------------------------------------------------------------------- parse_xml

  /** A string as C sees it, up to its first NUL. */
  function CString(text: string): (s: string)
    ensures NoNul(s) && s <= text && (|s| < |text| ==> text[|s|] == '\0')
  {
    if text == "" || text[0] == '\0' then "" else [text[0]] + CString(text[1..])
  }

  const BOM := [0xEF as char, 0xBB as char, 0xBF as char]

  /** The text that is parsed. */
  function Content(text: string): string {
    var s := CString(text);
    if BOM <= s then s[3..] else s
  }

  /** `parse_xml`. */
  function Parsed(names: Names, text: string): Outcome {
    Walk(Content(text), None, Fresh(names, 0))
  }

  /** A byte order mark is skipped, and nothing else is; what comes behind a NUL does not matter. */
  lemma MarkSkipped(names: Names, text: string, rest: string)
    requires NoNul(text)
    ensures var mark := [239 as char, 187 as char, 191 as char];
      && Parsed(names, mark + text) == Walk(text, None, Fresh(names, 0))
      && (!(mark <= text) ==> Parsed(names, text) == Walk(text, None, Fresh(names, 0)))
      && Parsed(names, text + "\0" + rest) == Parsed(names, text)
  {
    hide Walk;
    var mark := [239 as char, 187 as char, 191 as char];
    UpToNul(text, rest);
    CStringWhole(text);
    CStringWhole(mark + text);
  }

  lemma CStringWhole(text: string)
    requires NoNul(text)
    ensures CString(text) == text
  {
    assert CString(text) <= text;
  }

  lemma {:induction false} UpToNul(text: string, rest: string)
    requires NoNul(text)
    ensures CString(text + "\0" + rest) == CString(text)
  {
    if text == "" {
      assert (text + "\0" + rest)[0] == '\0';
    } else {
      assert (text + "\0" + rest)[1..] == text[1..] + "\0" + rest;
      UpToNul(text[1..], rest);
    }
  }

  /** The calls made for any text are well nested, whether the parser raises in the end or not. When it
      returns, every element has been closed, and the document holds something. */
  lemma ParsedNested(names: Names, text: string)
    ensures var open := AllNested([Element(None, false, false)], Parsed(names, text).events);
      && open.Some?
      && (Parsed(names, text).end.Returned? ==> open == Some([Element(None, true, true)]))
  {
    var own := Element(None, false, false);
    assert [own] + [] == [own];
    WalkNested(Content(text), None, Fresh(names, 0), own, []);
    var open := AllNested([own], Parsed(names, text).events);
    if Parsed(names, text).end.Returned? {
      HeldTouched([own], Parsed(names, text).events);
      assert open.value == [open.value[0]];
    }
  }

  /** What holds something has been touched. */
  lemma {:induction false} HeldTouched(open: seq<Element>, events: seq<Event>)
    requires AllNested(open, events).Some? && forall i :: 0 <= i < |open| ==> (open[i].held ==> open[i].touched)
    ensures var after := AllNested(open, events).value;
      forall i :: 0 <= i < |after| ==> (after[i].held ==> after[i].touched)
    decreases |events|
  {
    if events != [] {
      HeldTouched(Nested(open, events[0]).value, events[1..]);
    }
  }

  /** The parser and the calls it has made. */
  class Parser {
    const xml: string
    const names: Names
    var events: seq<Event>

    constructor (names: Names, text: string)
      ensures xml == Content(text) && this.names == names && events == []
    {
      xml, this.names, events := Content(text), names, [];
    }

    /** The loop of `do_parse_xml`, which calls itself for the contents of an element. */
    method Parse(lp: nat, parent: Option<string>) returns (end: End)
      requires lp <= |xml|
      modifies this
      ensures end == Walk(xml, parent, Fresh(names, lp)).end
      ensures events == old(events) + Walk(xml, parent, Fresh(names, lp)).events
      decreases |xml| - lp
    {
      hide Act, Rank;
      var f := Fresh(names, lp);
      ghost var whole, made := Walk(xml, parent, f), [];
      MadeNothing(events, whole);
      while f.p < |xml|
        invariant FrameOk(xml, parent, f) && f.p >= lp && (f.state.Childs? ==> f.p > lp)
        invariant f.names == names
        invariant events == old(events) + made && Onto(made, Walk(xml, parent, f)) == whole
        decreases |xml| - f.p, Rank(f)
      {
        MoveOk(xml, parent, f);
        match Act(xml, parent, f)
        case Stay(f') =>
          StayOpens(xml, parent, f);
          f := f';
        case Next(f', calls) =>
          MadeMore(old(events), made, calls, Walk(xml, parent, f'));
          events, made, f := events + calls, made + calls, f';
        case Leave(calls) =>
          MadeMore(old(events), made, calls, Outcome([], Returned(f.p)));
          events := events + calls;
          return Returned(f.p);
        case Wrong(msg) =>
          return Raised(msg, f.p);
        case Child =>
          ghost var inner := Walk(xml, Some(f.nodename), Fresh(f.names, f.p));
          end := Parse(f.p, Some(f.nodename));
          if end.Raised? {
            MadeMore(old(events), made, inner.events, Outcome([], end));
            return;
          }
          MadeMore(old(events), made, inner.events, Walk(xml, parent, After(f, end.p)));
          made, f := made + inner.events, After(f, end.p);
      }
      var last := AtEnd(xml, parent, f);
      MadeMore(old(events), made, last.events, Outcome([], last.end));
      events := events + last.events;
      end := last.end;
    }
  }

  lemma MadeNothing(before: seq<Event>, whole: Outcome)
    ensures before == before + [] && Onto([], whole) == whole
  {
    assert [] + whole.events == whole.events;
  }

  lemma MadeMore(before: seq<Event>, made: seq<Event>, calls: seq<Event>, o: Outcome)
    ensures (before + made) + calls == before + (made + calls)
    ensures Onto(made, Onto(calls, o)) == Onto(made + calls, o)
    ensures o.events == [] ==> Onto(made, Onto(calls, o)).events == made + calls
  {
    assert made + (calls + o.events) == (made + calls) + o.events;
  }

  /** `parse_xml`. */
  method ParseXml(names: Names, text: string) returns (events: seq<Event>, end: End)
    ensures Outcome(events, end) == Parsed(names, text)
  {
    var parser := new Parser(names, text);
    end := parser.Parse(0, None);
    events := parser.events;
  }
}
