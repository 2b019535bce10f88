/**
 * The code-block rewriting pass shared by both renderers: a stream of pulldown-cmark events
 * goes in, and every code block (its start tag, its text events, its end tag) comes out as
 * one raw-HTML event holding the highlighted code. The highlighter is a parameter, so the
 * pass is stated once, for either renderer's error type.
 */
module CodeBlocks {
  import opened Wrappers

  datatype CodeBlockKind = Indented | Fenced(info: string)
  datatype Tag = CodeBlock(kind: CodeBlockKind) | OtherTag(name: string)
  /** The events the pass tells apart; every other pulldown-cmark event is an `OtherEvent`. */
  datatype Event = Start(tag: Tag) | End(tag: Tag) | Text(text: string) | Html(html: string) | OtherEvent(name: string)

  /**
   * The two pulldown-cmark entry points the renderers call, both foreign: the parser with all
   * extensions on, and the HTML writer.
   */
  datatype Pulldown = Pulldown(parse: string -> seq<Event>, pushHtml: seq<Event> -> string)

  predicate IsCodeBlockEvent(e: Event) {
    (e.Start? || e.End?) && e.tag.CodeBlock?
  }

  predicate NoCodeBlocks(events: seq<Event>) {
    forall i :: 0 <= i < |events| ==> !IsCodeBlockEvent(events[i])
  }

  /** The loop's two variables besides its output: whether it is inside a code block, and the code gathered so far. */
  datatype State = State(inCodeBlock: bool, buffer: string)

  const Initial := State(false, "")

  /** The language handed to the highlighter: a fenced block's info string, nothing for an indented block. */
  function Language(kind: CodeBlockKind): string {
    match kind
    case Fenced(info) => info
    case Indented => ""
  }

  /** The state after one event. An end tag keeps the buffer; the next start tag clears it. */
  function Next(st: State, e: Event): State {
    match e
    case Start(CodeBlock(_)) => State(true, "")
    case End(CodeBlock(_)) => if st.inCodeBlock then State(false, st.buffer) else st
    case Text(t) => if st.inCodeBlock then State(true, st.buffer + t) else st
    case _ => st
  }

  /** The events pushed to the output for one input event, or the highlighter's error. */
  function Emit<E>(highlight: (string, string) -> Result<string, E>, st: State, e: Event): Result<seq<Event>, E> {
    match e
    case Start(CodeBlock(_)) => Ok([])
    case End(CodeBlock(kind)) =>
      if st.inCodeBlock then
        var html :- highlight(st.buffer, Language(kind));
        Ok([Html(html)])
      else Ok([])
    case Text(_) => if st.inCodeBlock then Ok([]) else Ok([e])
    case _ => Ok([e])
  }

  /** Output of two consecutive stretches: the first error, else both outputs in order. */
  function Join<E>(a: Result<seq<Event>, E>, b: Result<seq<Event>, E>): Result<seq<Event>, E> {
    if a.Err? then a else if b.Err? then b else Ok(a.value + b.value)
  }

  lemma JoinAssoc<E>(a: Result<seq<Event>, E>, b: Result<seq<Event>, E>, c: Result<seq<Event>, E>)
    ensures Join(Join(a, b), c) == Join(a, Join(b, c))
  {
    if a.Ok? && b.Ok? && c.Ok? {
      assert a.value + b.value + c.value == a.value + (b.value + c.value);
    }
  }

  lemma JoinUnit<E>(a: Result<seq<Event>, E>)
    ensures Join(Ok([]), a) == a && Join(a, Ok([])) == a
  {
    if a.Ok? {
      assert [] + a.value == a.value && a.value + [] == a.value;
    }
  }

  /** The output for `events` processed from state `st`. */
  function Fold<E>(highlight: (string, string) -> Result<string, E>, st: State, events: seq<Event>): Result<seq<Event>, E>
    decreases |events|
  {
    if events == [] then Ok([])
    else Join(Emit(highlight, st, events[0]), Fold(highlight, Next(st, events[0]), events[1..]))
  }

  /** The state after `events` processed from state `st`. */
  function FoldState(st: State, events: seq<Event>): State
    decreases |events|
  {
    if events == [] then st else FoldState(Next(st, events[0]), events[1..])
  }

  /** What `highlight_codeblocks` returns for the whole stream. */
  function Rewrite<E>(highlight: (string, string) -> Result<string, E>, events: seq<Event>): (r: Result<seq<Event>, E>)
    ensures r.Ok? ==> NoCodeBlocks(r.value) && Structure(r.value) == Structure(events)
    ensures r.Ok? ==> Fills(r.value, Layout(Initial, events))
  {
    if Fold(highlight, Initial, events).Ok? then
      RewriteKeepsStructure(highlight, Initial, events);
      RewriteLayout(highlight, Initial, events);
      Fold(highlight, Initial, events)
    else Fold(highlight, Initial, events)
  }

  /** `highlight_codeblocks`, as the loop it is, proved to compute `Rewrite`. */
  method HighlightCodeblocks<E>(highlight: (string, string) -> Result<string, E>, events: seq<Event>)
    returns (r: Result<seq<Event>, E>)
    ensures r == Rewrite(highlight, events)
  {
    var modifiedEvents: seq<Event> := [];
    var codeBuffer: string := "";
    var isInCodeBlock := false;
    assert events[0..] == events;
    JoinUnit(Rewrite(highlight, events));
    for i := 0 to |events|
      invariant Rewrite(highlight, events) ==
        Join(Ok(modifiedEvents), Fold(highlight, State(isInCodeBlock, codeBuffer), events[i..]))
    {
      ghost var st := State(isInCodeBlock, codeBuffer);
      assert modifiedEvents + [] == modifiedEvents;
      assert events[i..][1..] == events[i + 1..];
      assert Fold(highlight, st, events[i..]) ==
        Join(Emit(highlight, st, events[i]), Fold(highlight, Next(st, events[i]), events[i + 1..]));
      JoinAssoc(Ok(modifiedEvents), Emit(highlight, st, events[i]), Fold(highlight, Next(st, events[i]), events[i + 1..]));
      match events[i]
      case Start(CodeBlock(_)) =>
        isInCodeBlock := true;
        codeBuffer := "";
      case End(CodeBlock(kind)) =>
        if isInCodeBlock {
          var language := if kind.Fenced? then kind.info else "";
          var html := highlight(codeBuffer, language);
          if html.Err? {
            return Err(html.error);
          }
          modifiedEvents := modifiedEvents + [Html(html.value)];
          isInCodeBlock := false;
        }
      case Text(text) =>
        if isInCodeBlock {
          codeBuffer := codeBuffer + text;
        } else {
          modifiedEvents := modifiedEvents + [Text(text)];
        }
      case _ =>
        modifiedEvents := modifiedEvents + [events[i]];
    }
    assert events[|events|..] == [];
    assert modifiedEvents + [] == modifiedEvents;
    r := Ok(modifiedEvents);
  }

  /** Processing a concatenation is processing the first part, then the second from where the first left off. */
  lemma {:induction false} FoldAppend<E>(highlight: (string, string) -> Result<string, E>, st: State, a: seq<Event>, b: seq<Event>)
    ensures Fold(highlight, st, a + b) == Join(Fold(highlight, st, a), Fold(highlight, FoldState(st, a), b))
    ensures FoldState(st, a + b) == FoldState(FoldState(st, a), b)
    decreases |a|
  {
    if a == [] {
      assert a + b == b;
      JoinUnit(Fold(highlight, st, b));
    } else {
      assert (a + b)[0] == a[0];
      assert (a + b)[1..] == a[1..] + b;
      FoldAppend(highlight, Next(st, a[0]), a[1..], b);
      JoinAssoc(Emit(highlight, st, a[0]), Fold(highlight, Next(st, a[0]), a[1..]), Fold(highlight, FoldState(st, a), b));
    }
  }

  /** Outside a code block, a stretch with no code-block tags comes out unchanged and leaves the state alone. */
  lemma {:induction false} PassThrough<E>(highlight: (string, string) -> Result<string, E>, st: State, events: seq<Event>)
    requires !st.inCodeBlock && NoCodeBlocks(events)
    ensures Fold(highlight, st, events) == Ok(events)
    ensures FoldState(st, events) == st
    decreases |events|
  {
    if events != [] {
      PassThrough(highlight, st, events[1..]);
      assert events == [events[0]] + events[1..];
    }
  }

  /** Outside a code block the leftover buffer of an earlier block makes no difference to what follows. */
  lemma {:induction false} StaleBuffer<E>(highlight: (string, string) -> Result<string, E>, b1: string, b2: string, events: seq<Event>)
    ensures Fold(highlight, State(false, b1), events) == Fold(highlight, State(false, b2), events)
    decreases |events|
  {
    if events != [] {
      var e := events[0];
      var n1, n2 := Next(State(false, b1), e), Next(State(false, b2), e);
      assert Emit(highlight, State(false, b1), e) == Emit(highlight, State(false, b2), e);
      if n1 != n2 {
        assert !n1.inCodeBlock && !n2.inCodeBlock;
        StaleBuffer(highlight, n1.buffer, n2.buffer, events[1..]);
      }
    }
  }

  /** The text events of a code block's body. */
  function Texts(ts: seq<string>): (r: seq<Event>)
    ensures |r| == |ts|
    ensures forall i :: 0 <= i < |ts| ==> r[i] == Text(ts[i])
  {
    if ts == [] then [] else [Text(ts[0])] + Texts(ts[1..])
  }

  function Concat(ts: seq<string>): string {
    if ts == [] then [] else ts[0] + Concat(ts[1..])
  }

  /** A whole code block as the parser emits it: start tag, text events, end tag. */
  function Block(start: CodeBlockKind, ts: seq<string>, end: CodeBlockKind): seq<Event> {
    [Start(CodeBlock(start))] + Texts(ts) + [End(CodeBlock(end))]
  }

  /** Inside a code block, text events only add to the buffer. */
  lemma {:induction false} GatherTexts<E>(highlight: (string, string) -> Result<string, E>, buffer: string, ts: seq<string>)
    ensures Fold(highlight, State(true, buffer), Texts(ts)) == Ok([])
    ensures FoldState(State(true, buffer), Texts(ts)) == State(true, buffer + Concat(ts))
    decreases |ts|
  {
    if ts == [] {
      assert buffer + [] == buffer;
    } else {
      assert Texts(ts)[1..] == Texts(ts[1..]);
      GatherTexts(highlight, buffer + ts[0], ts[1..]);
      assert Emit(highlight, State(true, buffer), Texts(ts)[0]) == Ok([]);
      JoinUnit<E>(Ok([]));
      assert buffer + ts[0] + Concat(ts[1..]) == buffer + Concat(ts);
    }
  }

  /**
   * A code block outside any other comes out as exactly one raw-HTML event: the highlighter's
   * output for the concatenated text in the end tag's language; or the highlighter's error.
   */
  lemma {:induction false} BlockOutput<E>(highlight: (string, string) -> Result<string, E>, st: State,
                                          start: CodeBlockKind, ts: seq<string>, end: CodeBlockKind)
    ensures Fold(highlight, st, Block(start, ts, end)) ==
      match highlight(Concat(ts), Language(end))
      case Ok(html) => Ok([Html(html)])
      case Err(e) => Err(e)
    ensures FoldState(st, Block(start, ts, end)) == State(false, Concat(ts))
  {
    var s0 := [Start(CodeBlock(start))];
    var s2 := [End(CodeBlock(end))];
    FoldAppend(highlight, st, s0 + Texts(ts), s2);
    FoldAppend(highlight, st, s0, Texts(ts));
    GatherTexts(highlight, "", ts);
    assert "" + Concat(ts) == Concat(ts);
    JoinUnit<E>(Ok([]));
    assert Fold(highlight, st, s0) == Ok([]);
    assert Fold(highlight, st, s0 + Texts(ts)) == Ok([]);
    var stEnd := FoldState(st, s0 + Texts(ts));
    assert stEnd == State(true, Concat(ts));
    assert s2[1..] == [];
    JoinUnit(Emit(highlight, stEnd, s2[0]));
    assert Fold(highlight, stEnd, s2) == Emit(highlight, stEnd, s2[0]);
  }

  /**
   * The rewrite of a stream with a code block in it: the events before the block unchanged,
   * then the block's one raw-HTML event, then the rewrite of the rest; or the first error.
   */
  lemma RewriteBlock<E>(highlight: (string, string) -> Result<string, E>, before: seq<Event>,
                        start: CodeBlockKind, ts: seq<string>, end: CodeBlockKind, after: seq<Event>)
    requires NoCodeBlocks(before)
    ensures Rewrite(highlight, before + Block(start, ts, end) + after) ==
      match highlight(Concat(ts), Language(end))
      case Ok(html) => Join(Ok(before + [Html(html)]), Rewrite(highlight, after))
      case Err(e) => Err(e)
  {
    var block := Block(start, ts, end);
    FoldAppend(highlight, Initial, before + block, after);
    FoldAppend(highlight, Initial, before, block);
    PassThrough(highlight, Initial, before);
    BlockOutput(highlight, Initial, start, ts, end);
    StaleBuffer(highlight, Concat(ts), "", after);
  }

  /** An end tag with no block open emits nothing and changes nothing. */
  lemma StrayEnd<E>(highlight: (string, string) -> Result<string, E>, before: seq<Event>, kind: CodeBlockKind, after: seq<Event>)
    requires NoCodeBlocks(before)
    ensures Rewrite(highlight, before + [End(CodeBlock(kind))] + after) == Join(Ok(before), Rewrite(highlight, after))
  {
    FoldAppend(highlight, Initial, before + [End(CodeBlock(kind))], after);
    FoldAppend(highlight, Initial, before, [End(CodeBlock(kind))]);
    PassThrough(highlight, Initial, before);
    JoinUnit<E>(Ok([]));
    JoinUnit<E>(Ok(before));
    assert Fold(highlight, Initial, [End(CodeBlock(kind))]) == Ok([]);
  }

  /** The events `Structure` keeps: tags other than code-block tags, and events other than text and raw HTML. */
  predicate Structural(e: Event) {
    ((e.Start? || e.End?) && !e.tag.CodeBlock?) || e.OtherEvent?
  }

  function Structure(events: seq<Event>): (r: seq<Event>)
    ensures forall i :: 0 <= i < |r| ==> Structural(r[i])
  {
    if events == [] then []
    else (if Structural(events[0]) then [events[0]] else []) + Structure(events[1..])
  }

  lemma {:induction false} StructureAppend(a: seq<Event>, b: seq<Event>)
    ensures Structure(a + b) == Structure(a) + Structure(b)
    decreases |a|
  {
    if a == [] {
      assert a + b == b;
    } else {
      assert (a + b)[0] == a[0];
      assert (a + b)[1..] == a[1..] + b;
      StructureAppend(a[1..], b);
    }
  }

  /**
   * On success the output has no code-block tags left, and every other tag and every event
   * other than text and raw HTML comes out exactly once, in the order it came in. What
   * happens to text and raw HTML is stated by `RewriteLayout`.
   */
  lemma {:induction false} RewriteKeepsStructure<E>(highlight: (string, string) -> Result<string, E>, st: State, events: seq<Event>)
    requires Fold(highlight, st, events).Ok?
    ensures NoCodeBlocks(Fold(highlight, st, events).value)
    ensures Structure(Fold(highlight, st, events).value) == Structure(events)
    decreases |events|
  {
    if events != [] {
      var e := events[0];
      var head := Emit(highlight, st, e).value;
      var tail := Fold(highlight, Next(st, e), events[1..]).value;
      RewriteKeepsStructure(highlight, Next(st, e), events[1..]);
      StructureAppend(head, tail);
      EmitKeepsStructure(highlight, st, e);
      assert Structure(events) == (if Structural(e) then [e] else []) + Structure(events[1..]);
      assert Fold(highlight, st, events).value == head + tail;
    }
  }

  /** The output for one event holds no code-block tag, and keeps the event if it is structural. */
  lemma EmitKeepsStructure<E>(highlight: (string, string) -> Result<string, E>, st: State, e: Event)
    requires Emit(highlight, st, e).Ok?
    ensures NoCodeBlocks(Emit(highlight, st, e).value)
    ensures Structure(Emit(highlight, st, e).value) == (if Structural(e) then [e] else [])
  {
    var head := Emit(highlight, st, e).value;
    if |head| == 1 {
      assert head == [head[0]];
      assert Structure(head) == (if Structural(head[0]) then [head[0]] else []) + Structure([]);
    }
  }

  /**
   * Where an output event comes from: an input event passed through as it is, or a whole code
   * block collapsed into one raw-HTML event.
   */
  datatype Slot = Kept(event: Event) | Highlighted

  /** The slots one input event fills, given the state before it; the highlighter plays no part. */
  function SlotsOf(st: State, e: Event): seq<Slot> {
    match e
    case Start(CodeBlock(_)) => []
    case End(CodeBlock(_)) => if st.inCodeBlock then [Highlighted] else []
    case Text(_) => if st.inCodeBlock then [] else [Kept(e)]
    case _ => [Kept(e)]
  }

  /** The slots of a whole stream processed from state `st`. */
  function Layout(st: State, events: seq<Event>): seq<Slot>
    decreases |events|
  {
    if events == [] then [] else SlotsOf(st, events[0]) + Layout(Next(st, events[0]), events[1..])
  }

  /** `out` fills `slots` one event per slot: a kept event is that very event, a block is raw HTML. */
  predicate Fills(out: seq<Event>, slots: seq<Slot>) {
    |out| == |slots| &&
    forall k :: 0 <= k < |out| ==> if slots[k].Kept? then out[k] == slots[k].event else out[k].Html?
  }

  lemma FillsAppend(a: seq<Event>, sa: seq<Slot>, b: seq<Event>, sb: seq<Slot>)
    requires Fills(a, sa) && Fills(b, sb)
    ensures Fills(a + b, sa + sb)
  {
  }

  /**
   * On success the output is the input with every code block (start tag, text, end tag) turned
   * into one raw-HTML event in its place, and with every other event, raw HTML and text outside
   * blocks included, passed through in order; a stray end tag vanishes.
   */
  lemma {:induction false} RewriteLayout<E>(highlight: (string, string) -> Result<string, E>, st: State, events: seq<Event>)
    requires Fold(highlight, st, events).Ok?
    ensures Fills(Fold(highlight, st, events).value, Layout(st, events))
    decreases |events|
  {
    if events != [] {
      var e := events[0];
      var head := Emit(highlight, st, e).value;
      var tail := Fold(highlight, Next(st, e), events[1..]).value;
      RewriteLayout(highlight, Next(st, e), events[1..]);
      assert Fills(head, SlotsOf(st, e));
      FillsAppend(head, SlotsOf(st, e), tail, Layout(Next(st, e), events[1..]));
      assert Fold(highlight, st, events).value == head + tail;
    }
  }
}
