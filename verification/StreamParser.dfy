/** ParserTarget: parser events turned into stream events (pyxmpp2/xmppparser.py). */
module StreamParser {
  import opened Text
  import opened Xml

  /** Calls made on the stream handler. */
  datatype Call = StreamStart(root: Element) | StreamElement(element: Element) | StreamEnd | ParseError(tag: string)

  /** An element that ElementTree's TreeBuilder has open. */
  datatype Frame = Frame(tag: string, attrs: seq<Attr>, text: string, children: seq<Element>)

  /** Text goes to the tail of the last closed child, or to the open element when it has none yet. */
  function FrameData(f: Frame, text: string): Frame {
    if f.children == [] then f.(text := f.text + text) else
      var n := |f.children| - 1;
      f.(children := f.children[n := f.children[n].(tail := f.children[n].tail + text)])
  }

  function Closed(f: Frame): Element {
    Element(f.tag, f.attrs, f.text, f.children, "")
  }

  function AddChild(frames: seq<Frame>, e: Element): seq<Frame> {
    if frames == [] then [] else [frames[0].(children := frames[0].children + [e])] + frames[1..]
  }

  /** The target's fields, with the open frames of the tree builder innermost first, and the calls it
      has made. */
  datatype State = State(level: int, root: Option<Element>, frames: seq<Frame>, calls: seq<Call>)

  const INITIAL := State(0, None, [], [])

  /** Above the root the builder has one frame less than there are open elements. */
  predicate Consistent(s: State) {
    && (s.level >= 2 ==> |s.frames| == s.level - 1)
    && (s.level >= 1 ==> s.root.Some?)
  }

  function StartStep(s: State, tag: string, attrs: seq<Attr>): State {
    var root := Element(tag, attrs, "", [], "");
    var s1 := if s.level == 0 then s.(root := Some(root), calls := s.calls + [StreamStart(root)]) else s;
    s1.(level := s.level + 1,
        frames := [Frame(tag, attrs, "", [])] + (if s.level < 2 then [] else s.frames))
  }

  function DataStep(s: State, text: string): State
    requires Consistent(s)
  {
    if s.level > 1 then s.(frames := [FrameData(s.frames[0], text)] + s.frames[1..]) else s
  }

  /** None stands for the assertion of the tree builder on an end tag of another element. */
  function EndStep(s: State, tag: string): Option<State>
    requires Consistent(s)
  {
    var s1 := s.(level := s.level - 1);
    if s1.level < 0 then Some(s1.(calls := s.calls + [ParseError(tag)]))
    else if s1.level == 0 then
      Some(s1.(calls := s.calls + [if tag != s.root.value.tag then ParseError(tag) else StreamEnd]))
    else if s.frames[0].tag != tag then None
    else
      var e := Closed(s.frames[0]);
      Some(s1.(frames := AddChild(s.frames[1..], e),
               calls := if s1.level == 1 then s.calls + [StreamElement(e)] else s.calls))
  }

  function Handle(s: State, ev: Event): (r: Option<State>)
    requires Consistent(s)
    ensures r.Some? ==> Consistent(r.value)
  {
    match ev
    case Start(tag, attrs) => Some(StartStep(s, tag, attrs))
    case Data(text) => Some(DataStep(s, text))
    case End(tag) => EndStep(s, tag)
  }

  /** All events in order. */
  function Replay(s: State, evs: seq<Event>): (r: Option<State>)
    requires Consistent(s)
    ensures r.Some? ==> Consistent(r.value)
    decreases evs
  {
    if evs == [] then Some(s) else
      match Handle(s, evs[0])
      case None => None
      case Some(s1) => Replay(s1, evs[1..])
  }

  lemma {:induction false} ReplayConcat(s: State, a: seq<Event>, b: seq<Event>)
    requires Consistent(s)
    ensures Replay(s, a + b) == match Replay(s, a) case None => None case Some(s1) => Replay(s1, b)
    decreases a
  {
    if a == [] {
      assert a + b == b;
    } else {
      assert (a + b)[1..] == a[1..] + b;
      var s1 := Handle(s, a[0]);
      if s1.Some? {
        ReplayConcat(s1.value, a[1..], b);
      }
    }
  }

  lemma ReplayOne(s: State, ev: Event)
    requires Consistent(s)
    ensures Replay(s, [ev]) == Handle(s, ev)
  {
    assert [ev][1..] == [];
  }

  lemma ReplayText(s: State, text: string)
    requires Consistent(s) && s.level > 1
    ensures Replay(s, TextEvents(text)) == Some(DataStep(s, text))
  {
    if text == "" {
      var f := s.frames[0];
      assert FrameData(f, "") == f by {
        if f.children == [] { assert f.text + "" == f.text; }
        else { var t := f.children[|f.children| - 1]; assert t.tail + "" == t.tail; assert t.(tail := t.tail) == t; }
      }
      assert [f] + s.frames[1..] == s.frames;
    } else {
      ReplayOne(s, Data(text));
    }
  }

  /** Where the parser cuts text into pieces does not matter. */
  lemma ChunkedText(s: State, a: string, b: string)
    requires Consistent(s)
    ensures Consistent(DataStep(s, a)) && DataStep(DataStep(s, a), b) == DataStep(s, a + b)
  {
    if s.level > 1 {
      var f := s.frames[0];
      if f.children == [] {
        assert (f.text + a) + b == f.text + (a + b);
      } else {
        var n := |f.children| - 1;
        var t := f.children[n];
        assert (t.tail + a) + b == t.tail + (a + b);
        assert FrameData(FrameData(f, a), b).children == FrameData(f, a + b).children;
      }
    }
  }

  function Opened(s: State, e: Element): State {
    StartStep(s, e.tag, e.attrs)
  }

  /** Below a stanza's start tag the events of an element add that element to the open one. */
  lemma {:induction false} ElementBuilt(s: State, e: Element)
    requires Consistent(s) && s.level >= 2
    ensures Replay(s, Events(e) + TextEvents(e.tail)) == Some(s.(frames := AddChild(s.frames, e)))
    decreases e, 1
  {
    BodyBuilt(Opened(s, e), e);
    EventsBuilt(s, e);
    var after := s.(frames := AddChild(s.frames, e.(tail := "")));
    ReplayConcat(s, Events(e), TextEvents(e.tail));
    ReplayText(after, e.tail);
    TailJoinsChild(s.frames[0], e);
  }

  function Body(e: Element): seq<Event> {
    TextEvents(e.text) + ChildEvents(e.children)
  }

  /** Start tag, body and end tag. */
  lemma WholeReplayed(s: State, e: Element, full: State)
    requires Consistent(s) && s.level >= 0 && Replay(Opened(s, e), Body(e)) == Some(full)
    ensures Replay(s, Events(e)) == Handle(full, End(e.tag))
  {
    var start, end := [Start(e.tag, e.attrs)], [End(e.tag)];
    ReplayOne(s, start[0]);
    ReplayConcat(s, start, Body(e));
    ReplayOne(full, end[0]);
    ReplayConcat(s, start + Body(e), end);
    assert Events(e) == start + Body(e) + end;
  }

  lemma EventsBuilt(s: State, e: Element)
    requires Consistent(s) && s.level >= 2
    requires Replay(Opened(s, e), Body(e))
          == Some(Opened(s, e).(frames := [Frame(e.tag, e.attrs, e.text, e.children)] + s.frames))
    ensures Replay(s, Events(e)) == Some(s.(frames := AddChild(s.frames, e.(tail := ""))))
  {
    var full := Opened(s, e).(frames := [Frame(e.tag, e.attrs, e.text, e.children)] + s.frames);
    WholeReplayed(s, e, full);
    assert full.frames[1..] == s.frames;
  }

  lemma TailJoinsChild(f: Frame, e: Element)
    ensures FrameData(f.(children := f.children + [e.(tail := "")]), e.tail) == f.(children := f.children + [e])
  {
    var children := f.children + [e.(tail := "")];
    assert "" + e.tail == e.tail;
    assert children[|f.children| := e] == f.children + [e];
  }

  /** The text and children of an element fill its frame. */
  lemma {:induction false} BodyBuilt(s: State, e: Element)
    requires Consistent(s) && s.level >= 2 && s.frames[0] == Frame(e.tag, e.attrs, "", [])
    ensures Replay(s, Body(e)) == Some(s.(frames := [Frame(e.tag, e.attrs, e.text, e.children)] + s.frames[1..]))
    decreases e, 0
  {
    var s1 := DataStep(s, e.text);
    ReplayText(s, e.text);
    ReplayConcat(s, TextEvents(e.text), ChildEvents(e.children));
    assert "" + e.text == e.text;
    ChildrenBuilt(s1, e.children);
    assert [] + e.children == e.children;
  }

  lemma {:induction false} ChildrenBuilt(s: State, es: seq<Element>)
    requires Consistent(s) && s.level >= 2
    ensures Replay(s, ChildEvents(es))
         == Some(s.(frames := [s.frames[0].(children := s.frames[0].children + es)] + s.frames[1..]))
    decreases es, 0
  {
    if es == [] {
      assert s.frames[0].children + [] == s.frames[0].children;
      assert [s.frames[0]] + s.frames[1..] == s.frames;
    } else {
      ElementBuilt(s, es[0]);
      var s1 := s.(frames := AddChild(s.frames, es[0]));
      ReplayConcat(s, Events(es[0]) + TextEvents(es[0].tail), ChildEvents(es[1..]));
      ChildrenBuilt(s1, es[1..]);
      assert (s.frames[0].children + [es[0]]) + es[1..] == s.frames[0].children + es;
    }
  }

  /** Directly below the root, the events of a whole element make one stream_element call with that
      element, whatever was there before. */
  lemma StanzaDelivered(s: State, e: Element)
    requires Consistent(s) && s.level == 1
    ensures Replay(s, Events(e))
         == Some(s.(frames := [], calls := s.calls + [StreamElement(e.(tail := ""))]))
  {
    var full := Opened(s, e).(frames := [Frame(e.tag, e.attrs, e.text, e.children)]);
    BodyBuilt(Opened(s, e), e);
    assert Opened(s, e).frames[1..] == [] && full.frames + [] == full.frames;
    WholeReplayed(s, e, full);
    assert full.frames[1..] == [];
  }

  /** What a well-formed stream has none of: an end tag that does not match is a parse error at the root, an
      assertion below it and a parse error above, and text outside of stanzas goes nowhere. */
  lemma OddEvents(s: State, tag: string, text: string)
    requires Consistent(s)
    ensures s.level <= 0 ==> Handle(s, End(tag)) == Some(s.(level := s.level - 1, calls := s.calls + [ParseError(tag)]))
    ensures s.level == 1 && tag != s.root.value.tag ==>
      Handle(s, End(tag)) == Some(s.(level := 0, calls := s.calls + [ParseError(tag)]))
    ensures s.level >= 2 ==> (Handle(s, End(tag)) == None <==> tag != s.frames[0].tag)
    ensures s.level <= 1 ==> Handle(s, Data(text)) == Some(s)
  {
  }

  /** Replaying is a left inverse of listing events, so a tree can be told from its events. */
  lemma EventsInjective(a: Element, b: Element)
    requires Events(a) == Events(b)
    ensures a.(tail := "") == b.(tail := "")
  {
    var s := StartStep(INITIAL, "", []);
    StanzaDelivered(s, a);
    StanzaDelivered(s, b);
    var n := |s.calls|;
    assert (s.calls + [StreamElement(a.(tail := ""))])[n] == (s.calls + [StreamElement(b.(tail := ""))])[n];
  }

  // ---- The target object

  class ParserTarget {
    var level: int
    var root: Option<Element>
    var frames: seq<Frame>
    /** The calls made on the handler so far. */
    var calls: seq<Call>

    ghost function Now(): State
      reads this
    {
      State(level, root, frames, calls)
    }

    constructor ()
      ensures Now() == INITIAL
    {
      level, root, frames, calls := 0, None, [], [];
    }

    method Data(text: string)
      requires Consistent(Now())
      modifies this
      ensures Consistent(Now()) && Now() == DataStep(old(Now()), text)
    {
      if level > 1 {
        frames := [FrameData(frames[0], text)] + frames[1..];
      }
    }

    method Start(tag: string, attrs: seq<Attr>)
      requires Consistent(Now())
      modifies this
      ensures Consistent(Now()) && Now() == StartStep(old(Now()), tag, attrs)
    {
      if level == 0 {
        root := Some(Element(tag, attrs, "", [], ""));
        calls := calls + [StreamStart(root.value)];
      }
      if level < 2 {
        frames := [];
      }
      level := level + 1;
      frames := [Frame(tag, attrs, "", [])] + frames;
    }

    /** Returns true when the tree builder's assertion fails; the level has changed by then. */
    method End(tag: string) returns (raised: bool)
      requires Consistent(Now())
      modifies this
      ensures raised <==> EndStep(old(Now()), tag).None?
      ensures !raised ==> Consistent(Now()) && EndStep(old(Now()), tag) == Some(Now())
      ensures raised ==> Now() == old(Now()).(level := old(level) - 1)
    {
      level := level - 1;
      if level < 0 {
        calls := calls + [ParseError(tag)];
        return false;
      }
      if level == 0 {
        if tag != root.value.tag {
          calls := calls + [ParseError(tag)];
          return false;
        }
        calls := calls + [StreamEnd];
        return false;
      }
      if frames[0].tag != tag {
        return true;
      }
      var element := Closed(frames[0]);
      frames := AddChild(frames[1..], element);
      if level == 1 {
        calls := calls + [StreamElement(element)];
      }
      return false;
    }
  }
}
