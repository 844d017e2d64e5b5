/** Element trees, markup, and the meaning of markup under Namespaces in XML 1.0. */
module Xml {
  import opened Text

  const XML_NS := "http://www.w3.org/XML/1998/namespace"
  const XMLNS_NS := "http://www.w3.org/2000/xmlns/"

  datatype Attr = Attr(name: string, value: string)

  /** An ElementTree element. Names are in Clark notation, `{namespace}local` or `local`. The empty
      string stands for absent text, which the printer does not tell apart. `attrs` lists the
      attribute dictionary in the order its items() yields them. */
  datatype Element = Element(tag: string, attrs: seq<Attr>, text: string, children: seq<Element>, tail: string)

  /** A tag or a piece of text as it stands in the document. `decls` are the tag's namespace
      declarations, namespace name to prefix, with "" for the default namespace. */
  datatype Markup =
    | StartTag(name: string, attrs: seq<Attr>, decls: map<string, string>, selfClosing: bool)
    | EndTag(name: string)
    | CharData(text: string)

  /** What a namespace-aware parser reports. */
  datatype Event = Start(tag: string, attrs: seq<Attr>) | Data(text: string) | End(tag: string)

  function Clark(ns: string, local: string): string {
    "{" + ns + "}" + local
  }

  /** An attribute that is there only on a condition. */
  function Maybe(attrs: seq<Attr>, given: bool, a: Attr): seq<Attr> {
    if given then attrs + [a] else attrs
  }

  function Chars(text: string): seq<Markup> {
    if text == "" then [] else [CharData(text)]
  }

  function TextEvents(text: string): seq<Event> {
    if text == "" then [] else [Data(text)]
  }

  /** The events of an element, without its tail. */
  function Events(e: Element): seq<Event> {
    [Start(e.tag, e.attrs)] + TextEvents(e.text) + ChildEvents(e.children) + [End(e.tag)]
  }

  function ChildEvents(es: seq<Element>): seq<Event> {
    if es == [] then [] else Events(es[0]) + TextEvents(es[0].tail) + ChildEvents(es[1..])
  }

  // ---- Section 6 of Namespaces in XML 1.0

  /** In-scope bindings, prefix to namespace name. */
  type Scope = map<string, string>

  const DOCUMENT_SCOPE: Scope := map["xml" := XML_NS]

  /** Sections 2.2, 3 and 5: which declarations a start tag may carry. */
  ghost predicate LegalDeclarations(decls: map<string, string>) {
    && (forall m, n :: m in decls && n in decls && decls[m] == decls[n] ==> m == n)
    && forall n :: n in decls ==>
         && decls[n] != "xmlns" && ':' !in decls[n] && n != XMLNS_NS
         && (n == XML_NS <==> decls[n] == "xml")
         && (n == "" ==> decls[n] == "")
  }

  ghost function DeclaredAs(decls: map<string, string>, prefix: string): string
    requires prefix in decls.Values
  {
    var n :| n in decls && decls[n] == prefix;
    n
  }

  /** Section 6.1: declarations of a tag override those of the elements around it. */
  ghost function Enter(scope: Scope, decls: map<string, string>): Scope {
    map p | p in scope.Keys + decls.Values ::
      if p in decls.Values then DeclaredAs(decls, p) else scope[p]
  }

  /** Section 6.2: a prefixed name takes its prefix's namespace; an unprefixed one the default
      namespace if it names an element, and none if it names an attribute. */
  function Expand(name: string, isElement: bool, scope: Scope): Option<string> {
    var i := Find(name, ':');
    if i < |name| then
      var prefix, local := name[..i], name[i + 1..];
      if prefix == "" || local == "" || ':' in local || prefix !in scope then None
      else Some(Clark(scope[prefix], local))
    else if isElement && "" in scope && scope[""] != "" then Some(Clark(scope[""], name))
    else Some(name)
  }

  function ExpandAttrs(attrs: seq<Attr>, scope: Scope): Option<seq<Attr>> {
    if attrs == [] then Some([]) else
      var last := attrs[|attrs| - 1];
      match (ExpandAttrs(attrs[..|attrs| - 1], scope), Expand(last.name, false, scope))
      case (Some(before), Some(name)) => Some(before + [Attr(name, last.value)])
      case _ => None
  }

  /** Section 6.3: no two attributes of a tag have the same expanded name. */
  ghost predicate Distinct(attrs: seq<Attr>) {
    forall i, j :: 0 <= i < j < |attrs| ==> attrs[i].name != attrs[j].name
  }

  ghost predicate DistinctAttrs(e: Element)
    decreases e, 1
  {
    Distinct(e.attrs) && AllDistinctAttrs(e.children)
  }

  ghost predicate AllDistinctAttrs(es: seq<Element>)
    decreases es, 0
  {
    es == [] || (DistinctAttrs(es[0]) && AllDistinctAttrs(es[1..]))
  }

  /** An open element: its raw name, its expanded name and its scope. */
  datatype Open = Open(name: string, tag: string, scope: Scope)

  /** The result of reading: the events so far and the open elements, innermost first; or Malformed. */
  datatype Reading = Malformed | Reading(events: seq<Event>, open: seq<Open>)

  function ScopeOf(open: seq<Open>): Scope {
    if open == [] then DOCUMENT_SCOPE else open[0].scope
  }

  ghost function ReadOne(m: Markup, open: seq<Open>): Reading {
    match m
    case StartTag(name, attrs, decls, selfClosing) =>
      if !LegalDeclarations(decls) then Malformed else
        var scope := Enter(ScopeOf(open), decls);
        (match (Expand(name, true, scope), ExpandAttrs(attrs, scope))
         case (Some(tag), Some(expanded)) =>
           if !Distinct(expanded) then Malformed
           else if selfClosing then Reading([Start(tag, expanded), End(tag)], open)
           else Reading([Start(tag, expanded)], [Open(name, tag, scope)] + open)
         case _ => Malformed)
    case EndTag(name) =>
      if open == [] || open[0].name != name then Malformed
      else Reading([End(open[0].tag)], open[1..])
    case CharData(text) =>
      if open == [] then Malformed else Reading([Data(text)], open)
  }

  ghost function Read(ms: seq<Markup>, open: seq<Open>): Reading {
    if ms == [] then Reading([], open) else
      match ReadOne(ms[0], open)
      case Malformed => Malformed
      case Reading(events, open1) =>
        match Read(ms[1..], open1)
        case Malformed => Malformed
        case Reading(more, open2) => Reading(events + more, open2)
  }

  ghost function Then(r: Reading, ms: seq<Markup>): Reading {
    match r
    case Malformed => Malformed
    case Reading(events, open) =>
      match Read(ms, open)
      case Malformed => Malformed
      case Reading(more, open1) => Reading(events + more, open1)
  }

  lemma ReadNext(ms: seq<Markup>, open: seq<Open>)
    requires ms != []
    ensures Read(ms, open) == Then(ReadOne(ms[0], open), ms[1..])
  {
  }

  lemma ThenConcat(r: Reading, a: seq<Markup>, b: seq<Markup>)
    requires r != Malformed ==> Read(a + b, r.open) == Then(Read(a, r.open), b)
    ensures Then(r, a + b) == Then(Then(r, a), b)
  {
    if r != Malformed {
      var r1 := Read(a, r.open);
      if r1 != Malformed {
        var r2 := Read(b, r1.open);
        if r2 != Malformed {
          assert r.events + (r1.events + r2.events) == (r.events + r1.events) + r2.events;
        }
      }
    }
  }

  lemma {:induction false} ReadConcat(a: seq<Markup>, b: seq<Markup>, open: seq<Open>)
    ensures Read(a + b, open) == Then(Read(a, open), b)
  {
    if a == [] {
      assert a + b == b;
    } else {
      assert (a + b)[0] == a[0] && (a + b)[1..] == a[1..] + b;
      ReadNext(a + b, open);
      ReadNext(a, open);
      var r := ReadOne(a[0], open);
      if r != Malformed {
        ReadConcat(a[1..], b, r.open);
      }
      ThenConcat(r, a[1..], b);
    }
  }

  lemma ReadChars(text: string, open: seq<Open>)
    requires open != []
    ensures Read(Chars(text), open) == Reading(TextEvents(text), open)
  {
    if text != "" {
      assert [CharData(text)][1..] == [];
    }
  }

  lemma ReadSingle(m: Markup, open: seq<Open>)
    ensures Read([m], open) == ReadOne(m, open)
  {
    assert [m][1..] == [];
    var r := ReadOne(m, open);
    if r != Malformed {
      assert r.events + [] == r.events;
    }
  }

  // ---- Reading elements back

  /** How the markup of an element that shows `seen` reads: as that element, unless two of its
      attributes collide. */
  ghost function ReadBack(seen: Element, open: seq<Open>): Reading {
    if DistinctAttrs(seen) then Reading(Events(seen) + TextEvents(seen.tail), open) else Malformed
  }

  ghost function ReadAllBack(seen: seq<Element>, open: seq<Open>): Reading {
    if AllDistinctAttrs(seen) then Reading(ChildEvents(seen), open) else Malformed
  }

  lemma ReadsCons(a: seq<Markup>, b: seq<Markup>, open: seq<Open>, first: Element, rest: seq<Element>)
    requires Read(a, open) == ReadBack(first, open) && Read(b, open) == ReadAllBack(rest, open)
    ensures Read(a + b, open) == ReadAllBack([first] + rest, open)
  {
    ReadConcat(a, b, open);
    assert ([first] + rest)[1..] == rest;
  }

  ghost predicate TagReads(tag: Markup, seen: Element, open: seq<Open>, inside: seq<Open>)
    requires tag.StartTag?
  {
    var scope := Enter(ScopeOf(open), tag.decls);
    && LegalDeclarations(tag.decls)
    && Expand(tag.name, true, scope) == Some(seen.tag)
    && ExpandAttrs(tag.attrs, scope) == Some(seen.attrs)
    && inside == [Open(tag.name, seen.tag, scope)] + open
  }

  lemma EmptyElementReads(tag: Markup, seen: Element, open: seq<Open>, inside: seq<Open>)
    requires tag.StartTag? && tag.selfClosing && seen.text == "" && seen.children == [] && open != []
    requires TagReads(tag, seen, open, inside)
    ensures Read([tag] + Chars(seen.tail), open) == ReadBack(seen, open)
  {
    ReadSingle(tag, open);
    ReadChars(seen.tail, open);
    ReadConcat([tag], Chars(seen.tail), open);
    assert AllDistinctAttrs(seen.children) && ChildEvents(seen.children) == [];
    assert Events(seen) == [Start(seen.tag, seen.attrs), End(seen.tag)];
  }

  lemma ElementReads(tag: Markup, seen: Element, children: seq<Markup>, open: seq<Open>, inside: seq<Open>)
    requires tag.StartTag? && !tag.selfClosing && open != []
    requires TagReads(tag, seen, open, inside)
    requires Read(children, inside) == ReadAllBack(seen.children, inside)
    ensures Read([tag] + Chars(seen.text) + children + [EndTag(tag.name)] + Chars(seen.tail), open)
         == ReadBack(seen, open)
  {
    var text := Chars(seen.text);
    var end := [EndTag(tag.name)];
    ReadSingle(tag, open);
    ReadChars(seen.text, inside);
    ReadSingle(end[0], inside);
    ReadChars(seen.tail, open);
    assert inside[1..] == open;
    ReadConcat([tag], text, open);
    ReadConcat([tag] + text, children, open);
    ReadConcat([tag] + text + children, end, open);
    ReadConcat([tag] + text + children + end, Chars(seen.tail), open);
  }
}
