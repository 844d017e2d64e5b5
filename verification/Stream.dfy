/** Printer and reader back to back: what a peer is told of a whole stream. */
module Stream {
  import opened Text
  import opened Xml
  import opened Serializer
  import opened ClarkNames
  import opened Meaning
  import opened ControlCharacters
  import opened StreamParser

  /** What happens on the sending side between head and tail: a stanza is sent, a prefix is
      configured, or text is written between stanzas. */
  datatype Op = Send(element: Element) | AddPrefix(ns: string, prefix: string) | Gap(text: string)

  /** add_prefix; it refuses to give the prefix `xml` away. */
  function Configure(c: Config, ns: string, prefix: string): Config {
    if prefix == "xml" && ns != XML_NS then c else c.(table := c.table[ns := prefix])
  }

  function After(c: Config, op: Op): Config {
    match op
    case AddPrefix(ns, prefix) => Configure(c, ns, prefix)
    case _ => c
  }

  /** emit_stanza once the head is out: every stanza starts from the root prefixes, and control characters
      are replaced in what is printed. */
  function StanzaEmission(c: Config, e: Element, nextId: nat): Emission {
    CleanEmission(Emit(c, e, 1, RootPrefixes(c.stanzaNs), nextId))
  }

  /** The markup a run writes; a stanza that raises writes nothing. */
  function Write(c: Config, nextId: nat, ops: seq<Op>): seq<Markup>
    decreases ops
  {
    if ops == [] then [] else
      match ops[0]
      case Send(e) =>
        var em := StanzaEmission(c, e, nextId);
        (if em.out.Some? then em.out.value else []) + Write(c, em.nextId, ops[1..])
      case Gap(text) => Chars(text) + Write(c, nextId, ops[1..])
      case AddPrefix(_, _) => Write(After(c, ops[0]), nextId, ops[1..])
  }

  /** Every stanza is XML, and the prefix table is usable whenever one is sent. */
  ghost predicate Sendable(c: Config, ops: seq<Op>)
    decreases ops
  {
    ops == [] ||
    (&& (ops[0].Send? ==> ConfigOk(c) && XmlTree(ops[0].element, c.stanzaNs))
     && Sendable(After(c, ops[0]), ops[1..]))
  }

  function RootView(c: Config): Visible {
    Visible(c.stanzaNs, ROOT_VISIBLE)
  }

  /** What a caller can check before sending a stanza. */
  ghost predicate Intact(c: Config, e: Element) {
    Printable(c, e, RootView(c)) && NoControls(e)
  }

  ghost predicate RunIntact(c: Config, ops: seq<Op>)
    decreases ops
  {
    ops == [] || ((ops[0].Send? ==> Intact(c, ops[0].element)) && RunIntact(After(c, ops[0]), ops[1..]))
  }

  /** The stanzas of a run as they are seen, and as they should be. */
  function SeenStanzas(c: Config, ops: seq<Op>): seq<Element>
    decreases ops
  {
    if ops == [] then [] else OpStanzas(c, ops[0]) + SeenStanzas(After(c, ops[0]), ops[1..])
  }

  function SeenStanza(c: Config, e: Element): Element {
    Seen(c, CleanElement(e), 1, RootView(c))
  }

  function OpStanzas(c: Config, op: Op): seq<Element> {
    if op.Send? then [SeenStanza(c, op.element)] else []
  }

  function SentStanzas(stanzaNs: string, ops: seq<Op>): seq<Element> {
    if ops == [] then [] else
      (if ops[0].Send? then [Folded(ops[0].element, 1, stanzaNs)] else []) + SentStanzas(stanzaNs, ops[1..])
  }

  function RunEvents(c: Config, ops: seq<Op>): seq<Event>
    decreases ops
  {
    if ops == [] then [] else OpEvents(c, ops[0]) + RunEvents(After(c, ops[0]), ops[1..])
  }

  function OpEvents(c: Config, op: Op): seq<Event> {
    match op
    case Send(e) => Events(SeenStanza(c, e))
    case Gap(text) => TextEvents(text)
    case AddPrefix(_, _) => []
  }

  function ElementCalls(es: seq<Element>): seq<Call> {
    if es == [] then [] else [StreamElement(es[0])] + ElementCalls(es[1..])
  }

  function RootElement(h: Head): Element {
    Element(Clark(STREAM_NS, "stream"), HeadAttrs(h, Clark(XML_NS, "lang")), "", [], "")
  }

  /** The calls a peer's handler gets for the stream, or None if its parser rejects the stream or
      leaves it unfinished. */
  ghost function Delivered(c: Config, h: Head, nextId: nat, ops: seq<Op>): Option<seq<Call>> {
    var stream := [HeadMarkup(h, c.stanzaNs)] + Write(c, nextId, ops) + [TailMarkup(c.stanzaNs)];
    match Read(stream, [])
    case Malformed => None
    case Reading(events, open) =>
      if open != [] then None else
        match Replay(INITIAL, events)
        case None => None
        case Some(s) => Some(s.calls)
  }

  // ---- The head

  lemma HeadIsLegal(c: Config)
    requires StanzaNsOk(c.stanzaNs)
    ensures HeadDeclarations(c.stanzaNs) == map[STREAM_NS := "stream", c.stanzaNs := ""]
    ensures LegalDeclarations(HeadDeclarations(c.stanzaNs))
    ensures HeadDeclarations(c.stanzaNs).Values == {"stream", ""}
  {
    var decls := HeadDeclarations(c.stanzaNs);
    assert decls == map[STREAM_NS := "stream", c.stanzaNs := ""];
    assert decls[STREAM_NS] in decls.Values && decls[c.stanzaNs] in decls.Values;
  }

  lemma RootScope(c: Config)
    requires StanzaNsOk(c.stanzaNs)
    ensures LegalDeclarations(HeadDeclarations(c.stanzaNs))
    ensures var scope := Enter(DOCUMENT_SCOPE, HeadDeclarations(c.stanzaNs));
      && "stream" in scope && scope["stream"] == STREAM_NS && "" in scope && scope[""] == c.stanzaNs
      && "xml" in scope && scope["xml"] == XML_NS
  {
    HeadIsLegal(c);
  }

  lemma RootScopeIs(c: Config)
    requires StanzaNsOk(c.stanzaNs)
    ensures RootBindings(c.stanzaNs, Enter(DOCUMENT_SCOPE, HeadDeclarations(c.stanzaNs)))
  {
    RootScope(c);
    HeadIsLegal(c);
    var scope := Enter(DOCUMENT_SCOPE, HeadDeclarations(c.stanzaNs));
    assert scope.Keys == {"xml", "stream", ""};
  }

  lemma RootIsExact(c: Config)
    requires ConfigOk(c)
    ensures LegalDeclarations(HeadDeclarations(c.stanzaNs))
    ensures Exact(c, RootPrefixes(c.stanzaNs), Enter(DOCUMENT_SCOPE, HeadDeclarations(c.stanzaNs)), RootView(c))
  {
    RootScope(c);
  }

  /** Choice by choice, `raw` has an attribute as it is printed and `read` as it is read. */
  ghost predicate ChoicesRead(raw: seq<(bool, Attr)>, read: seq<(bool, Attr)>, scope: Scope) {
    && |raw| == |read|
    && (forall i :: 0 <= i < |raw| ==>
          && raw[i].0 == read[i].0 && raw[i].1.value == read[i].1.value
          && Expand(raw[i].1.name, false, scope) == Some(read[i].1.name))
    && forall i, j :: 0 <= i < j < |read| ==> read[i].1.name != read[j].1.name
  }

  lemma {:induction false} ChosenAreChoices(attrs: seq<(bool, Attr)>, name: string)
    requires forall i :: 0 <= i < |attrs| ==> attrs[i].1.name != name
    ensures forall x <- Chosen(attrs) :: x.name != name
  {
    if attrs != [] {
      ChosenAreChoices(attrs[..|attrs| - 1], name);
    }
  }

  lemma {:induction false} ChosenDistinct(attrs: seq<(bool, Attr)>)
    requires forall i, j :: 0 <= i < j < |attrs| ==> attrs[i].1.name != attrs[j].1.name
    ensures Distinct(Chosen(attrs))
  {
    if attrs != [] {
      var n := |attrs| - 1;
      ChosenDistinct(attrs[..n]);
      ChosenAreChoices(attrs[..n], attrs[n].1.name);
      var before := Chosen(attrs[..n]);
      assert forall i :: 0 <= i < |before| ==> before[i] in before;
    }
  }

  lemma {:induction false} ChosenRead(raw: seq<(bool, Attr)>, read: seq<(bool, Attr)>, scope: Scope)
    requires ChoicesRead(raw, read, scope)
    ensures ExpandAttrs(Chosen(raw), scope) == Some(Chosen(read)) && Distinct(Chosen(read))
  {
    if raw != [] {
      var n := |raw| - 1;
      ChosenRead(raw[..n], read[..n], scope);
      ChosenAreChoices(read[..n], read[n].1.name);
      var before, after := Chosen(raw[..n]), Chosen(read[..n]);
      assert (before + [raw[n].1])[..|before|] == before;
      assert forall i :: 0 <= i < |after| ==> after[i] in after;
    }
  }

  lemma LangNameReads(scope: Scope)
    requires "xml" in scope && scope["xml"] == XML_NS
    ensures Expand("xml:lang", false, scope) == Some(Clark(XML_NS, "lang")) && Clark(XML_NS, "lang")[0] == '{'
  {
    ExpandQualified("xml", "lang", false, scope);
    assert Qualify("xml", "lang") == "xml:lang";
  }

  lemma PlainNameReads(name: string, scope: Scope)
    requires ':' !in name
    ensures Expand(name, false, scope) == Some(name)
  {
    FindAbsent(name, ':');
  }

  lemma HeadChoicesDiffer(h: Head, lang: string)
    requires lang != "" && lang[0] == '{'
    ensures var read := HeadChoices(h, lang);
      |read| == 5 && forall i, j :: 0 <= i < j < 5 ==> read[i].1.name != read[j].1.name
  {
    var read := HeadChoices(h, lang);
    assert read[0].1.name[0] == 'v' && read[1].1.name[0] == 'f' && read[2].1.name[0] == 't' && read[3].1.name[0] == 'i';
  }

  lemma PlainHeadNamesRead(scope: Scope)
    ensures forall name :: name in {"version", "from", "to", "id"} ==> Expand(name, false, scope) == Some(name)
  {
    forall name | name in {"version", "from", "to", "id"} ensures Expand(name, false, scope) == Some(name) {
      PlainNameReads(name, scope);
    }
  }

  lemma HeadChoicesRead(h: Head, raw: string, lang: string, scope: Scope)
    requires Expand(raw, false, scope) == Some(lang) && lang != "" && lang[0] == '{'
    ensures ChoicesRead(HeadChoices(h, raw), HeadChoices(h, lang), scope)
  {
    PlainHeadNamesRead(scope);
    HeadChoicesDiffer(h, lang);
    var before, after := HeadChoices(h, raw), HeadChoices(h, lang);
    forall i | 0 <= i < 5
      ensures before[i].0 == after[i].0 && before[i].1.value == after[i].1.value
      ensures Expand(before[i].1.name, false, scope) == Some(after[i].1.name)
    {
      assert i < 4 ==> before[i].1.name in {"version", "from", "to", "id"};
    }
  }

  lemma HeadAttrsExpand(h: Head, raw: string, lang: string, scope: Scope)
    requires Expand(raw, false, scope) == Some(lang) && lang != "" && lang[0] == '{'
    ensures ExpandAttrs(HeadAttrs(h, raw), scope) == Some(HeadAttrs(h, lang))
    ensures Distinct(HeadAttrs(h, lang))
  {
    HeadChoicesRead(h, raw, lang, scope);
    ChosenRead(HeadChoices(h, raw), HeadChoices(h, lang), scope);
  }

  // ---- What the head says

  /** The stream element as a peer should get it, told of the arguments of emit_head alone. */
  ghost predicate SaysHead(h: Head, tag: string, attrs: seq<Attr>) {
    && tag == Clark("http://etherx.jabber.org/streams", "stream") && Distinct(attrs)
    && forall a :: a in attrs <==>
         || a == Attr("version", h.version)
         || (h.from_ != "" && a == Attr("from", h.from_))
         || (h.to != "" && a == Attr("to", h.to))
         || (h.id.Some? && a == Attr("id", h.id.value))
         || (h.language.Some? && a == Attr(Clark("http://www.w3.org/XML/1998/namespace", "lang"),
                                              h.language.value))
  }

  /** And what it puts in scope for the stanzas. */
  ghost predicate RootBindings(stanzaNs: string, scope: Scope) {
    scope == map["xml" := "http://www.w3.org/XML/1998/namespace", "stream" := "http://etherx.jabber.org/streams",
                 "" := stanzaNs]
  }

  lemma {:induction false} ChosenAre(attrs: seq<(bool, Attr)>, a: Attr)
    ensures a in Chosen(attrs) <==> (true, a) in attrs
  {
    if attrs != [] {
      var before, last := attrs[..|attrs| - 1], attrs[|attrs| - 1];
      ChosenAre(before, a);
      assert attrs == before + [last];
      assert last == (true, a) <==> last.0 && last.1 == a;
    }
  }

  lemma ChoicesAre(h: Head, lang: string, a: Attr)
    ensures (true, a) in HeadChoices(h, lang) <==>
      || a == Attr("version", h.version)
      || (h.from_ != "" && a == Attr("from", h.from_))
      || (h.to != "" && a == Attr("to", h.to))
      || (h.id.Some? && a == Attr("id", h.id.value))
      || (h.language.Some? && a == Attr(lang, h.language.value))
  {
    var all := HeadChoices(h, lang);
    assert all[0] in all && all[1] in all && all[2] in all && all[3] in all && all[4] in all;
  }

  lemma HeadAttrsAre(h: Head, lang: string)
    requires lang != "" && lang[0] == '{'
    ensures Distinct(HeadAttrs(h, lang))
    ensures forall a :: a in HeadAttrs(h, lang) <==> (true, a) in HeadChoices(h, lang)
  {
    HeadChoicesDiffer(h, lang);
    ChosenDistinct(HeadChoices(h, lang));
    forall a ensures a in HeadAttrs(h, lang) <==> (true, a) in HeadChoices(h, lang) {
      ChosenAre(HeadChoices(h, lang), a);
    }
  }

  lemma RootSaysHead(h: Head)
    ensures SaysHead(h, RootElement(h).tag, RootElement(h).attrs)
  {
    var lang := Clark(XML_NS, "lang");
    HeadAttrsAre(h, lang);
    forall a {
      ChoicesAre(h, lang, a);
    }
  }

  /** The root as an open element of the reader. */
  ghost function RootOpen(c: Config): seq<Open> {
    [Open("stream:stream", Clark(STREAM_NS, "stream"), Enter(DOCUMENT_SCOPE, HeadDeclarations(c.stanzaNs)))]
  }

  lemma HeadReads(c: Config, h: Head)
    requires StanzaNsOk(c.stanzaNs)
    ensures Read([HeadMarkup(h, c.stanzaNs)], [])
         == Reading([Start(RootElement(h).tag, RootElement(h).attrs)], RootOpen(c))
    ensures SaysHead(h, RootElement(h).tag, RootElement(h).attrs)
    ensures RootBindings(c.stanzaNs, RootOpen(c)[0].scope)
  {
    RootSaysHead(h);
    RootScopeIs(c);
    RootScope(c);
    var scope := Enter(DOCUMENT_SCOPE, HeadDeclarations(c.stanzaNs));
    assert RootPrefixes(c.stanzaNs)[STREAM_NS] == "stream";
    LangNameReads(scope);
    HeadAttrsExpand(h, "xml:lang", Clark(XML_NS, "lang"), scope);
    StreamNameReads(scope);
    ReadSingle(HeadMarkup(h, c.stanzaNs), []);
    assert RootOpen(c) + [] == RootOpen(c);
  }

  lemma StreamNameReads(scope: Scope)
    requires "stream" in scope && scope["stream"] == STREAM_NS
    ensures Expand("stream:stream", true, scope) == Some(Clark(STREAM_NS, "stream"))
  {
    ExpandQualified("stream", "stream", true, scope);
    assert Qualify("stream", "stream") == "stream:stream";
  }

  // ---- The run

  /** One stanza, wherever it is written under the root. */
  lemma StanzaReads(c: Config, e: Element, nextId: nat, root: seq<Open>)
    requires ConfigOk(c) && XmlTree(e, c.stanzaNs) && root != []
    requires Exact(c, RootPrefixes(c.stanzaNs), ScopeOf(root), RootView(c))
    ensures var em, seen := StanzaEmission(c, e, nextId), SeenStanza(c, e);
      em.out.Some? && Read(em.out.value, root) == if DistinctAttrs(seen) then Reading(Events(seen), root) else Malformed
  {
    EmitClean(c, e, 1, RootPrefixes(c.stanzaNs), nextId);
    CleanIsXml(e, c.stanzaNs);
    EmitMeaning(c, CleanElement(e), 1, RootPrefixes(c.stanzaNs), nextId, root, RootView(c));
    var seen := SeenStanza(c, e);
    assert Events(seen) + TextEvents(seen.tail) == Events(seen);
  }

  /** Between head and tail the reader reports the seen stanzas, if no attributes collide. */
  lemma {:induction false} RunReads(c: Config, root: seq<Open>, nextId: nat, ops: seq<Op>)
    requires Sendable(c, ops) && root != []
    requires forall t :: ConfigOk(c.(table := t)) ==>
      Exact(c.(table := t), RootPrefixes(c.stanzaNs), ScopeOf(root), RootView(c))
    ensures Read(Write(c, nextId, ops), root)
         == if AllDistinctAttrs(SeenStanzas(c, ops)) then Reading(RunEvents(c, ops), root) else Malformed
    decreases ops
  {
    if ops != [] {
      var rest, c1 := ops[1..], After(c, ops[0]);
      match ops[0] {
        case Send(e) =>
          assert c.(table := c.table) == c;
          var em, seen := StanzaEmission(c, e, nextId), SeenStanza(c, e);
          StanzaReads(c, e, nextId, root);
          RunReads(c1, root, em.nextId, rest);
          ReadConcat(em.out.value, Write(c1, em.nextId, rest), root);
          assert ([seen] + SeenStanzas(c1, rest))[1..] == SeenStanzas(c1, rest);
        case Gap(text) =>
          RunReads(c1, root, nextId, rest);
          ReadChars(text, root);
          ReadConcat(Chars(text), Write(c1, nextId, rest), root);
          assert [] + SeenStanzas(c1, rest) == SeenStanzas(c1, rest);
        case AddPrefix(ns, prefix) =>
          RunReads(c1, root, nextId, rest);
          assert [] + SeenStanzas(c1, rest) == SeenStanzas(c1, rest);
          assert [] + RunEvents(c1, rest) == RunEvents(c1, rest);
      }
    }
  }

  ghost predicate DeliversOnly(s: State, events: seq<Event>, stanzas: seq<Element>)
    requires Consistent(s)
  {
    var r := Replay(s, events);
    r.Some? && r.value.level == s.level && r.value.root == s.root
    && r.value.calls == s.calls + ElementCalls(stanzas)
  }

  lemma {:induction false} ElementCallsConcat(a: seq<Element>, b: seq<Element>)
    ensures ElementCalls(a + b) == ElementCalls(a) + ElementCalls(b)
  {
    if a == [] {
      assert a + b == b;
    } else {
      assert (a + b)[1..] == a[1..] + b;
      ElementCallsConcat(a[1..], b);
    }
  }

  lemma CallsConcat(before: seq<Call>, first: seq<Element>, rest: seq<Element>)
    ensures (before + ElementCalls(first)) + ElementCalls(rest) == before + ElementCalls(first + rest)
  {
    ElementCallsConcat(first, rest);
  }

  lemma DeliversConcat(s: State, now: seq<Event>, later: seq<Event>, first: seq<Element>, rest: seq<Element>)
    requires Consistent(s) && DeliversOnly(s, now, first)
    requires DeliversOnly(Replay(s, now).value, later, rest)
    ensures DeliversOnly(s, now + later, first + rest)
  {
    var mid := Replay(s, now).value;
    var end := Replay(mid, later).value;
    assert Replay(s, now + later) == Some(end) by { ReplayConcat(s, now, later); }
    CallsConcat(s.calls, first, rest);
  }

  lemma OpDelivered(s: State, c: Config, op: Op)
    requires Consistent(s) && s.level == 1
    ensures DeliversOnly(s, OpEvents(c, op), OpStanzas(c, op))
  {
    match op
    case Send(e) =>
      var seen := SeenStanza(c, e);
      StanzaDelivered(s, seen);
      assert seen.(tail := "") == seen;
      assert ElementCalls([seen]) == [StreamElement(seen)];
    case Gap(text) =>
      if text != "" { ReplayOne(s, Data(text)); }
    case AddPrefix(_, _) =>
  }

  /** The target hands over exactly those stanzas, in order. */
  lemma {:induction false} RunDelivered(s: State, c: Config, ops: seq<Op>)
    requires Consistent(s) && s.level == 1
    ensures DeliversOnly(s, RunEvents(c, ops), SeenStanzas(c, ops))
    decreases ops
  {
    if ops != [] {
      OpDelivered(s, c, ops[0]);
      RunDelivered(Replay(s, OpEvents(c, ops[0])).value, After(c, ops[0]), ops[1..]);
      DeliversConcat(s, OpEvents(c, ops[0]), RunEvents(After(c, ops[0]), ops[1..]),
                     OpStanzas(c, ops[0]), SeenStanzas(After(c, ops[0]), ops[1..]));
    }
  }

  lemma WrappedReads(head: Markup, body: seq<Markup>, tail: Markup, root: seq<Open>, inner: Reading,
                     start: Event, end: Event)
    requires Read([head], []) == Reading([start], root) && Read(body, root) == inner
    requires inner == Malformed || inner.open == root
    requires ReadOne(tail, root) == Reading([end], [])
    ensures Read([head] + body + [tail], [])
         == if inner == Malformed then Malformed else Reading([start] + inner.events + [end], [])
  {
    ReadConcat([head], body, []);
    ReadConcat([head] + body, [tail], []);
    ReadSingle(tail, root);
  }

  lemma WholeStreamReads(c: Config, h: Head, nextId: nat, ops: seq<Op>)
    requires StanzaNsOk(c.stanzaNs) && Sendable(c, ops)
    ensures Read([HeadMarkup(h, c.stanzaNs)] + Write(c, nextId, ops) + [TailMarkup(c.stanzaNs)], [])
         == if AllDistinctAttrs(SeenStanzas(c, ops))
            then Reading([Start(RootElement(h).tag, RootElement(h).attrs)] + RunEvents(c, ops)
                         + [End(RootElement(h).tag)], [])
            else Malformed
  {
    HeadReads(c, h);
    forall t | ConfigOk(c.(table := t))
      ensures Exact(c.(table := t), RootPrefixes(c.stanzaNs), ScopeOf(RootOpen(c)), RootView(c))
    {
      RootIsExact(c.(table := t));
    }
    RunReads(c, RootOpen(c), nextId, ops);
    TailReads(c);
    WrappedReads(HeadMarkup(h, c.stanzaNs), Write(c, nextId, ops), TailMarkup(c.stanzaNs), RootOpen(c),
                 Read(Write(c, nextId, ops), RootOpen(c)),
                 Start(RootElement(h).tag, RootElement(h).attrs), End(RootElement(h).tag));
  }

  lemma TailReads(c: Config)
    requires c.stanzaNs != STREAM_NS
    ensures ReadOne(TailMarkup(c.stanzaNs), RootOpen(c)) == Reading([End(Clark(STREAM_NS, "stream"))], [])
  {
    assert TailMarkup(c.stanzaNs) == EndTag("stream:stream");
    assert RootOpen(c)[1..] == [];
  }

  lemma WholeStreamDelivered(root: Element, events: seq<Event>, stanzas: seq<Element>)
    requires root == Element(root.tag, root.attrs, "", [], "")
    requires DeliversOnly(StartStep(INITIAL, root.tag, root.attrs), events, stanzas)
    ensures var r := Replay(INITIAL, [Start(root.tag, root.attrs)] + events + [End(root.tag)]);
      r.Some? && r.value.calls == [StreamStart(root)] + ElementCalls(stanzas) + [StreamEnd]
  {
    var start, end := [Start(root.tag, root.attrs)], [End(root.tag)];
    var s1 := StartStep(INITIAL, root.tag, root.attrs);
    ReplayOne(INITIAL, start[0]);
    ReplayConcat(INITIAL, start, events);
    ReplayConcat(INITIAL, start + events, end);
    ReplayOne(Replay(s1, events).value, end[0]);
  }

  /** What the peer's handler is told of a stream, for every run of the sender. */
  lemma StreamDelivers(c: Config, h: Head, nextId: nat, ops: seq<Op>)
    requires StanzaNsOk(c.stanzaNs) && Sendable(c, ops)
    ensures Delivered(c, h, nextId, ops)
         == if AllDistinctAttrs(SeenStanzas(c, ops))
            then Some([StreamStart(RootElement(h))] + ElementCalls(SeenStanzas(c, ops)) + [StreamEnd])
            else None
    ensures SaysHead(h, RootElement(h).tag, RootElement(h).attrs)
  {
    RootSaysHead(h);
    WholeStreamReads(c, h, nextId, ops);
    RunDelivered(StartStep(INITIAL, RootElement(h).tag, RootElement(h).attrs), c, ops);
    WholeStreamDelivered(RootElement(h), RunEvents(c, ops), SeenStanzas(c, ops));
  }

  /** Seen without a clash and as sent. */
  ghost predicate Preserved(seen: seq<Element>, sent: seq<Element>) {
    AllDistinctAttrs(seen) && seen == sent
  }

  lemma PreservedCons(a: Element, b: Element, seen: seq<Element>, sent: seq<Element>)
    ensures Preserved([a] + seen, [b] + sent) <==> DistinctAttrs(a) && a == b && Preserved(seen, sent)
  {
    assert ([a] + seen)[1..] == seen && ([b] + sent)[1..] == sent;
    assert ([a] + seen)[0] == a && ([b] + sent)[0] == b;
  }

  lemma {:induction false} RunPreserved(c: Config, ops: seq<Op>)
    ensures Preserved(SeenStanzas(c, ops), SentStanzas(c.stanzaNs, ops)) <==> RunIntact(c, ops)
    decreases ops
  {
    if ops != [] {
      var rest, c1 := ops[1..], After(c, ops[0]);
      RunPreserved(c1, rest);
      var seen, sent := SeenStanzas(c1, rest), SentStanzas(c.stanzaNs, rest);
      if ops[0].Send? {
        var e := ops[0].element;
        CleanSeenIsFolded(c, e, RootView(c));
        PreservedCons(SeenStanza(c, e), Folded(e, 1, c.stanzaNs), seen, sent);
      } else {
        assert [] + seen == seen && [] + sent == sent;
      }
    }
  }

  lemma {:induction false} ElementCallsInjective(a: seq<Element>, b: seq<Element>)
    requires ElementCalls(a) == ElementCalls(b)
    ensures a == b
  {
    if a != [] && b != [] {
      assert ElementCalls(a)[0] == ElementCalls(b)[0];
      assert ElementCalls(a)[1..] == ElementCalls(a[1..]) && ElementCalls(b)[1..] == ElementCalls(b[1..]);
      ElementCallsInjective(a[1..], b[1..]);
      assert a == [a[0]] + a[1..] && b == [b[0]] + b[1..];
    }
  }

  /** Stream round trip: one stream_start, then one stream_element per stanza in order with the equal
      tree, then one stream_end - if and only if every stanza sent was printable and had no control characters. */
  lemma StreamRoundTrip(c: Config, h: Head, nextId: nat, ops: seq<Op>)
    requires StanzaNsOk(c.stanzaNs) && Sendable(c, ops)
    ensures Delivered(c, h, nextId, ops)
         == Some([StreamStart(RootElement(h))] + ElementCalls(SentStanzas(c.stanzaNs, ops)) + [StreamEnd])
      <==> RunIntact(c, ops)
    ensures SaysHead(h, RootElement(h).tag, RootElement(h).attrs)
  {
    StreamDelivers(c, h, nextId, ops);
    RunPreserved(c, ops);
    var seen, sent := SeenStanzas(c, ops), SentStanzas(c.stanzaNs, ops);
    var start := [StreamStart(RootElement(h))];
    if Delivered(c, h, nextId, ops) == Some(start + ElementCalls(sent) + [StreamEnd]) {
      var calls := start + ElementCalls(sent) + [StreamEnd];
      assert calls[1..|calls| - 1] == ElementCalls(sent);
      assert calls == start + ElementCalls(seen) + [StreamEnd];
      assert calls[1..|calls| - 1] == ElementCalls(seen);
      ElementCallsInjective(seen, sent);
    }
  }
}
