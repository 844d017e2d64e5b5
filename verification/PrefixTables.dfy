/** Exactly which prefix tables work: for every other one there is a stanza that no reader accepts
    (pyxmpp2/xmppserializer.py). */
module PrefixTables {
  import opened Text
  import opened Xml
  import opened Serializer
  import opened ClarkNames
  import opened Meaning
  import opened ControlCharacters
  import opened Stream

  /** A stanza is printed so that it reads as the tree that is seen. */
  ghost predicate ReadsAsSeen(c: Config, e: Element, nextId: nat) {
    var out := StanzaEmission(c, e, nextId).out;
    out.Some? && Read(out.value, RootOpen(c)) == ReadBack(SeenStanza(c, e), RootOpen(c))
  }

  /** And so that it reads as the tree sent. */
  ghost predicate ReadsAsSent(c: Config, e: Element, nextId: nat) {
    var out := StanzaEmission(c, e, nextId).out;
    out.Some? && Read(out.value, RootOpen(c)) == Reading(Events(Folded(e, 1, c.stanzaNs)), RootOpen(c))
  }

  // ---- Names that end up in a given namespace

  /** Names in the stanza namespace are also written with one of the two well-known ones. */
  function NameIn(ns: string, local: string, stanzaNs: string): string {
    Clark(if ns == stanzaNs then "jabber:client" else ns, local)
  }

  lemma WrittenSplits(written: string, local: string, isElement: bool, stanzaNs: string)
    requires '}' !in written
    ensures SplitQName(Clark(written, local), isElement, stanzaNs) == Split(Some(FoldNs(written, stanzaNs)), local)
  {
    var rest := Clark(written, local)[1..];
    assert rest == written + ['}'] + local;
    FindSkips(written, '}', local);
    assert rest[..|written|] == written && rest[|written| + 1..] == local;
  }

  lemma NameSplits(ns: string, local: string, isElement: bool, stanzaNs: string)
    requires LookedUp(ns, stanzaNs) || ns == STREAM_NS
    ensures SplitQName(NameIn(ns, local, stanzaNs), isElement, stanzaNs) == Split(Some(ns), local)
  {
    WrittenSplits(if ns == stanzaNs then "jabber:client" else ns, local, isElement, stanzaNs);
  }

  /** A namespace that is neither configured nor among `others`. */
  function NewNamespace(c: Config, others: set<string>): string {
    FreshName(FreshId(c.table.Keys + others, 0))
  }

  lemma NewNamespaceIsNew(c: Config, others: set<string>)
    requires {"", XML_NS, XMLNS_NS, STREAM_NS, "jabber:client", "jabber:server", c.stanzaNs} <= others
    ensures var x := NewNamespace(c, others);
      LookedUp(x, c.stanzaNs) && x !in c.table && x !in others
  {
    var id := FreshId(c.table.Keys + others, 0);
    FreshIdIsFirstUnused(c.table.Keys + others, 0);
    var x := FreshName(id);
    assert x == "ns" + Decimal(id);
    assert forall ch <- Decimal(id) :: IsDigit(ch);
  }

  // ---- A bad tag inside an element that takes the default

  /** What a child of an element in the unconfigured namespace x finds in scope. */
  function InsideMap(x: string): map<string, string> {
    map[STREAM_NS := "stream", XML_NS := "xml", x := ""]
  }

  function Wrapped(x: string, child: Element): Element {
    Element(Clark(x, "w"), [], "", [child], "")
  }

  /** A leaf whose start tag is printed, but rejected wherever it stands. */
  ghost predicate Rejected(c: Config, e: Element, declared: map<string, string>, nextId: nat) {
    var (tag, st) := PrintTag(c, e, declared, nextId);
    && e.children == [] && e.text == "" && tag.Some?
    && forall open :: ReadOne(StartTag(tag.value.0, tag.value.1, st.declarations, true), open) == Malformed
  }

  lemma RejectedReads(c: Config, e: Element, level: nat, declared: map<string, string>, nextId: nat, open: seq<Open>)
    requires Rejected(c, e, declared, nextId)
    ensures var out := EmitAll(c, [e], level, declared, nextId).out;
      out.Some? && Read(out.value, open) == Malformed
  {
    var (tag, st) := PrintTag(c, e, declared, nextId);
    var start := StartTag(tag.value.0, tag.value.1, st.declarations, true);
    assert EmitAll(c, e.children, level + 1, Evict(st.declared, st.declarations), st.nextId).out == Some([]);
    var first := Emit(c, e, level, declared, nextId);
    assert first.out.value[0] == start;
    assert [e][1..] == [] && first.out.value + [] == first.out.value;
    assert EmitAll(c, [e], level, declared, nextId).out == first.out;
    assert ReadOne(start, open) == Malformed;
  }

  lemma WrapperTag(c: Config, x: string, child: Element, nextId: nat)
    requires StanzaNsOk(c.stanzaNs) && LookedUp(x, c.stanzaNs) && x !in c.table && x != c.stanzaNs
    ensures var (tag, st) := PrintTag(c, Wrapped(x, child), RootPrefixes(c.stanzaNs), nextId);
      && tag.Some? && st.nextId == nextId
      && Evict(st.declared, st.declarations) == InsideMap(x)
  {
    NameSplits(x, "w", true, c.stanzaNs);
    var root := RootPrefixes(c.stanzaNs);
    var (tag, st) := PrintTag(c, Wrapped(x, child), root, nextId);
    assert st.declarations == map[x := ""] && st.declared == root[x := ""];
    var kept := Evict(st.declared, st.declarations);
    assert x in st.declarations;
    assert kept.Keys == InsideMap(x).Keys;
  }

  /** Nothing to replace in it. */
  predicate Unchanged(e: Element) {
    NoControls(e) && e.tail == ""
  }

  lemma WrappedIsPlain(x: string, child: Element)
    requires Unchanged(child)
    ensures NoControls(Wrapped(x, child)) && CleanElement(Wrapped(x, child)) == Wrapped(x, child)
  {
    assert AllNoControls([child]) by { assert [child][1..] == []; }
    PlainStays(Wrapped(x, child));
  }

  lemma WrappedEmission(c: Config, x: string, child: Element, nextId: nat, inner: seq<Markup>)
    returns (start: Markup, end: Markup)
    requires StanzaNsOk(c.stanzaNs) && LookedUp(x, c.stanzaNs) && x !in c.table && x != c.stanzaNs
    requires EmitAll(c, [child], 2, InsideMap(x), nextId).out == Some(inner) && Unchanged(child)
    ensures StanzaEmission(c, Wrapped(x, child), nextId).out == Some([start] + inner + [end])
  {
    WrapperTag(c, x, child, nextId);
    var e := Wrapped(x, child);
    var (tag, st) := PrintTag(c, e, RootPrefixes(c.stanzaNs), nextId);
    start, end := StartTag(tag.value.0, tag.value.1, st.declarations, false), EndTag(tag.value.0);
    var out := Assemble(e, 1, tag.value.0, tag.value.1, st.declarations, inner);
    WrappedIsPlain(x, child);
    EmitClean(c, e, 1, RootPrefixes(c.stanzaNs), nextId);
    assert StanzaEmission(c, e, nextId).out == Some(out);
    assert out == [start] + Chars("") + inner + [end] + Chars("");
    assert [start] + Chars("") == [start] && [start] + inner + [end] + Chars("") == [start] + inner + [end];
  }

  lemma WrappedIsRejected(c: Config, x: string, child: Element, nextId: nat)
    requires StanzaNsOk(c.stanzaNs) && LookedUp(x, c.stanzaNs) && x !in c.table && x != c.stanzaNs
    requires Rejected(c, child, InsideMap(x), nextId) && Unchanged(child)
    ensures var out := StanzaEmission(c, Wrapped(x, child), nextId).out;
      out.Some? && Read(out.value, RootOpen(c)) == Malformed
  {
    RejectedReads(c, child, 2, InsideMap(x), nextId, []);
    var inner := EmitAll(c, [child], 2, InsideMap(x), nextId).out.value;
    var start, end := WrappedEmission(c, x, child, nextId, inner);
    forall open ensures Read(inner, open) == Malformed {
      RejectedReads(c, child, 2, InsideMap(x), nextId, open);
    }
    BadInside([start], inner, [end], RootOpen(c));
  }

  /** What is rejected wherever it stands is rejected between other markup. */
  lemma BadInside(before: seq<Markup>, bad: seq<Markup>, after: seq<Markup>, open: seq<Open>)
    requires forall o :: Read(bad, o) == Malformed
    ensures Read(before + bad + after, open) == Malformed
  {
    ReadConcat(before, bad, open);
    ReadConcat(before + bad, after, open);
  }

  /** A printable stanza without control characters that shows the table to be bad: it is printed, but no
      reader accepts it. */
  ghost predicate Breaks(c: Config, e: Element) {
    && XmlTree(e, c.stanzaNs) && Intact(c, e)
    && (var out := StanzaEmission(c, e, 1).out; out.Some? && Read(out.value, RootOpen(c)) == Malformed)
    && !ReadsAsSeen(c, e, 1) && !ReadsAsSent(c, e, 1)
  }

  lemma WrappedIsXml(c: Config, x: string, child: Element)
    requires LookedUp(x, c.stanzaNs) && x != c.stanzaNs && XmlTree(child, c.stanzaNs)
    ensures XmlTree(Wrapped(x, child), c.stanzaNs)
  {
    NameSplits(x, "w", true, c.stanzaNs);
    assert XmlTrees([child], c.stanzaNs) by { assert [child][1..] == []; }
  }

  lemma WrappedIsPrintable(c: Config, x: string, child: Element)
    requires StanzaNsOk(c.stanzaNs) && LookedUp(x, c.stanzaNs) && x !in c.table && x != c.stanzaNs
    requires Printable(c, child, Visible(x, ROOT_VISIBLE))
    ensures Printable(c, Wrapped(x, child), RootView(c))
  {
    var e := Wrapped(x, child);
    NameSplits(x, "w", true, c.stanzaNs);
    assert AttrNamespaces(e.attrs, c.stanzaNs) == {};
    assert VisibleInside(c, e, RootView(c)) == Visible(x, ROOT_VISIBLE);
    assert AllPrintable(c, [child], Visible(x, ROOT_VISIBLE)) by { assert [child][1..] == []; }
  }

  lemma WrappedBreaks(c: Config, x: string, child: Element)
    requires StanzaNsOk(c.stanzaNs) && LookedUp(x, c.stanzaNs) && x !in c.table && x != c.stanzaNs
    requires Rejected(c, child, InsideMap(x), 1) && XmlTree(child, c.stanzaNs)
    requires Printable(c, child, Visible(x, ROOT_VISIBLE)) && Unchanged(child)
    ensures Breaks(c, Wrapped(x, child))
  {
    WrappedIsXml(c, x, child);
    WrappedIsPrintable(c, x, child);
    WrappedIsPlain(x, child);
    WrappedIsRejected(c, x, child, 1);
    SeenIsFolded(c, Wrapped(x, child), 1, RootView(c));
  }

  // ---- One tree for each way to be bad

  function OneTag(c: Config, n: string): Element {
    Element(NameIn(n, "a", c.stanzaNs), [], "", [], "")
  }

  function TagAndAttr(c: Config, m: string, n: string): Element {
    Element(NameIn(m, "a", c.stanzaNs), [Attr(NameIn(n, "b", c.stanzaNs), "")], "", [], "")
  }

  function TagAndTwo(c: Config, n: string): Element {
    Element(NameIn(n, "a", c.stanzaNs),
            [Attr(NameIn(STREAM_NS, "b", c.stanzaNs), ""), Attr(NameIn(n, "b", c.stanzaNs), "")], "", [], "")
  }

  /** A prefix that may not be declared, or not for this namespace. */
  lemma IllegalPrefixBreaks(c: Config, n: string, x: string)
    requires StanzaNsOk(c.stanzaNs) && LookedUp(x, c.stanzaNs) && x !in c.table && x != c.stanzaNs
    requires n in c.table && LookedUp(n, c.stanzaNs)
    requires c.table[n] in {"xml", "xmlns"} || ':' in c.table[n]
    ensures Breaks(c, Wrapped(x, OneTag(c, n)))
  {
    var e := OneTag(c, n);
    NameSplits(n, "a", true, c.stanzaNs);
    var (tag, st) := PrintTag(c, e, InsideMap(x), 1);
    assert st.declarations == map[n := c.table[n]];
    assert n in st.declarations && !LegalDeclarations(st.declarations);
    assert AttrNamespaces(e.attrs, c.stanzaNs) == {};
    WrappedBreaks(c, x, e);
  }

  lemma TwoNamesPrinted(c: Config, m: string, n: string, x: string)
    requires LookedUp(m, c.stanzaNs) && LookedUp(n, c.stanzaNs) && m != n && m !in InsideMap(x) && n !in InsideMap(x)
    requires n in c.table
    ensures var (tag, st) := PrintTag(c, TagAndAttr(c, m, n), InsideMap(x), 1);
      && tag.Some? && st.declarations == map[m := if m in c.table then c.table[m] else "", n := c.table[n]]
  {
    var e := TagAndAttr(c, m, n);
    NameSplits(m, "a", true, c.stanzaNs);
    NameSplits(n, "b", false, c.stanzaNs);
    var st1 := Prefixed(c, e.tag, true, Names(InsideMap(x), map[], 1)).1;
    assert e.attrs[..0] == [] && PrefixedAttrs(c, [], st1) == (Some([]), st1);
  }

  lemma OneAttrPrintable(c: Config, m: string, n: string, v: Visible)
    requires LookedUp(m, c.stanzaNs) && LookedUp(n, c.stanzaNs) && m != n && n != v.dflt
    ensures Printable(c, TagAndAttr(c, m, n), v) && XmlTree(TagAndAttr(c, m, n), c.stanzaNs)
  {
    var e := TagAndAttr(c, m, n);
    NameSplits(m, "a", true, c.stanzaNs);
    NameSplits(n, "b", false, c.stanzaNs);
    assert e.attrs[..0] == [];
    assert AttrNamespaces(e.attrs, c.stanzaNs) == AttrNamespaces([], c.stanzaNs) + {n};
    assert Bare(c, e, v) <= {v.dflt, m};
    assert AllPrintable(c, [], VisibleInside(c, e, v));
  }

  lemma TagAndAttrRejected(c: Config, m: string, n: string, x: string)
    requires LookedUp(m, c.stanzaNs) && LookedUp(n, c.stanzaNs) && m != n && m !in InsideMap(x) && n !in InsideMap(x)
    requires n in c.table && c.table[n] == if m in c.table then c.table[m] else ""
    ensures Rejected(c, TagAndAttr(c, m, n), InsideMap(x), 1)
  {
    TwoNamesPrinted(c, m, n, x);
    var (tag, st) := PrintTag(c, TagAndAttr(c, m, n), InsideMap(x), 1);
    assert m in st.declarations && n in st.declarations && st.declarations[m] == st.declarations[n];
    assert !LegalDeclarations(st.declarations);
  }

  lemma TagAndAttrUnchanged(c: Config, m: string, n: string)
    ensures Unchanged(TagAndAttr(c, m, n))
  {
  }

  /** Two namespaces in one tag with one prefix: a shared one, or none while the tag takes the default. */
  lemma SharedPrefixBreaks(c: Config, m: string, n: string, x: string)
    requires StanzaNsOk(c.stanzaNs) && LookedUp(x, c.stanzaNs) && x !in c.table && x != c.stanzaNs
    requires LookedUp(m, c.stanzaNs) && LookedUp(n, c.stanzaNs) && m != n && n in c.table && x !in {m, n}
    requires c.table[n] == if m in c.table then c.table[m] else ""
    ensures Breaks(c, Wrapped(x, TagAndAttr(c, m, n)))
  {
    TagAndAttrRejected(c, m, n, x);
    TagAndAttrUnchanged(c, m, n);
    OneAttrPrintable(c, m, n, Visible(x, ROOT_VISIBLE));
    WrappedBreaks(c, x, TagAndAttr(c, m, n));
  }

  lemma StreamNamePrinted(c: Config, ns: string, local: string, isElement: bool, st: Names)
    requires (LookedUp(ns, c.stanzaNs) || ns == STREAM_NS) && ns in st.declared && st.declared[ns] == "stream"
    ensures Prefixed(c, NameIn(ns, local, c.stanzaNs), isElement, st) == (Some(Qualify("stream", local)), st)
  {
    NameSplits(ns, local, isElement, c.stanzaNs);
  }

  lemma TwoAttrsPrinted(c: Config, n: string, st: Names)
    requires LookedUp(n, c.stanzaNs) && n in st.declared && st.declared[n] == "stream"
    requires STREAM_NS in st.declared && st.declared[STREAM_NS] == "stream"
    ensures var a := Attr(Qualify("stream", "b"), "");
      PrefixedAttrs(c, TagAndTwo(c, n).attrs, st) == (Some([a, a]), st)
  {
    var attrs, a := TagAndTwo(c, n).attrs, Attr(Qualify("stream", "b"), "");
    StreamNamePrinted(c, STREAM_NS, "b", false, st);
    StreamNamePrinted(c, n, "b", false, st);
    assert attrs[..1] == [attrs[0]] && [attrs[0]][..0] == [];
    assert [] + [a] == [a] && [a] + [a] == [a, a];
    assert PrefixedAttrs(c, [], st) == (Some([]), st);
    assert PrefixedAttrs(c, [attrs[0]], st) == (Some([a]), st);
  }

  lemma ThreeNamesPrinted(c: Config, n: string, x: string)
    requires StanzaNsOk(c.stanzaNs) && LookedUp(x, c.stanzaNs)
    requires n in c.table && LookedUp(n, c.stanzaNs) && n != x && c.table[n] == "stream"
    ensures var (tag, st) := PrintTag(c, TagAndTwo(c, n), InsideMap(x), 1);
      && st.declarations == map[n := "stream"]
      && tag == Some((Qualify("stream", "a"), [Attr(Qualify("stream", "b"), ""), Attr(Qualify("stream", "b"), "")]))
  {
    NameSplits(n, "a", true, c.stanzaNs);
    TwoAttrsPrinted(c, n, Declare(Names(InsideMap(x), map[], 1), n, "stream"));
  }

  lemma SameAttrTwice(n: string, scope: Scope)
    requires "stream" in scope && scope["stream"] == n
    ensures ExpandAttrs([Attr(Qualify("stream", "b"), ""), Attr(Qualify("stream", "b"), "")], scope)
         == Some([Attr(Clark(n, "b"), ""), Attr(Clark(n, "b"), "")])
  {
    var a, b := Attr(Qualify("stream", "b"), ""), Attr(Clark(n, "b"), "");
    ExpandQualified("stream", "b", false, scope);
    assert [] + [a] == [a] && [a] + [a] == [a, a] && [] + [b] == [b] && [b] + [b] == [b, b];
    ExpandSnoc([], a, scope);
    assert ExpandAttrs([a], scope) == Some([b]);
    ExpandSnoc([a], a, scope);
  }

  lemma TwoNamespaces(c: Config, n: string)
    requires LookedUp(n, c.stanzaNs)
    ensures AttrNamespaces(TagAndTwo(c, n).attrs, c.stanzaNs) == {STREAM_NS, n}
    ensures Distinct(SeenAttrs(TagAndTwo(c, n).attrs, {}, c.stanzaNs))
  {
    var attrs := TagAndTwo(c, n).attrs;
    NameSplits(n, "b", false, c.stanzaNs);
    NameSplits(STREAM_NS, "b", false, c.stanzaNs);
    assert attrs[..1] == [attrs[0]] && [attrs[0]][..0] == [];
    assert AttrNamespaces([attrs[0]], c.stanzaNs) == AttrNamespaces([], c.stanzaNs) + {STREAM_NS};
    SeenAttrsAt(attrs, {}, c.stanzaNs);
    ClarkDiffers(STREAM_NS, n);
  }

  lemma TwoAttrsPrintable(c: Config, n: string, v: Visible)
    requires n in c.table && LookedUp(n, c.stanzaNs) && n != v.dflt && v.dflt != STREAM_NS
    ensures Printable(c, TagAndTwo(c, n), v) && XmlTree(TagAndTwo(c, n), c.stanzaNs)
  {
    var e := TagAndTwo(c, n);
    NameSplits(n, "a", true, c.stanzaNs);
    TwoNamespaces(c, n);
    assert Bare(c, e, v) == {v.dflt};
    assert AllPrintable(c, [], VisibleInside(c, e, v));
    assert Printable(c, e, v);
    TwoAreLegal(c, n);
  }

  lemma TwoAreUnchanged(c: Config, n: string)
    ensures Unchanged(TagAndTwo(c, n))
  {
  }

  lemma TwoAreLegal(c: Config, n: string)
    requires LookedUp(n, c.stanzaNs)
    ensures XmlTree(TagAndTwo(c, n), c.stanzaNs)
  {
    NameIsLegal(n, "a", true, c.stanzaNs);
    NameIsLegal(n, "b", false, c.stanzaNs);
    NameIsLegal(STREAM_NS, "b", false, c.stanzaNs);
  }

  lemma NameIsLegal(ns: string, local: string, isElement: bool, stanzaNs: string)
    requires (LookedUp(ns, stanzaNs) || ns == STREAM_NS) && local in {"a", "b"}
    ensures LegalName(NameIn(ns, local, stanzaNs), isElement, stanzaNs)
  {
    NameSplits(ns, local, isElement, stanzaNs);
  }

  lemma ClarkDiffers(m: string, n: string)
    requires m != n
    ensures Clark(m, "b") != Clark(n, "b")
  {
    var x, y := Clark(m, "b"), Clark(n, "b");
    assert |x| == |m| + 3 && |y| == |n| + 3;
    assert x[1..|x| - 2] == m && y[1..|y| - 2] == n;
  }

  /** How that tag is printed: one attribute twice, since the prefix now stands for n. */
  function RepeatedAttr(n: string): Markup {
    var b := Attr(Qualify("stream", "b"), "");
    StartTag(Qualify("stream", "a"), [b, b], map[n := "stream"], true)
  }

  lemma RepeatedAttrRejected(n: string, open: seq<Open>)
    ensures ReadOne(RepeatedAttr(n), open) == Malformed
  {
    var decls := map[n := "stream"];
    var scope := Enter(ScopeOf(open), decls);
    assert decls[n] in decls.Values && DeclaredAs(decls, "stream") == n;
    SameAttrTwice(n, scope);
    var b := Attr(Clark(n, "b"), "");
    assert [b, b][0].name == [b, b][1].name && !Distinct([b, b]);
  }

  lemma TagAndTwoRejected(c: Config, n: string, x: string)
    requires StanzaNsOk(c.stanzaNs) && LookedUp(x, c.stanzaNs)
    requires n in c.table && LookedUp(n, c.stanzaNs) && n != x && c.table[n] == "stream"
    ensures Rejected(c, TagAndTwo(c, n), InsideMap(x), 1)
  {
    ThreeNamesPrinted(c, n, x);
    var (tag, st) := PrintTag(c, TagAndTwo(c, n), InsideMap(x), 1);
    assert StartTag(tag.value.0, tag.value.1, st.declarations, true) == RepeatedAttr(n);
    forall open ensures ReadOne(RepeatedAttr(n), open) == Malformed {
      RepeatedAttrRejected(n, open);
    }
  }

  /** Taking the prefix of the stream namespace from it within the tag that uses it. */
  lemma StreamPrefixBreaks(c: Config, n: string, x: string)
    requires StanzaNsOk(c.stanzaNs) && LookedUp(x, c.stanzaNs) && x !in c.table && x != c.stanzaNs
    requires n in c.table && LookedUp(n, c.stanzaNs) && c.table[n] == "stream"
    ensures Breaks(c, Wrapped(x, TagAndTwo(c, n)))
  {
    TagAndTwoRejected(c, n, x);
    TwoAttrsPrintable(c, n, Visible(x, ROOT_VISIBLE));
    TwoAreUnchanged(c, n);
    WrappedBreaks(c, x, TagAndTwo(c, n));
  }

  // ---- The exact condition

  lemma BadTableBreaks(c: Config) returns (e: Element)
    requires StanzaNsOk(c.stanzaNs) && !TableOk(c)
    ensures Breaks(c, e)
  {
    var others := {"", XML_NS, XMLNS_NS, STREAM_NS, "jabber:client", "jabber:server", c.stanzaNs};
    var x := NewNamespace(c, others);
    NewNamespaceIsNew(c, others);
    var y := NewNamespace(c, others + {x});
    NewNamespaceIsNew(c, others + {x});
    if n :| n in c.table && LookedUp(n, c.stanzaNs) && (c.table[n] in {"xml", "xmlns"} || ':' in c.table[n]) {
      IllegalPrefixBreaks(c, n, x);
      e := Wrapped(x, OneTag(c, n));
    } else if n :| n in c.table && LookedUp(n, c.stanzaNs) && c.table[n] == "" {
      SharedPrefixBreaks(c, y, n, x);
      e := Wrapped(x, TagAndAttr(c, y, n));
    } else if n :| n in c.table && LookedUp(n, c.stanzaNs) && c.table[n] == "stream" {
      StreamPrefixBreaks(c, n, x);
      e := Wrapped(x, TagAndTwo(c, n));
    } else {
      var m, n :| m in c.table && n in c.table && LookedUp(m, c.stanzaNs) && LookedUp(n, c.stanzaNs)
        && c.table[m] == c.table[n] && m != n;
      SharedPrefixBreaks(c, m, n, x);
      e := Wrapped(x, TagAndAttr(c, m, n));
    }
  }

  /** A table works - every stanza reads as the tree that is seen, and every printable one without control
      characters as the tree that was sent - if and only if, of the entries that can be looked up, no two
      share a prefix and none has an empty or reserved prefix or one with a colon. */
  lemma TableOkIff(c: Config)
    requires StanzaNsOk(c.stanzaNs)
    ensures TableOk(c) <==> forall e, nextId: nat :: XmlTree(e, c.stanzaNs) ==> ReadsAsSeen(c, e, nextId)
    ensures TableOk(c) <==>
      forall e, nextId: nat :: XmlTree(e, c.stanzaNs) && Intact(c, e) ==> ReadsAsSent(c, e, nextId)
  {
    if TableOk(c) {
      forall e, nextId: nat | XmlTree(e, c.stanzaNs)
        ensures ReadsAsSeen(c, e, nextId)
        ensures Intact(c, e) ==> ReadsAsSent(c, e, nextId)
      {
        RootIsExact(c);
        StanzaReads(c, e, nextId, RootOpen(c));
        CleanSeenIsFolded(c, e, RootView(c));
        var seen := SeenStanza(c, e);
        assert Events(seen) + TextEvents(seen.tail) == Events(seen);
      }
    } else {
      var e := BadTableBreaks(c);
      assert !ReadsAsSeen(c, e, 1) && !ReadsAsSent(c, e, 1);
    }
  }
}
