/** XMPPSerializer: printing of stanzas with prefixes picked on the way
    (pyxmpp2/xmppserializer.py). */
module Serializer {
  import opened Text
  import opened Xml

  const STREAM_NS := "http://etherx.jabber.org/streams"
  const STANZA_NAMESPACES := {"jabber:client", "jabber:server"}

  /** The configured part of a serializer: the stanza namespace and the prefix table, namespace
      to prefix. Throughout, "" is the absent prefix: the code only asks whether a prefix is true. */
  datatype Config = Config(stanzaNs: string, table: map<string, string>)

  // ---- Names

  datatype Split = BadName | Split(ns: Option<string>, local: string)

  /** _split_qname. BadName is the ValueError, raised for an element with no namespace and for a
      name that opens a brace and does not close it. */
  function SplitQName(name: string, isElement: bool, stanzaNs: string): Split {
    if name != "" && name[0] == '{' then
      var rest := name[1..];
      var i := Find(rest, '}');
      if i == |rest| then BadName
      else Split(Some(FoldNs(rest[..i], stanzaNs)), rest[i + 1..])
    else if isElement then BadName
    else Split(None, name)
  }

  function FoldNs(ns: string, stanzaNs: string): string {
    if ns in STANZA_NAMESPACES then stanzaNs else ns
  }

  function Qualify(prefix: string, local: string): string {
    if prefix != "" then prefix + ":" + local else local
  }

  function FreshName(id: nat): string {
    "ns" + Decimal(id)
  }

  /** First number from `id` on whose fresh prefix is not in use. A rejected candidate cannot come
      up again, so it is dropped from `used`. */
  function FreshId(used: set<string>, id: nat): nat
    decreases |used|
  {
    if FreshName(id) !in used then id else
      assert |used - {FreshName(id)}| < |used|;
      FreshId(used - {FreshName(id)}, id + 1)
  }

  /** The dictionaries _emit_element threads through a start tag, and the prefix counter. */
  datatype Names = Names(declared: map<string, string>, declarations: map<string, string>, nextId: nat)

  function UsedPrefixes(c: Config, declared: map<string, string>): set<string> {
    c.table.Values + declared.Values
  }

  function Declare(st: Names, ns: string, prefix: string): Names {
    st.(declared := st.declared[ns := prefix], declarations := st.declarations[ns := prefix])
  }

  /** _make_prefixed: the printed name, or None for a ValueError, and the updated dictionaries. */
  function Prefixed(c: Config, name: string, isElement: bool, st: Names): (Option<string>, Names) {
    match SplitQName(name, isElement, c.stanzaNs)
    case BadName => (None, st)
    case Split(None, local) => (Some(local), st)
    case Split(Some(ns), local) =>
      if ns in st.declared then (Some(Qualify(st.declared[ns], local)), st)
      else if ns in c.table then
        (Some(Qualify(c.table[ns], local)), Declare(st, ns, c.table[ns]))
      else if isElement then (Some(local), Declare(st, ns, ""))
      else
        var id := FreshId(UsedPrefixes(c, st.declared), st.nextId);
        (Some(Qualify(FreshName(id), local)), Declare(st, ns, FreshName(id)).(nextId := id + 1))
  }

  /** The attribute loop of _emit_element. */
  function PrefixedAttrs(c: Config, attrs: seq<Attr>, st: Names): (Option<seq<Attr>>, Names) {
    if attrs == [] then (Some([]), st) else
      var last := attrs[|attrs| - 1];
      var (before, st1) := PrefixedAttrs(c, attrs[..|attrs| - 1], st);
      if before == None then (None, st1) else
        var (name, st2) := Prefixed(c, last.name, false, st1);
        if name == None then (None, st2)
        else (Some(before.value + [Attr(name.value, last.value)]), st2)
  }

  /** What _make_ns_declarations leaves of the map handed to children: an entry goes when another
      namespace was declared with its prefix. */
  function Evict(declared: map<string, string>, declarations: map<string, string>): map<string, string> {
    map n | n in declared && !Shadowed(n, declared[n], declarations) :: declared[n]
  }

  predicate Shadowed(ns: string, prefix: string, declarations: map<string, string>) {
    exists m :: m in declarations && m != ns && declarations[m] == prefix
  }

  // ---- Elements

  /** Output, or None for a ValueError, and the counter afterwards. */
  datatype Emission = Emission(out: Option<seq<Markup>>, nextId: nat)

  /** The start tag's printed name and attributes, or None for a ValueError. */
  function PrintTag(c: Config, e: Element, declared: map<string, string>, nextId: nat):
    (Option<(string, seq<Attr>)>, Names)
  {
    var (name, st1) := Prefixed(c, e.tag, true, Names(declared, map[], nextId));
    if name == None then (None, st1) else
      var (attrs, st2) := PrefixedAttrs(c, e.attrs, st1);
      if attrs == None then (None, st2) else (Some((name.value, attrs.value)), st2)
  }

  /** _emit_element. */
  function Emit(c: Config, e: Element, level: nat, declared: map<string, string>, nextId: nat): Emission
    decreases e, 1
  {
    var (tag, st) := PrintTag(c, e, declared, nextId);
    if tag == None then Emission(None, st.nextId) else
      var inner := EmitAll(c, e.children, level + 1, Evict(st.declared, st.declarations), st.nextId);
      if inner.out == None then inner
      else inner.(out := Some(Assemble(e, level, tag.value.0, tag.value.1, st.declarations, inner.out.value)))
  }

  function EmitAll(c: Config, es: seq<Element>, level: nat, declared: map<string, string>, nextId: nat): Emission
    decreases es, 0
  {
    if es == [] then Emission(Some([]), nextId) else
      var first := Emit(c, es[0], level, declared, nextId);
      if first.out == None then first else
        var rest := EmitAll(c, es[1..], level, declared, first.nextId);
        if rest.out == None then rest else rest.(out := Some(first.out.value + rest.out.value))
  }

  /** Start tag, text, children, end tag and tail put together. */
  function Assemble(e: Element, level: nat, name: string, attrs: seq<Attr>, decls: map<string, string>,
                    inner: seq<Markup>): seq<Markup>
  {
    var text := if level > 0 then e.text else "";
    var tail := if level > 1 then e.tail else "";
    if e.children == [] && e.text == "" then
      [StartTag(name, attrs, decls, true)] + Chars(tail)
    else
      [StartTag(name, attrs, decls, false)] + Chars(text) + inner + [EndTag(name)] + Chars(tail)
  }

  // ---- The stream

  /** The root prefixes set by emit_head. Its copying loop walks the root prefixes themselves, so the
      configured table never gets here. */
  function RootPrefixes(stanzaNs: string): map<string, string> {
    map[STREAM_NS := "stream", XML_NS := "xml"][stanzaNs := ""]
  }

  datatype Head = Head(from_: string, to: string, id: Option<string>, version: string, language: Option<string>)

  /** The attributes of a list that are there. */
  function Chosen(attrs: seq<(bool, Attr)>): seq<Attr> {
    if attrs == [] then [] else
      var (given, last) := attrs[|attrs| - 1];
      Maybe(Chosen(attrs[..|attrs| - 1]), given, last)
  }

  /** The attributes the stream head may have; `langName` is `xml:lang`. */
  function HeadChoices(h: Head, langName: string): seq<(bool, Attr)> {
    [(true, Attr("version", h.version)), (h.from_ != "", Attr("from", h.from_)), (h.to != "", Attr("to", h.to)),
     (h.id.Some?, Attr("id", if h.id.Some? then h.id.value else "")),
     (h.language.Some?, Attr(langName, if h.language.Some? then h.language.value else ""))]
  }

  function HeadAttrs(h: Head, langName: string): seq<Attr> {
    Chosen(HeadChoices(h, langName))
  }

  function HeadDeclarations(stanzaNs: string): map<string, string> {
    var root := RootPrefixes(stanzaNs);
    map n | n in root && root[n] != "xml" :: root[n]
  }

  function HeadMarkup(h: Head, stanzaNs: string): Markup {
    StartTag("stream:stream", HeadAttrs(h, "xml:lang"), HeadDeclarations(stanzaNs), false)
  }

  function TailMarkup(stanzaNs: string): Markup {
    EndTag((if stanzaNs == STREAM_NS then "None" else "stream") + ":stream")
  }
}
