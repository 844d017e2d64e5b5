/** The XMPPSerializer object: fields, loops and dictionary updates, each method proved against the
    functions of Serializer (pyxmpp2/xmppserializer.py). */
module XmppSerializer {
  import opened Text
  import opened Xml
  import opened Serializer
  import opened ClarkNames
  import opened Meaning
  import opened ControlCharacters
  import opened Stream
  import opened StreamParser

  datatype StanzaResult = HeadMissing | Raised | Printed(out: seq<Markup>)

  class XMPPSerializer {
    const stanzaNs: string
    var prefixes: map<string, string>
    var rootPrefixes: Option<map<string, string>>
    var headEmitted: bool
    var nextId: nat

    ghost function Settings(): Config
      reads this
    {
      Config(stanzaNs, prefixes)
    }

    ghost predicate Valid()
      reads this
    {
      && (rootPrefixes.Some? ==> rootPrefixes.value == RootPrefixes(stanzaNs))
      && (headEmitted ==> rootPrefixes.Some?)
    }

    constructor (stanzaNs: string, extraPrefixes: map<string, string>)
      ensures Valid() && Settings() == Config(stanzaNs, extraPrefixes)
      ensures !headEmitted && nextId == 1
    {
      this.stanzaNs := stanzaNs;
      prefixes, rootPrefixes, headEmitted, nextId := extraPrefixes, None, false, 1;
    }

    method AddPrefix(ns: string, prefix: string) returns (raised: bool)
      requires Valid()
      modifies `prefixes
      ensures Valid() && Settings() == Configure(old(Settings()), ns, prefix)
      ensures raised <==> prefix == "xml" && ns != "http://www.w3.org/XML/1998/namespace"
      ensures prefixes == if raised then old(prefixes) else old(prefixes)[ns := prefix]
    {
      raised := prefix == "xml" && ns != XML_NS;
      if !raised {
        prefixes := prefixes[ns := prefix];
      }
    }

    method EmitHead(h: Head) returns (tag: Markup)
      modifies `rootPrefixes, `headEmitted
      ensures Valid() && headEmitted && tag == HeadMarkup(h, stanzaNs)
      ensures StanzaNsOk(stanzaNs) ==> var r := Read([tag], []);
        && r.Reading? && |r.events| == 1 && r.events[0].Start? && SaysHead(h, r.events[0].tag, r.events[0].attrs)
        && |r.open| == 1 && RootBindings(stanzaNs, r.open[0].scope)
    {
      if StanzaNsOk(stanzaNs) { HeadReads(Settings(), h); }
      var root := map[STREAM_NS := "stream", XML_NS := "xml"];
      root := root[stanzaNs := ""];
      rootPrefixes := Some(root);
      var decls := map n | n in root && root[n] != "xml" :: root[n];
      tag := StartTag("stream:stream", HeadAttrs(h, "xml:lang"), decls, false);
      headEmitted := true;
    }

    /** None is the exception before emit_head; one that failed on the way has set the root prefixes. */
    method EmitTail() returns (tag: Option<Markup>)
      requires Valid()
      ensures tag == if rootPrefixes.Some? then Some(TailMarkup(stanzaNs)) else None
      ensures headEmitted ==> tag.Some?
    {
      if rootPrefixes.None? {
        return None;
      }
      var prefix := rootPrefixes.value[STREAM_NS];
      return Some(EndTag((if prefix == "" then "None" else prefix) + ":stream"));
    }

    /** The search for a prefix that is neither configured nor declared in scope. */
    method MakePrefix(declared: map<string, string>) returns (prefix: string)
      modifies `nextId
      ensures var id := FreshId(UsedPrefixes(Settings(), declared), old(nextId));
        && prefix == FreshName(id) && nextId == id + 1
        && prefix !in prefixes.Values && prefix !in declared.Values
    {
      var used := prefixes.Values + declared.Values;
      ghost var left, id := used, FreshId(used, nextId);
      FreshIdIsFirstUnused(used, nextId);
      while true
        invariant left <= used && id == FreshId(left, nextId)
        invariant forall k: nat :: k >= nextId && FreshName(k) in used ==> FreshName(k) in left
        decreases |left|
      {
        prefix := FreshName(nextId);
        ghost var tried := nextId;
        nextId := nextId + 1;
        if prefix !in used {
          break;
        }
        assert |left - {prefix}| < |left|;
        left := left - {prefix};
        forall k: nat | k >= nextId && FreshName(k) in used ensures FreshName(k) in left {
          if FreshName(k) == prefix { FreshNameInjective(k, tried); }
        }
      }
    }

    method MakePrefixed(name: string, isElement: bool, declared: map<string, string>, declarations: map<string, string>)
      returns (printed: Option<string>, declared1: map<string, string>, declarations1: map<string, string>)
      modifies `nextId
      ensures (printed, Names(declared1, declarations1, nextId))
           == Prefixed(Settings(), name, isElement, Names(declared, declarations, old(nextId)))
    {
      declared1, declarations1 := declared, declarations;
      match SplitQName(name, isElement, stanzaNs) {
        case BadName =>
          printed := None;
        case Split(None, local) =>
          printed := Some(local);
        case Split(Some(ns), local) =>
          var prefix;
          if ns in declared {
            prefix := declared[ns];
          } else {
            if ns in prefixes {
              prefix := prefixes[ns];
            } else if isElement {
              prefix := "";
            } else {
              prefix := MakePrefix(declared);
            }
            declarations1 := declarations[ns := prefix];
            declared1 := declared[ns := prefix];
          }
          printed := Some(if prefix != "" then prefix + ":" + local else local);
      }
    }

    /** The loops that drop what the new declarations hide. The order of the dictionaries is arbitrary. */
    static method DropObsolete(declarations: map<string, string>, declared: map<string, string>)
      returns (kept: map<string, string>)
      ensures kept == Evict(declared, declarations)
    {
      kept := declared;
      var todo := declarations.Keys;
      while todo != {}
        invariant todo <= declarations.Keys
        invariant kept == Evict(declared, map n | n in declarations && n !in todo :: declarations[n])
        decreases |todo|
      {
        var ns :| ns in todo;
        assert todo == (todo - {ns}) + {ns};
        kept := DropHiddenBy(ns, declarations[ns], kept);
        todo := todo - {ns};
        EvictOneMore(declared, declarations, todo, ns, kept);
      }
      assert declarations == map n | n in declarations && n !in todo :: declarations[n];
    }

    static method DropHiddenBy(ns: string, prefix: string, declared: map<string, string>)
      returns (kept: map<string, string>)
      ensures kept == map n | n in declared && (n == ns || declared[n] != prefix) :: declared[n]
    {
      kept := declared;
      var items := declared.Keys;
      while items != {}
        invariant items <= kept.Keys
        invariant kept == map n | n in declared && (n in items || n == ns || declared[n] != prefix) :: declared[n]
        decreases |items|
      {
        var dNs :| dNs in items;
        if kept[dNs] == prefix && ns != dNs {
          kept := kept - {dNs};
        }
        items := items - {dNs};
      }
    }

    /** The part of _emit_element that prints the names of the start tag. */
    method EmitTagNames(e: Element, inherited: map<string, string>)
      returns (tag: Option<(string, seq<Attr>)>, declared: map<string, string>, declarations: map<string, string>)
      modifies `nextId
      ensures (tag, Names(declared, declarations, nextId)) == PrintTag(Settings(), e, inherited, old(nextId))
    {
      var name;
      name, declared, declarations := MakePrefixed(e.tag, true, inherited, map[]);
      if name.None? {
        return None, declared, declarations;
      }
      ghost var st1 := Names(declared, declarations, nextId);
      var attrs: seq<Attr> := [];
      for i := 0 to |e.attrs|
        invariant PrefixedAttrs(Settings(), e.attrs[..i], st1) == (Some(attrs), Names(declared, declarations, nextId))
      {
        ghost var st := Names(declared, declarations, nextId);
        AttrStep(Settings(), e.attrs, i, st1, attrs, st);
        var attrName;
        attrName, declared, declarations := MakePrefixed(e.attrs[i].name, false, declared, declarations);
        if attrName.None? {
          AttrErrorStops(Settings(), e.attrs, i + 1, st1);
          return None, declared, declarations;
        }
        attrs := attrs + [Attr(attrName.value, e.attrs[i].value)];
      }
      assert e.attrs[..|e.attrs|] == e.attrs;
      tag := Some((name.value, attrs));
    }

    /** The child loop of _emit_element. */
    method EmitChildren(es: seq<Element>, level: nat, declared: map<string, string>) returns (out: Option<seq<Markup>>)
      modifies `nextId
      ensures Emission(out, nextId) == EmitAll(Settings(), es, level, declared, old(nextId))
      decreases es, 0
    {
      var children: seq<Markup> := [];
      ghost var whole := EmitAll(Settings(), es, level, declared, nextId);
      assert es[0..] == es;
      PrecededByNothing(whole);
      for i := 0 to |es|
        invariant whole == Preceded(children, EmitAll(Settings(), es[i..], level, declared, nextId))
      {
        EmitAllNext(Settings(), es[i..], level, declared, nextId, children);
        assert es[i..][1..] == es[i + 1..];
        var child := EmitElement(es[i], level, declared);
        if child.None? {
          return None;
        }
        children := children + child.value;
      }
      assert children + [] == children;
      out := Some(children);
    }

    method EmitElement(e: Element, level: nat, inherited: map<string, string>) returns (out: Option<seq<Markup>>)
      modifies `nextId
      ensures Emission(out, nextId) == Emit(Settings(), e, level, inherited, old(nextId))
      decreases e, 1
    {
      var tag, declared, declarations := EmitTagNames(e, inherited);
      if tag.None? {
        return None;
      }
      var (name, attrs) := tag.value;
      declared := DropObsolete(declarations, declared);
      var children := EmitChildren(e.children, level + 1, declared);
      if children.None? {
        return None;
      }
      var text := if level > 0 then e.text else "";
      var tail := if level > 1 then e.tail else "";
      if e.children == [] && e.text == "" {
        out := Some([StartTag(name, attrs, declarations, true)] + Chars(tail));
      } else {
        out := Some([StartTag(name, attrs, declarations, false)] + Chars(text) + children.value
                    + [EndTag(name)] + Chars(tail));
      }
    }

    /** emit_stanza: what it returns is what the peer reads as the sent element exactly when the
        element is printable at the root and has no control characters. */
    method EmitStanza(e: Element) returns (r: StanzaResult)
      requires Valid()
      modifies `nextId
      ensures Valid() && nextId >= old(nextId)
      ensures r.HeadMissing? <==> !headEmitted
      ensures headEmitted ==> var em := StanzaEmission(Settings(), e, old(nextId));
        nextId == em.nextId && r == if em.out.Some? then Printed(em.out.value) else Raised
      ensures headEmitted ==> (r.Raised? <==> HasBadName(e))
      ensures headEmitted && ConfigOk(Settings()) && XmlTree(e, stanzaNs) ==>
        && r.Printed?
        && (Read(r.out, RootOpen(Settings())) == Reading(Events(Folded(e, 1, stanzaNs)), RootOpen(Settings()))
            <==> Intact(Settings(), e))
    {
      if !headEmitted {
        return HeadMissing;
      }
      var out := EmitElement(e, 1, rootPrefixes.value);
      EmitGrows(Settings(), e, 1, RootPrefixes(stanzaNs), old(nextId));
      EmitFailsIff(Settings(), e, 1, RootPrefixes(stanzaNs), old(nextId));
      if ConfigOk(Settings()) && XmlTree(e, stanzaNs) {
        StanzaMeaning(Settings(), e, old(nextId));
      }
      r := if out.Some? then Printed(CleanAll(out.value)) else Raised;
    }
  }

  function Preceded(before: seq<Markup>, em: Emission): Emission {
    if em.out.None? then em else em.(out := Some(before + em.out.value))
  }

  lemma PrecededByNothing(em: Emission)
    ensures Preceded([], em) == em
  {
    if em.out.Some? { assert [] + em.out.value == em.out.value; }
  }

  lemma EmitAllNext(c: Config, es: seq<Element>, level: nat, declared: map<string, string>, nextId: nat,
                    before: seq<Markup>)
    requires es != []
    ensures var first := Emit(c, es[0], level, declared, nextId);
      Preceded(before, EmitAll(c, es, level, declared, nextId))
      == if first.out.None? then first
         else Preceded(before + first.out.value, EmitAll(c, es[1..], level, declared, first.nextId))
  {
    var first := Emit(c, es[0], level, declared, nextId);
    if first.out.Some? {
      var rest := EmitAll(c, es[1..], level, declared, first.nextId);
      if rest.out.Some? {
        assert before + (first.out.value + rest.out.value) == (before + first.out.value) + rest.out.value;
      }
    }
  }

  lemma EvictOneMore(declared: map<string, string>, declarations: map<string, string>, todo: set<string>, ns: string,
                     kept: map<string, string>)
    requires ns in declarations && todo <= declarations.Keys && ns !in todo
    requires var done := map n | n in declarations && n !in todo + {ns} :: declarations[n];
      var before := Evict(declared, done);
      kept == map n | n in before && (n == ns || before[n] != declarations[ns]) :: before[n]
    ensures kept == Evict(declared, map n | n in declarations && n !in todo :: declarations[n])
  {
    var less := map n | n in declarations && n !in todo + {ns} :: declarations[n];
    var done := map n | n in declarations && n !in todo :: declarations[n];
    forall n | n in declared
      ensures Shadowed(n, declared[n], done)
        <==> Shadowed(n, declared[n], less) || (n != ns && declared[n] == declarations[ns])
    {
      if Shadowed(n, declared[n], less) {
        var m :| m in less && m != n && less[m] == declared[n];
        assert m in done;
      }
      if n != ns && declared[n] == declarations[ns] {
        assert ns in done;
      }
    }
  }

  /** One more turn of the attribute loop. */
  lemma AttrStep(c: Config, attrs: seq<Attr>, i: nat, st1: Names, before: seq<Attr>, st: Names)
    requires i < |attrs| && PrefixedAttrs(c, attrs[..i], st1) == (Some(before), st)
    ensures var (name, st2) := Prefixed(c, attrs[i].name, false, st);
      PrefixedAttrs(c, attrs[..i + 1], st1)
      == if name == None then (None, st2) else (Some(before + [Attr(name.value, attrs[i].value)]), st2)
  {
    assert attrs[..i + 1][..i] == attrs[..i];
  }

  lemma {:induction false} AttrErrorStops(c: Config, attrs: seq<Attr>, k: nat, st: Names)
    requires k <= |attrs| && PrefixedAttrs(c, attrs[..k], st).0 == None
    ensures PrefixedAttrs(c, attrs, st) == PrefixedAttrs(c, attrs[..k], st)
  {
    if k < |attrs| {
      assert attrs[..|attrs| - 1][..k] == attrs[..k];
      AttrErrorStops(c, attrs[..|attrs| - 1], k, st);
    } else {
      assert attrs[..k] == attrs;
    }
  }

  // ---- The prefix counter only grows

  lemma {:induction false} AttrsGrow(c: Config, attrs: seq<Attr>, st: Names)
    ensures PrefixedAttrs(c, attrs, st).1.nextId >= st.nextId
  {
    if attrs != [] {
      AttrsGrow(c, attrs[..|attrs| - 1], st);
      PrefixedGrows(c, attrs[|attrs| - 1].name, false, PrefixedAttrs(c, attrs[..|attrs| - 1], st).1);
    }
  }

  lemma PrefixedGrows(c: Config, name: string, isElement: bool, st: Names)
    ensures Prefixed(c, name, isElement, st).1.nextId >= st.nextId
  {
    FreshIdIsFirstUnused(UsedPrefixes(c, st.declared), st.nextId);
  }

  lemma {:induction false} EmitGrows(c: Config, e: Element, level: nat, declared: map<string, string>, nextId: nat)
    ensures Emit(c, e, level, declared, nextId).nextId >= nextId
    decreases e, 1
  {
    PrefixedGrows(c, e.tag, true, Names(declared, map[], nextId));
    AttrsGrow(c, e.attrs, Prefixed(c, e.tag, true, Names(declared, map[], nextId)).1);
    var st := PrintTag(c, e, declared, nextId).1;
    EmitAllGrows(c, e.children, level + 1, Evict(st.declared, st.declarations), st.nextId);
  }

  lemma {:induction false} EmitAllGrows(c: Config, es: seq<Element>, level: nat, declared: map<string, string>,
                                        nextId: nat)
    ensures EmitAll(c, es, level, declared, nextId).nextId >= nextId
    decreases es, 0
  {
    if es != [] {
      EmitGrows(c, es[0], level, declared, nextId);
      EmitAllGrows(c, es[1..], level, declared, Emit(c, es[0], level, declared, nextId).nextId);
    }
  }

  // ---- One stanza

  lemma StanzaMeaning(c: Config, e: Element, nextId: nat)
    requires ConfigOk(c) && XmlTree(e, c.stanzaNs)
    ensures var em := StanzaEmission(c, e, nextId);
      && em.out.Some?
      && (Read(em.out.value, RootOpen(c)) == Reading(Events(Folded(e, 1, c.stanzaNs)), RootOpen(c))
          <==> Intact(c, e))
  {
    RootIsExact(c);
    StanzaReads(c, e, nextId, RootOpen(c));
    CleanSeenIsFolded(c, e, RootView(c));
    var seen, folded := SeenStanza(c, e), Folded(e, 1, c.stanzaNs);
    if Events(seen) == Events(folded) {
      EventsInjective(seen, folded);
    }
  }
}
