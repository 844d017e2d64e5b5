/** Names in Clark notation, and exactly what the printer makes of them (pyxmpp2/xmppserializer.py). Nothing
    in the definitions here is shared with the printer. */
module ClarkNames {
  import opened Text
  import opened Xml
  import opened Serializer

  /** A name as it should arrive: the two stanza namespaces become the stream's, and everything else stays. */
  function FoldedName(name: string, stanzaNs: string): string {
    if "{jabber:client}" <= name then "{" + stanzaNs + "}" + name[15..]
    else if "{jabber:server}" <= name then "{" + stanzaNs + "}" + name[15..]
    else name
  }

  function FoldedAttrs(attrs: seq<Attr>, stanzaNs: string): (r: seq<Attr>)
    ensures |r| == |attrs|
    ensures forall i :: 0 <= i < |attrs| ==> r[i] == Attr(FoldedName(attrs[i].name, stanzaNs), attrs[i].value)
  {
    seq(|attrs|, i requires 0 <= i < |attrs| => Attr(FoldedName(attrs[i].name, stanzaNs), attrs[i].value))
  }

  /** The element sent, with stanza namespaces folded into the stream's, as the receiver should get
      it: the stanza's own tail lies outside the stanza. */
  function Folded(e: Element, level: nat, stanzaNs: string): Element
    decreases e, 1
  {
    Element(FoldedName(e.tag, stanzaNs), FoldedAttrs(e.attrs, stanzaNs), if level > 0 then e.text else "",
            FoldedAll(e.children, level + 1, stanzaNs), if level > 1 then e.tail else "")
  }

  function FoldedAll(es: seq<Element>, level: nat, stanzaNs: string): (r: seq<Element>)
    ensures |r| == |es|
    decreases es, 0
  {
    if es == [] then [] else [Folded(es[0], level, stanzaNs)] + FoldedAll(es[1..], level, stanzaNs)
  }

  // ---- How names are split

  /** A brace is opened at the start; and it is closed. */
  predicate Opened(name: string) {
    name != "" && name[0] == '{'
  }

  predicate Closed(name: string) {
    Opened(name) && '}' in name
  }

  lemma ClosedParts(name: string) returns (ns: string, local: string)
    requires Closed(name)
    ensures '}' !in ns && name == "{" + ns + "}" + local
  {
    var rest := name[1..];
    var i := Find(rest, '}');
    assert name == [name[0]] + rest;
    assert '}' in rest;
    assert rest[..|rest|] == rest;
    ns, local := rest[..i], rest[i + 1..];
    assert rest == ns + ['}'] + local;
  }

  lemma ClarkSplits(ns: string, local: string, isElement: bool, stanzaNs: string)
    requires '}' !in ns
    ensures SplitQName("{" + ns + "}" + local, isElement, stanzaNs)
         == Split(Some(if ns == "jabber:client" || ns == "jabber:server" then stanzaNs else ns), local)
  {
    var name := "{" + ns + "}" + local;
    var rest := name[1..];
    assert rest == ns + ['}'] + local;
    FindSkips(ns, '}', local);
    assert rest[..|ns|] == ns && rest[|ns| + 1..] == local;
  }

  /** _split_qname, for every name: one with a namespace is split at the first closing brace, one without
      stays as it is if it is an attribute's, and nothing else is a name. */
  lemma NamesSplit(name: string, isElement: bool, stanzaNs: string)
    ensures SplitQName(name, isElement, stanzaNs).BadName? <==> !Closed(name) && (isElement || Opened(name))
    ensures forall ns, local :: '}' !in ns && name == "{" + ns + "}" + local ==>
      SplitQName(name, isElement, stanzaNs)
      == Split(Some(if ns == "jabber:client" || ns == "jabber:server" then stanzaNs else ns), local)
    ensures !Opened(name) && !isElement ==> SplitQName(name, isElement, stanzaNs) == Split(None, name)
  {
    forall ns, local | '}' !in ns && name == "{" + ns + "}" + local
      ensures SplitQName(name, isElement, stanzaNs)
           == Split(Some(if ns == "jabber:client" || ns == "jabber:server" then stanzaNs else ns), local)
    {
      ClarkSplits(ns, local, isElement, stanzaNs);
    }
    if Closed(name) {
      var ns, local := ClosedParts(name);
    } else if Opened(name) {
      FindAbsent(name[1..], '}');
    }
  }

  /** A name begins with a braced namespace only if that is its own. */
  lemma BeginsIff(ns: string, local: string, other: string, head: string)
    requires '}' !in ns && '}' !in other && head == "{" + other + "}"
    ensures head <= "{" + ns + "}" + local <==> ns == other
    ensures ns == other ==> ("{" + ns + "}" + local)[|head|..] == local
  {
    var name := "{" + ns + "}" + local;
    if head <= name {
      var rest := name[|head|..];
      assert name == ("{" + ns) + ['}'] + local && name == ("{" + other) + ['}'] + rest;
      FindSkips("{" + ns, '}', local);
      FindSkips("{" + other, '}', rest);
      assert ns == name[1..|ns| + 1] && other == name[1..|other| + 1];
    }
  }

  lemma ClarkFolds(ns: string, local: string, stanzaNs: string)
    requires '}' !in ns
    ensures FoldedName("{" + ns + "}" + local, stanzaNs)
         == "{" + (if ns == "jabber:client" || ns == "jabber:server" then stanzaNs else ns) + "}" + local
  {
    BeginsIff(ns, local, "jabber:client", "{jabber:client}");
    BeginsIff(ns, local, "jabber:server", "{jabber:server}");
  }

  lemma BegunIsClosed(name: string, head: string, n: nat)
    requires n < |head| && head[0] == '{' && head[n] == '}'
    ensures head <= name ==> Closed(name)
  {
    if head <= name {
      assert name[n] == head[n];
    }
  }

  lemma UnclosedFolds(name: string, stanzaNs: string)
    requires !Closed(name)
    ensures FoldedName(name, stanzaNs) == name
  {
    BegunIsClosed(name, "{jabber:client}", 14);
    BegunIsClosed(name, "{jabber:server}", 14);
  }

  // ---- What is refused

  /** Some tag is in no namespace, or some name opens a brace and does not close it. */
  predicate HasBadName(e: Element)
    decreases e, 1
  {
    || !Closed(e.tag)
    || (exists a <- e.attrs :: Opened(a.name) && !Closed(a.name))
    || SomeBadName(e.children)
  }

  predicate SomeBadName(es: seq<Element>)
    decreases es, 0
  {
    es != [] && (HasBadName(es[0]) || SomeBadName(es[1..]))
  }

  lemma PrefixedFailsIff(c: Config, name: string, isElement: bool, st: Names)
    ensures Prefixed(c, name, isElement, st).0 == None <==> !Closed(name) && (isElement || Opened(name))
  {
    NamesSplit(name, isElement, c.stanzaNs);
  }

  lemma {:induction false} AttrsFailIff(c: Config, attrs: seq<Attr>, st: Names)
    ensures PrefixedAttrs(c, attrs, st).0 == None <==> exists a <- attrs :: Opened(a.name) && !Closed(a.name)
  {
    if attrs != [] {
      var before, last := attrs[..|attrs| - 1], attrs[|attrs| - 1];
      AttrsFailIff(c, before, st);
      assert attrs == before + [last];
      var st1 := PrefixedAttrs(c, before, st).1;
      PrefixedFailsIff(c, last.name, false, st1);
    }
  }

  /** Printing an element raises if and only if it has a bad name, whatever is configured and in scope. */
  lemma {:induction false} EmitFailsIff(c: Config, e: Element, level: nat, declared: map<string, string>, nextId: nat)
    ensures Emit(c, e, level, declared, nextId).out == None <==> HasBadName(e)
    decreases e, 1
  {
    var st0 := Names(declared, map[], nextId);
    PrefixedFailsIff(c, e.tag, true, st0);
    AttrsFailIff(c, e.attrs, Prefixed(c, e.tag, true, st0).1);
    var st := PrintTag(c, e, declared, nextId).1;
    EmitAllFailsIff(c, e.children, level + 1, Evict(st.declared, st.declarations), st.nextId);
  }

  lemma {:induction false} EmitAllFailsIff(c: Config, es: seq<Element>, level: nat, declared: map<string, string>,
                                           nextId: nat)
    ensures EmitAll(c, es, level, declared, nextId).out == None <==> SomeBadName(es)
    decreases es, 0
  {
    if es != [] {
      EmitFailsIff(c, es[0], level, declared, nextId);
      EmitAllFailsIff(c, es[1..], level, declared, Emit(c, es[0], level, declared, nextId).nextId);
    }
  }
}
