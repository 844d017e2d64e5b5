/** The control characters that XML does not allow, and their removal from what is printed
    (pyxmpp2/xmppserializer.py). */
module ControlCharacters {
  import opened Text
  import opened Xml
  import opened Serializer
  import opened ClarkNames
  import opened Meaning

  predicate IsControl(c: char) {
    c < ' ' && c != '\t' && c != '\n' && c != '\r'
  }

  predicate Plain(s: string) {
    forall c <- s :: !IsControl(c)
  }

  /** remove_evil_characters on one character: U+0000 to U+0008, U+000B, U+000C and U+000E to U+001F become
      U+FFFD. */
  function CleanedChar(c: char): (r: char)
    ensures r == if c <= '\U{8}' || '\U{B}' <= c <= '\U{C}' || '\U{E}' <= c <= '\U{1F}' then '\U{FFFD}' else c
    ensures !IsControl(r) && (r == c <==> !IsControl(c))
  {
    if IsControl(c) then '\U{FFFD}' else c
  }

  function Cleaned(s: string): (r: string)
    ensures |r| == |s| && forall i :: 0 <= i < |s| ==> r[i] == CleanedChar(s[i])
    ensures Plain(r) && (r == s <==> Plain(s))
  {
    var r := seq(|s|, i requires 0 <= i < |s| => CleanedChar(s[i]));
    assert forall i :: 0 <= i < |s| ==> r[i] == CleanedChar(s[i]) && s[i] in s;
    r
  }

  function CleanAttr(a: Attr): Attr {
    a.(value := Cleaned(a.value))
  }

  function CleanAttrs(attrs: seq<Attr>): (r: seq<Attr>)
    ensures |r| == |attrs| && forall i :: 0 <= i < |attrs| ==> r[i] == CleanAttr(attrs[i])
  {
    seq(|attrs|, i requires 0 <= i < |attrs| => CleanAttr(attrs[i]))
  }

  /** The same on a piece of markup, whose names have no such characters. */
  function CleanMarkup(m: Markup): Markup {
    match m
    case StartTag(name, attrs, decls, selfClosing) => StartTag(name, CleanAttrs(attrs), decls, selfClosing)
    case EndTag(name) => m
    case CharData(text) => CharData(Cleaned(text))
  }

  function CleanAll(ms: seq<Markup>): (r: seq<Markup>)
    ensures |r| == |ms| && forall i :: 0 <= i < |ms| ==> r[i] == CleanMarkup(ms[i])
  {
    seq(|ms|, i requires 0 <= i < |ms| => CleanMarkup(ms[i]))
  }

  function CleanEmission(em: Emission): Emission {
    if em.out.Some? then em.(out := Some(CleanAll(em.out.value))) else em
  }

  /** A tree with the characters replaced in its texts and attribute values. */
  function CleanElement(e: Element): Element
    decreases e, 1
  {
    Element(e.tag, CleanAttrs(e.attrs), Cleaned(e.text), CleanElements(e.children), Cleaned(e.tail))
  }

  function CleanElements(es: seq<Element>): (r: seq<Element>)
    ensures |r| == |es|
    decreases es, 0
  {
    if es == [] then [] else [CleanElement(es[0])] + CleanElements(es[1..])
  }

  /** No such character in the element, but for the text behind it. */
  predicate NoControls(e: Element)
    decreases e, 1
  {
    (forall a <- e.attrs :: Plain(a.value)) && Plain(e.text) && AllNoControls(e.children)
  }

  predicate AllNoControls(es: seq<Element>)
    decreases es, 0
  {
    es == [] || (NoControls(es[0]) && Plain(es[0].tail) && AllNoControls(es[1..]))
  }

  // ---- Replacing before or after printing

  lemma CleanAllConcat(a: seq<Markup>, b: seq<Markup>)
    ensures CleanAll(a + b) == CleanAll(a) + CleanAll(b)
  {
  }

  lemma CleanChars(text: string)
    ensures CleanAll(Chars(text)) == Chars(Cleaned(text))
  {
    if text == "" {
      assert Cleaned(text) == "";
    }
  }

  lemma {:induction false} AttrsPrintClean(c: Config, attrs: seq<Attr>, st: Names)
    ensures var (printed, st1) := PrefixedAttrs(c, attrs, st);
      PrefixedAttrs(c, CleanAttrs(attrs), st) == (if printed.Some? then Some(CleanAttrs(printed.value)) else None, st1)
  {
    if attrs != [] {
      var before, last := attrs[..|attrs| - 1], attrs[|attrs| - 1];
      AttrsPrintClean(c, before, st);
      assert CleanAttrs(attrs)[..|attrs| - 1] == CleanAttrs(before);
      var (printed, st1) := PrefixedAttrs(c, before, st);
      if printed.Some? {
        var name := Prefixed(c, last.name, false, st1).0;
        if name.Some? {
          var a := Attr(name.value, last.value);
          assert CleanAttrs(printed.value + [a]) == CleanAttrs(printed.value) + [CleanAttr(a)];
        }
      }
    } else {
      assert CleanAttrs(attrs) == [];
    }
  }

  lemma AssembleClean(e: Element, level: nat, name: string, attrs: seq<Attr>, decls: map<string, string>,
                      inner: seq<Markup>)
    ensures Assemble(CleanElement(e), level, name, CleanAttrs(attrs), decls, CleanAll(inner))
         == CleanAll(Assemble(e, level, name, attrs, decls, inner))
  {
    var text, tail := if level > 0 then e.text else "", if level > 1 then e.tail else "";
    CleanChars(text);
    CleanChars(tail);
    var e1 := CleanElement(e);
    assert (if level > 0 then e1.text else "") == Cleaned(text) && (if level > 1 then e1.tail else "") == Cleaned(tail);
    assert (e1.children == [] <==> e.children == []) && (e1.text == "" <==> e.text == "");
    var closed, start := [StartTag(name, attrs, decls, true)], [StartTag(name, attrs, decls, false)];
    CleanAllConcat(closed, Chars(tail));
    CleanAllConcat(start, Chars(text));
    CleanAllConcat(start + Chars(text), inner);
    CleanAllConcat(start + Chars(text) + inner, [EndTag(name)]);
    CleanAllConcat(start + Chars(text) + inner + [EndTag(name)], Chars(tail));
    assert CleanAll(closed) == [StartTag(name, CleanAttrs(attrs), decls, true)];
    assert CleanAll(start) == [StartTag(name, CleanAttrs(attrs), decls, false)];
    assert CleanAll([EndTag(name)]) == [EndTag(name)];
  }

  /** Replacing the characters in what is printed gives what the tree without them prints. */
  lemma {:induction false} EmitClean(c: Config, e: Element, level: nat, declared: map<string, string>, nextId: nat)
    ensures Emit(c, CleanElement(e), level, declared, nextId) == CleanEmission(Emit(c, e, level, declared, nextId))
    decreases e, 1
  {
    AttrsPrintClean(c, e.attrs, Prefixed(c, e.tag, true, Names(declared, map[], nextId)).1);
    var (tag, st) := PrintTag(c, e, declared, nextId);
    if tag.Some? {
      assert PrintTag(c, CleanElement(e), declared, nextId) == (Some((tag.value.0, CleanAttrs(tag.value.1))), st);
      var kept := Evict(st.declared, st.declarations);
      EmitAllClean(c, e.children, level + 1, kept, st.nextId);
      var inner := EmitAll(c, e.children, level + 1, kept, st.nextId);
      if inner.out.Some? {
        AssembleClean(e, level, tag.value.0, tag.value.1, st.declarations, inner.out.value);
      }
    }
  }

  lemma {:induction false} EmitAllClean(c: Config, es: seq<Element>, level: nat, declared: map<string, string>,
                                        nextId: nat)
    ensures EmitAll(c, CleanElements(es), level, declared, nextId)
         == CleanEmission(EmitAll(c, es, level, declared, nextId))
    decreases es, 0
  {
    if es == [] {
      assert CleanAll([]) == [];
    } else {
      EmitClean(c, es[0], level, declared, nextId);
      var first := Emit(c, es[0], level, declared, nextId);
      EmitAllClean(c, es[1..], level, declared, first.nextId);
      EmitConsClean(c, es[0], CleanElement(es[0]), es[1..], CleanElements(es[1..]), level, declared, nextId,
                    first, EmitAll(c, es[1..], level, declared, first.nextId));
      assert es == [es[0]] + es[1..];
    }
  }

  lemma {:induction false} EmitConsClean(c: Config, e: Element, e1: Element, es: seq<Element>, es1: seq<Element>,
                                         level: nat, declared: map<string, string>, nextId: nat, first: Emission,
                                         rest: Emission)
    requires Emit(c, e, level, declared, nextId) == first && EmitAll(c, es, level, declared, first.nextId) == rest
    requires Emit(c, e1, level, declared, nextId) == CleanEmission(first)
    requires EmitAll(c, es1, level, declared, first.nextId) == CleanEmission(rest)
    ensures EmitAll(c, [e1] + es1, level, declared, nextId)
         == CleanEmission(EmitAll(c, [e] + es, level, declared, nextId))
  {
    assert ([e] + es)[1..] == es;
    assert ([e1] + es1)[1..] == es1;
    if first.out.Some? && rest.out.Some? {
      CleanAllConcat(first.out.value, rest.out.value);
    }
  }

  // ---- Names are left alone

  lemma {:induction false} NamesOfClean(attrs: seq<Attr>, bare: set<string>, stanzaNs: string)
    ensures AttrNamespaces(CleanAttrs(attrs), stanzaNs) == AttrNamespaces(attrs, stanzaNs)
    ensures SeenAttrs(CleanAttrs(attrs), bare, stanzaNs) == CleanAttrs(SeenAttrs(attrs, bare, stanzaNs))
  {
    if attrs != [] {
      var before, last := attrs[..|attrs| - 1], attrs[|attrs| - 1];
      NamesOfClean(before, bare, stanzaNs);
      assert CleanAttrs(attrs)[..|attrs| - 1] == CleanAttrs(before);
      var seen := Attr(SeenName(last.name, false, bare, stanzaNs), last.value);
      assert CleanAttrs(SeenAttrs(before, bare, stanzaNs) + [seen])
          == CleanAttrs(SeenAttrs(before, bare, stanzaNs)) + [CleanAttr(seen)];
    } else {
      assert CleanAttrs(attrs) == [];
    }
  }

  lemma {:induction false} CleanIsXml(e: Element, stanzaNs: string)
    ensures XmlTree(CleanElement(e), stanzaNs) <==> XmlTree(e, stanzaNs)
    decreases e, 1
  {
    var attrs := CleanAttrs(e.attrs);
    assert forall i :: 0 <= i < |attrs| ==>
      attrs[i].name == e.attrs[i].name && attrs[i] in attrs && e.attrs[i] in e.attrs;
    CleanAreXml(e.children, stanzaNs);
  }

  lemma {:induction false} CleanAreXml(es: seq<Element>, stanzaNs: string)
    ensures XmlTrees(CleanElements(es), stanzaNs) <==> XmlTrees(es, stanzaNs)
    decreases es, 0
  {
    if es != [] {
      assert CleanElements(es)[0] == CleanElement(es[0]) && CleanElements(es)[1..] == CleanElements(es[1..]);
      CleanIsXml(es[0], stanzaNs);
      CleanAreXml(es[1..], stanzaNs);
    }
  }

  lemma CleanDistinct(attrs: seq<Attr>)
    ensures Distinct(CleanAttrs(attrs)) <==> Distinct(attrs)
  {
    var clean := CleanAttrs(attrs);
    assert forall i :: 0 <= i < |attrs| ==> clean[i].name == attrs[i].name;
  }

  lemma {:induction false} CleanIsPrintable(c: Config, e: Element, v: Visible)
    ensures Printable(c, CleanElement(e), v) <==> Printable(c, e, v)
    decreases e, 1
  {
    NamesOfClean(e.attrs, {}, c.stanzaNs);
    CleanDistinct(SeenAttrs(e.attrs, {}, c.stanzaNs));
    assert VisibleInside(c, CleanElement(e), v) == VisibleInside(c, e, v);
    CleanArePrintable(c, e.children, VisibleInside(c, e, v));
  }

  lemma {:induction false} CleanArePrintable(c: Config, es: seq<Element>, v: Visible)
    ensures AllPrintable(c, CleanElements(es), v) <==> AllPrintable(c, es, v)
    decreases es, 0
  {
    if es != [] {
      assert CleanElements(es)[0] == CleanElement(es[0]) && CleanElements(es)[1..] == CleanElements(es[1..]);
      CleanIsPrintable(c, es[0], v);
      CleanArePrintable(c, es[1..], v);
    }
  }

  // ---- Which trees stay as they are

  lemma {:induction false} PlainStays(e: Element)
    requires NoControls(e)
    ensures CleanElement(e) == e.(tail := Cleaned(e.tail))
    decreases e, 1
  {
    assert CleanAttrs(e.attrs) == e.attrs by {
      assert forall i :: 0 <= i < |e.attrs| ==> e.attrs[i] in e.attrs;
    }
    AllPlainStay(e.children);
  }

  lemma {:induction false} AllPlainStay(es: seq<Element>)
    requires AllNoControls(es)
    ensures CleanElements(es) == es
    decreases es, 0
  {
    if es != [] {
      PlainStays(es[0]);
      AllPlainStay(es[1..]);
    }
  }

  lemma ValuesPlain(attrs: seq<Attr>, bare: set<string>, stanzaNs: string)
    ensures (forall a <- SeenAttrs(attrs, bare, stanzaNs) :: Plain(a.value)) <==> forall a <- attrs :: Plain(a.value)
  {
    var seen := SeenAttrs(attrs, bare, stanzaNs);
    SeenAttrAt(attrs, bare, stanzaNs, 0);
    forall i | 0 <= i < |attrs| ensures seen[i].value == attrs[i].value && seen[i] in seen && attrs[i] in attrs {
      SeenAttrAt(attrs, bare, stanzaNs, i);
    }
  }

  lemma {:induction false} SeenIsPlain(c: Config, e: Element, level: nat, v: Visible)
    requires level > 0
    ensures NoControls(Seen(c, e, level, v)) <==> NoControls(e)
    decreases e, 1
  {
    ValuesPlain(e.attrs, Bare(c, e, v), c.stanzaNs);
    AllSeenArePlain(c, e.children, level + 1, VisibleInside(c, e, v));
  }

  lemma {:induction false} AllSeenArePlain(c: Config, es: seq<Element>, level: nat, v: Visible)
    requires level > 1
    ensures AllNoControls(SeenAll(c, es, level, v)) <==> AllNoControls(es)
    decreases es, 0
  {
    if es != [] {
      var r := SeenAll(c, es, level, v);
      assert r[0] == Seen(c, es[0], level, v) && r[1..] == SeenAll(c, es[1..], level, v);
      SeenIsPlain(c, es[0], level, v);
      AllSeenArePlain(c, es[1..], level, v);
    }
  }

  lemma {:induction false} FoldedIsPlain(e: Element, level: nat, stanzaNs: string)
    requires level > 0
    ensures NoControls(Folded(e, level, stanzaNs)) <==> NoControls(e)
    decreases e, 1
  {
    var folded := FoldedAttrs(e.attrs, stanzaNs);
    assert forall i :: 0 <= i < |e.attrs| ==> folded[i] in folded && e.attrs[i] in e.attrs;
    AllFoldedArePlain(e.children, level + 1, stanzaNs);
  }

  lemma {:induction false} AllFoldedArePlain(es: seq<Element>, level: nat, stanzaNs: string)
    requires level > 1
    ensures AllNoControls(FoldedAll(es, level, stanzaNs)) <==> AllNoControls(es)
    decreases es, 0
  {
    if es != [] {
      var r := FoldedAll(es, level, stanzaNs);
      assert r[0] == Folded(es[0], level, stanzaNs) && r[1..] == FoldedAll(es[1..], level, stanzaNs);
      FoldedIsPlain(es[0], level, stanzaNs);
      AllFoldedArePlain(es[1..], level, stanzaNs);
    }
  }

  lemma {:induction false} CleanIsPlain(e: Element)
    ensures NoControls(CleanElement(e))
    decreases e, 1
  {
    assert forall i :: 0 <= i < |e.attrs| ==> CleanAttrs(e.attrs)[i].value == Cleaned(e.attrs[i].value);
    AllCleanArePlain(e.children);
  }

  lemma {:induction false} AllCleanArePlain(es: seq<Element>)
    ensures AllNoControls(CleanElements(es))
    decreases es, 0
  {
    if es != [] {
      assert CleanElements(es)[0] == CleanElement(es[0]) && CleanElements(es)[1..] == CleanElements(es[1..]);
      CleanIsPlain(es[0]);
      AllCleanArePlain(es[1..]);
    }
  }

  /** A tree whose texts are cleaned on the way is seen as the tree sent if and only if it is printable
      where it stands and there was nothing to clean. */
  lemma CleanSeenIsFolded(c: Config, e: Element, v: Visible)
    ensures var seen := Seen(c, CleanElement(e), 1, v);
      DistinctAttrs(seen) && seen == Folded(e, 1, c.stanzaNs) <==> Printable(c, e, v) && NoControls(e)
  {
    var clean := CleanElement(e);
    SeenIsFolded(c, clean, 1, v);
    CleanIsPrintable(c, e, v);
    CleanIsPlain(e);
    SeenIsPlain(c, clean, 1, v);
    FoldedIsPlain(e, 1, c.stanzaNs);
    if NoControls(e) {
      PlainStays(e);
      assert Folded(clean, 1, c.stanzaNs) == Folded(e, 1, c.stanzaNs);
    }
  }
}
