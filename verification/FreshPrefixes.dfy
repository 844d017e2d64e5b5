/** Over the whole life of a serializer no prefix is made up twice (pyxmpp2/xmppserializer.py). */
module FreshPrefixes {
  import opened Text
  import opened Xml
  import opened Serializer
  import opened Meaning
  import opened ControlCharacters
  import opened Stream
  import opened XmppSerializer

  /** Every prefix that is configured at some time of a run. */
  function Configured(c: Config, ops: seq<Op>): set<string>
    decreases ops
  {
    c.table.Values + (if ops == [] then {} else Configured(After(c, ops[0]), ops[1..]))
  }

  /** Tag i of `ms` declares the prefix for a namespace. */
  ghost predicate Declares(ms: seq<Markup>, i: int, ns: string, prefix: string) {
    0 <= i < |ms| && ms[i].StartTag? && ns in ms[i].decls && ms[i].decls[ns] == prefix
  }

  /** The prefix with some number from lo to hi. */
  ghost predicate Between(prefix: string, lo: nat, hi: nat) {
    exists id: nat :: lo <= id < hi && prefix == FreshName(id)
  }

  lemma BetweenOnce(prefix: string, lo: nat, mid: nat, hi: nat)
    requires Between(prefix, lo, mid)
    ensures !Between(prefix, mid, hi)
  {
    var i: nat :| lo <= i < mid && prefix == FreshName(i);
    if j: nat :| mid <= j < hi && prefix == FreshName(j) {
      FreshNameInjective(i, j);
    }
  }

  /** Declared prefixes that are not configured have numbers from lo to hi, and occur once. */
  ghost predicate MapNumbered(decls: map<string, string>, lo: nat, hi: nat, configured: set<string>) {
    && lo <= hi
    && (forall n :: n in decls && decls[n] !in configured + {""} ==> Between(decls[n], lo, hi))
    && forall m, n :: m in decls && n in decls && decls[m] == decls[n] && decls[n] !in configured + {""} ==> m == n
  }

  ghost predicate Numbered(ms: seq<Markup>, lo: nat, hi: nat, configured: set<string>) {
    && lo <= hi
    && (forall i, n, p :: Declares(ms, i, n, p) && p !in configured + {""} ==> Between(p, lo, hi))
    && forall i, j, m, n, p :: Declares(ms, i, m, p) && Declares(ms, j, n, p) && p !in configured + {""} ==>
         i == j && m == n
  }

  lemma NumberedConcat(a: seq<Markup>, b: seq<Markup>, lo: nat, mid: nat, hi: nat, configured: set<string>)
    requires Numbered(a, lo, mid, configured) && Numbered(b, mid, hi, configured)
    ensures Numbered(a + b, lo, hi, configured)
  {
    var ms := a + b;
    forall i, n, p | Declares(ms, i, n, p) && p !in configured + {""}
      ensures if i < |a| then Declares(a, i, n, p) && Between(p, lo, mid)
              else Declares(b, i - |a|, n, p) && Between(p, mid, hi)
      ensures Between(p, lo, hi)
    {
      assert if i < |a| then Declares(a, i, n, p) else Declares(b, i - |a|, n, p);
    }
    forall i, j, m, n, p | Declares(ms, i, m, p) && Declares(ms, j, n, p) && p !in configured + {""}
      ensures i == j && m == n
    {
      if Between(p, lo, mid) { BetweenOnce(p, lo, mid, hi); }
    }
  }

  lemma NoTags(ms: seq<Markup>, id: nat, configured: set<string>)
    requires forall m <- ms :: !m.StartTag?
    ensures Numbered(ms, id, id, configured)
  {
    assert forall i, n, p :: Declares(ms, i, n, p) ==> ms[i] in ms;
  }

  lemma OneTag(tag: Markup, lo: nat, hi: nat, configured: set<string>)
    requires tag.StartTag? && MapNumbered(tag.decls, lo, hi, configured)
    ensures Numbered([tag], lo, hi, configured)
  {
  }

  // ---- What the printer writes

  lemma PrefixedNumbers(c: Config, name: string, isElement: bool, st: Names, lo: nat, configured: set<string>)
    requires c.table.Values <= configured && MapNumbered(st.declarations, lo, st.nextId, configured)
    ensures var st1 := Prefixed(c, name, isElement, st).1; MapNumbered(st1.declarations, lo, st1.nextId, configured)
  {
    match SplitQName(name, isElement, c.stanzaNs)
    case Split(Some(ns), local) =>
      if ns !in st.declared {
        if ns in c.table {
          assert c.table[ns] in c.table.Values;
        } else if !isElement {
          FreshNumbers(c, st, ns, lo, configured);
        }
      }
    case _ =>
  }

  lemma FreshNumbers(c: Config, st: Names, ns: string, lo: nat, configured: set<string>)
    requires MapNumbered(st.declarations, lo, st.nextId, configured)
    ensures var id := FreshId(UsedPrefixes(c, st.declared), st.nextId);
      id >= st.nextId && MapNumbered(Declare(st, ns, FreshName(id)).declarations, lo, id + 1, configured)
  {
    var id := FreshId(UsedPrefixes(c, st.declared), st.nextId);
    FreshIdIsFirstUnused(UsedPrefixes(c, st.declared), st.nextId);
    var p, before := FreshName(id), st.declarations;
    assert Between(p, st.nextId, id + 1);
    forall n | n in before && before[n] !in configured + {""} ensures Between(before[n], lo, id + 1) && before[n] != p {
      assert Between(before[n], lo, st.nextId);
      BetweenOnce(before[n], lo, st.nextId, id + 1);
    }
    assert Between(p, lo, id + 1);
  }

  lemma {:induction false} AttrsNumbered(c: Config, attrs: seq<Attr>, st: Names, lo: nat, configured: set<string>)
    requires c.table.Values <= configured && MapNumbered(st.declarations, lo, st.nextId, configured)
    ensures var st1 := PrefixedAttrs(c, attrs, st).1; MapNumbered(st1.declarations, lo, st1.nextId, configured)
  {
    if attrs != [] {
      AttrsNumbered(c, attrs[..|attrs| - 1], st, lo, configured);
      var before, st1 := PrefixedAttrs(c, attrs[..|attrs| - 1], st).0, PrefixedAttrs(c, attrs[..|attrs| - 1], st).1;
      if before.Some? {
        PrefixedNumbers(c, attrs[|attrs| - 1].name, false, st1, lo, configured);
      }
    }
  }

  lemma TagNumbered(c: Config, e: Element, declared: map<string, string>, nextId: nat, configured: set<string>)
    requires c.table.Values <= configured
    ensures var st := PrintTag(c, e, declared, nextId).1; MapNumbered(st.declarations, nextId, st.nextId, configured)
  {
    var st0 := Names(declared, map[], nextId);
    PrefixedNumbers(c, e.tag, true, st0, nextId, configured);
    AttrsNumbered(c, e.attrs, Prefixed(c, e.tag, true, st0).1, nextId, configured);
  }

  lemma AssembledNumbers(e: Element, level: nat, name: string, attrs: seq<Attr>, decls: map<string, string>,
                         inner: seq<Markup>, lo: nat, mid: nat, hi: nat, configured: set<string>)
    requires MapNumbered(decls, lo, mid, configured) && Numbered(inner, mid, hi, configured)
    requires e.children == [] ==> inner == []
    ensures Numbered(Assemble(e, level, name, attrs, decls, inner), lo, hi, configured)
  {
    var text := Chars(if level > 0 then e.text else "");
    var tail := Chars(if level > 1 then e.tail else "");
    var selfClosing := e.children == [] && e.text == "";
    var tag := StartTag(name, attrs, decls, selfClosing);
    OneTag(tag, lo, mid, configured);
    if selfClosing {
      NoTags(tail, mid, configured);
      NumberedConcat([tag], tail, lo, mid, mid, configured);
      NumberedConcat([tag] + tail, inner, lo, mid, hi, configured);
      assert [tag] + tail + inner == [tag] + tail;
    } else {
      NoTags(text, mid, configured);
      NoTags([EndTag(name)] + tail, hi, configured);
      NumberedConcat([tag], text, lo, mid, mid, configured);
      NumberedConcat([tag] + text, inner, lo, mid, hi, configured);
      NumberedConcat([tag] + text + inner, [EndTag(name)] + tail, lo, hi, hi, configured);
      assert [tag] + text + inner + [EndTag(name)] + tail == [tag] + text + inner + ([EndTag(name)] + tail);
    }
  }

  lemma {:induction false} EmitNumbered(c: Config, e: Element, level: nat, declared: map<string, string>, nextId: nat,
                                        configured: set<string>)
    requires c.table.Values <= configured
    ensures var em := Emit(c, e, level, declared, nextId);
      em.nextId >= nextId && (em.out.Some? ==> Numbered(em.out.value, nextId, em.nextId, configured))
    decreases e, 1
  {
    var (tag, st) := PrintTag(c, e, declared, nextId);
    TagNumbered(c, e, declared, nextId, configured);
    EmitGrows(c, e, level, declared, nextId);
    if tag.Some? {
      var kept := Evict(st.declared, st.declarations);
      EmitAllNumbered(c, e.children, level + 1, kept, st.nextId, configured);
      var inner := EmitAll(c, e.children, level + 1, kept, st.nextId);
      if inner.out.Some? {
        AssembledNumbers(e, level, tag.value.0, tag.value.1, st.declarations, inner.out.value,
                         nextId, st.nextId, inner.nextId, configured);
      }
    }
  }

  lemma {:induction false} EmitAllNumbered(c: Config, es: seq<Element>, level: nat, declared: map<string, string>,
                                           nextId: nat, configured: set<string>)
    requires c.table.Values <= configured
    ensures var em := EmitAll(c, es, level, declared, nextId);
      && em.nextId >= nextId && (es == [] ==> em.out == Some([]))
      && (em.out.Some? ==> Numbered(em.out.value, nextId, em.nextId, configured))
    decreases es, 0
  {
    if es == [] {
      NoTags([], nextId, configured);
    } else {
      EmitNumbered(c, es[0], level, declared, nextId, configured);
      var first := Emit(c, es[0], level, declared, nextId);
      if first.out.Some? {
        EmitAllNumbered(c, es[1..], level, declared, first.nextId, configured);
        var rest := EmitAll(c, es[1..], level, declared, first.nextId);
        if rest.out.Some? {
          NumberedConcat(first.out.value, rest.out.value, nextId, first.nextId, rest.nextId, configured);
        }
      }
    }
  }

  // ---- Whole runs

  /** The counter at the end of a run. */
  function LastId(c: Config, nextId: nat, ops: seq<Op>): nat
    decreases ops
  {
    if ops == [] then nextId
    else
      var next := if ops[0].Send? then StanzaEmission(c, ops[0].element, nextId).nextId else nextId;
      LastId(After(c, ops[0]), next, ops[1..])
  }

  lemma {:induction false} RunNumbered(c: Config, nextId: nat, ops: seq<Op>, configured: set<string>)
    requires Configured(c, ops) <= configured
    ensures Numbered(Write(c, nextId, ops), nextId, LastId(c, nextId, ops), configured)
    decreases ops
  {
    if ops == [] {
      NoTags([], nextId, configured);
    } else {
      var c1, rest := After(c, ops[0]), ops[1..];
      match ops[0] {
        case Send(e) =>
          var em := StanzaEmission(c, e, nextId);
          EmitClean(c, e, 1, RootPrefixes(c.stanzaNs), nextId);
          EmitNumbered(c, CleanElement(e), 1, RootPrefixes(c.stanzaNs), nextId, configured);
          RunNumbered(c1, em.nextId, rest, configured);
          SkippedNumbers(nextId, em.nextId, configured);
          NumberedConcat(if em.out.Some? then em.out.value else [], Write(c1, em.nextId, rest),
                         nextId, em.nextId, LastId(c, nextId, ops), configured);
        case Gap(text) =>
          RunNumbered(c1, nextId, rest, configured);
          NoTags(Chars(text), nextId, configured);
          NumberedConcat(Chars(text), Write(c1, nextId, rest), nextId, nextId, LastId(c, nextId, ops), configured);
        case AddPrefix(_, _) =>
          RunNumbered(c1, nextId, rest, configured);
      }
    }
  }

  lemma SkippedNumbers(lo: nat, hi: nat, configured: set<string>)
    requires lo <= hi
    ensures Numbered([], lo, hi, configured)
  {
  }

  /** In everything a serializer writes, a prefix that is neither empty nor ever configured is declared by
      one tag, for one namespace: none is made up twice. */
  lemma MadeUpOnce(c: Config, nextId: nat, ops: seq<Op>, i: int, j: int, m: string, n: string, prefix: string)
    requires prefix != "" && prefix !in Configured(c, ops)
    requires Declares(Write(c, nextId, ops), i, m, prefix) && Declares(Write(c, nextId, ops), j, n, prefix)
    ensures i == j && m == n
  {
    RunNumbered(c, nextId, ops, Configured(c, ops));
  }
}
