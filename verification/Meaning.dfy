/** What a namespace-aware receiver sees of a printed element, and exactly when that is the element
    that was sent. */
module Meaning {
  import opened Text
  import opened Xml
  import opened Serializer
  import opened ClarkNames

  // ---- Input conditions

  predicate StanzaNsOk(stanzaNs: string) {
    stanzaNs !in {"", XML_NS, XMLNS_NS, STREAM_NS}
  }

  /** Namespaces that a name can be in and that may be looked up in the prefix table. The two that the
      root binds to a prefix never are: they are always in scope. */
  predicate LookedUp(n: string, stanzaNs: string) {
    && n !in {"", XML_NS, XMLNS_NS, STREAM_NS}
    && (n == stanzaNs || (n !in STANZA_NAMESPACES && '}' !in n))
  }

  /** A prefix table that can be used, as PrefixTables shows; add_prefix and the constructor check none of
      this. */
  ghost predicate TableOk(c: Config) {
    && (forall n :: n in c.table && LookedUp(n, c.stanzaNs) ==>
          c.table[n] !in {"", "xml", "xmlns", "stream"} && ':' !in c.table[n])
    && forall m, n :: m in c.table && n in c.table && LookedUp(m, c.stanzaNs) && LookedUp(n, c.stanzaNs) ==>
         c.table[m] == c.table[n] ==> m == n
  }

  ghost predicate ConfigOk(c: Config) {
    StanzaNsOk(c.stanzaNs) && TableOk(c)
  }

  /** A name XML can carry: a non-empty local part without a colon, in a proper namespace or, for an
      attribute, in none. */
  predicate LegalName(name: string, isElement: bool, stanzaNs: string) {
    match SplitQName(name, isElement, stanzaNs)
    case BadName => false
    case Split(ns, local) =>
      && local != "" && ':' !in local && (!isElement ==> local != "xmlns")
      && (ns.Some? ==> ns.value != "" && ns.value != XMLNS_NS)
  }

  predicate XmlTree(e: Element, stanzaNs: string)
    decreases e, 1
  {
    && LegalName(e.tag, true, stanzaNs)
    && (forall a <- e.attrs :: LegalName(a.name, false, stanzaNs))
    && XmlTrees(e.children, stanzaNs)
  }

  predicate XmlTrees(es: seq<Element>, stanzaNs: string)
    decreases es, 0
  {
    es == [] || (XmlTree(es[0], stanzaNs) && XmlTrees(es[1..], stanzaNs))
  }

  // ---- What the receiver sees

  function NsOf(name: string, isElement: bool, stanzaNs: string): set<string> {
    match SplitQName(name, isElement, stanzaNs)
    case Split(Some(ns), _) => {ns}
    case _ => {}
  }

  function AttrNamespaces(attrs: seq<Attr>, stanzaNs: string): set<string> {
    if attrs == [] then {} else
      AttrNamespaces(attrs[..|attrs| - 1], stanzaNs) + NsOf(attrs[|attrs| - 1].name, false, stanzaNs)
  }

  /** An expanded name after folding; a namespace in `bare` gets lost. */
  function SeenName(name: string, isElement: bool, bare: set<string>, stanzaNs: string): string {
    match SplitQName(name, isElement, stanzaNs)
    case Split(Some(ns), local) => if ns in bare then local else Clark(ns, local)
    case Split(None, local) => local
    case BadName => name
  }

  function SeenAttrs(attrs: seq<Attr>, bare: set<string>, stanzaNs: string): seq<Attr> {
    if attrs == [] then [] else
      var last := attrs[|attrs| - 1];
      SeenAttrs(attrs[..|attrs| - 1], bare, stanzaNs) + [Attr(SeenName(last.name, false, bare, stanzaNs), last.value)]
  }

  lemma {:induction false} SeenAttrAt(attrs: seq<Attr>, bare: set<string>, stanzaNs: string, i: nat)
    requires i <= |attrs|
    ensures |SeenAttrs(attrs, bare, stanzaNs)| == |attrs|
    ensures i < |attrs| ==>
      SeenAttrs(attrs, bare, stanzaNs)[i] == Attr(SeenName(attrs[i].name, false, bare, stanzaNs), attrs[i].value)
  {
    if attrs != [] {
      SeenAttrAt(attrs[..|attrs| - 1], bare, stanzaNs, if i < |attrs| then i else 0);
    }
  }

  lemma SeenAttrsAt(attrs: seq<Attr>, bare: set<string>, stanzaNs: string)
    ensures |SeenAttrs(attrs, bare, stanzaNs)| == |attrs|
    ensures forall i :: 0 <= i < |attrs| ==>
      SeenAttrs(attrs, bare, stanzaNs)[i] == Attr(SeenName(attrs[i].name, false, bare, stanzaNs), attrs[i].value)
  {
    SeenAttrAt(attrs, bare, stanzaNs, |attrs|);
    forall i | 0 <= i < |attrs|
      ensures SeenAttrs(attrs, bare, stanzaNs)[i]
           == Attr(SeenName(attrs[i].name, false, bare, stanzaNs), attrs[i].value)
    {
      SeenAttrAt(attrs, bare, stanzaNs, i);
    }
  }

  /** The namespaces in scope, without their prefixes: the default one and those with a prefix. */
  datatype Visible = Visible(dflt: string, prefixed: set<string>)

  const ROOT_VISIBLE: set<string> := {STREAM_NS, XML_NS}

  /** An element in a namespace with neither a prefix nor the default changes the default. */
  function DefaultInside(c: Config, e: Element, v: Visible): string {
    match SplitQName(e.tag, true, c.stanzaNs)
    case Split(Some(ns), _) =>
      if ns != v.dflt && (ns in v.prefixed || ns in c.table) then v.dflt else ns
    case _ => v.dflt
  }

  /** The namespaces printed without a prefix inside the start tag of `e`. */
  function Bare(c: Config, e: Element, v: Visible): set<string> {
    {v.dflt, DefaultInside(c, e, v)}
  }

  function VisibleInside(c: Config, e: Element, v: Visible): Visible {
    Visible(DefaultInside(c, e, v),
            v.prefixed + ((NsOf(e.tag, true, c.stanzaNs) + AttrNamespaces(e.attrs, c.stanzaNs)) - Bare(c, e, v)))
  }

  function Seen(c: Config, e: Element, level: nat, v: Visible): Element
    decreases e, 1
  {
    Element(SeenName(e.tag, true, {}, c.stanzaNs),
            SeenAttrs(e.attrs, Bare(c, e, v), c.stanzaNs),
            if level > 0 then e.text else "",
            SeenAll(c, e.children, level + 1, VisibleInside(c, e, v)),
            if level > 1 then e.tail else "")
  }

  function SeenAll(c: Config, es: seq<Element>, level: nat, v: Visible): (r: seq<Element>)
    ensures |r| == |es|
    decreases es, 0
  {
    if es == [] then [] else [Seen(c, es[0], level, v)] + SeenAll(c, es[1..], level, v)
  }

  /** What a caller can check before sending: no qualified attribute is in a namespace that is, or
      becomes, the default at its element, and folding does not make two attributes one. */
  ghost predicate Printable(c: Config, e: Element, v: Visible)
    decreases e, 1
  {
    && AttrNamespaces(e.attrs, c.stanzaNs) !! Bare(c, e, v)
    && Distinct(SeenAttrs(e.attrs, {}, c.stanzaNs))
    && AllPrintable(c, e.children, VisibleInside(c, e, v))
  }

  ghost predicate AllPrintable(c: Config, es: seq<Element>, v: Visible)
    decreases es, 0
  {
    es == [] || (Printable(c, es[0], v) && AllPrintable(c, es[1..], v))
  }

  // ---- Fresh prefixes

  lemma FreshNameInjective(i: nat, j: nat)
    requires FreshName(i) == FreshName(j)
    ensures i == j
  {
    assert FreshName(i)[2..] == Decimal(i) && FreshName(j)[2..] == Decimal(j);
    NumberOfDecimal(i);
    NumberOfDecimal(j);
  }

  /** The search ends (FreshId is total) at the first unused number. */
  lemma {:induction false} FreshIdIsFirstUnused(used: set<string>, id: nat)
    ensures var r := FreshId(used, id);
      && r >= id && FreshName(r) !in used
      && forall k: nat :: id <= k < r ==> FreshName(k) in used
    decreases |used|
  {
    if FreshName(id) in used {
      var less := used - {FreshName(id)};
      assert |less| < |used|;
      FreshIdIsFirstUnused(less, id + 1);
      var r := FreshId(less, id + 1);
      if FreshName(r) == FreshName(id) {
        FreshNameInjective(r, id);
      }
    }
  }

  lemma FreshNameIsPlain(id: nat)
    ensures ':' !in FreshName(id) && FreshName(id) !in {"", "xml", "xmlns"}
  {
    var s := FreshName(id);
    assert s[0] == 'n';
    assert forall ch <- Decimal(id) :: IsDigit(ch);
  }

  // ---- Scopes

  /** Table prefixes stay free for their own namespaces. */
  ghost predicate Separated(declared: map<string, string>, c: Config) {
    forall n, m :: n in declared && m in c.table && LookedUp(m, c.stanzaNs) && declared[n] == c.table[m] ==> n == m
  }

  /** What the root binds is in scope everywhere. */
  ghost predicate HasRoot(declared: map<string, string>) {
    && XML_NS in declared && declared[XML_NS] == "xml"
    && STREAM_NS in declared && declared[STREAM_NS] == "stream"
  }

  /** Scope exactness: every entry of the map handed to an element resolves to its own namespace, so
      no two entries share a prefix, and exactly one is the default. */
  ghost predicate Exact(c: Config, declared: map<string, string>, scope: Scope, v: Visible) {
    && declared.Keys == v.prefixed + {v.dflt} && v.dflt !in v.prefixed && declared[v.dflt] == ""
    && (forall n :: n in v.prefixed ==> declared[n] !in {"", "xmlns"} && ':' !in declared[n])
    && (forall n :: n in declared ==> n != "" && declared[n] in scope && scope[declared[n]] == n)
    && HasRoot(declared)
    && Separated(declared, c)
  }

  /** The map is the inherited one plus the tag's own declarations. */
  ghost predicate Layered(base: map<string, string>, st: Names) {
    && st.declared.Keys == base.Keys + st.declarations.Keys && base.Keys !! st.declarations.Keys
    && (forall n :: n in base ==> st.declared[n] == base[n])
    && (forall n :: n in st.declarations ==> st.declared[n] == st.declarations[n])
  }

  ghost predicate Declarable(declarations: map<string, string>) {
    forall n :: n in declarations ==>
      && n !in {"", XML_NS, XMLNS_NS}
      && declarations[n] !in {"xml", "xmlns"} && ':' !in declarations[n]
  }

  ghost predicate Injective(m: map<string, string>) {
    forall x, y :: x in m && y in m && x != y ==> m[x] != m[y]
  }

  ghost predicate InjectiveButDefault(m: map<string, string>) {
    forall x, y :: x in m && y in m && x != y ==> m[x] != m[y] || m[x] == ""
  }

  /** What holds of the dictionaries in the middle of a start tag, over the inherited map `base`. */
  ghost predicate Midway(c: Config, base: map<string, string>, st: Names) {
    && Layered(base, st)
    && Declarable(st.declarations) && Injective(st.declarations)
    && InjectiveButDefault(st.declared)
    && Separated(st.declared, c)
  }

  /** The printed form of a name under a map with its namespace declared. */
  function RawName(name: string, isElement: bool, declared: map<string, string>, stanzaNs: string): string {
    match SplitQName(name, isElement, stanzaNs)
    case Split(Some(ns), local) => Qualify(if ns in declared then declared[ns] else "", local)
    case Split(None, local) => local
    case BadName => name
  }

  /** `b` extends `a` by entries with a prefix. */
  ghost predicate Extends(a: map<string, string>, b: map<string, string>) {
    && (forall n :: n in a ==> n in b && b[n] == a[n])
    && forall n :: n in b && n !in a ==> b[n] != ""
  }

  lemma StartMidway(c: Config, base: map<string, string>, scope: Scope, v: Visible, nextId: nat)
    requires ConfigOk(c) && Exact(c, base, scope, v)
    ensures Midway(c, base, Names(base, map[], nextId))
  {
  }

  lemma DeclareKeepsMidway(c: Config, base: map<string, string>, st: Names, ns: string, prefix: string)
    requires Midway(c, base, st) && HasRoot(base)
    requires ns !in st.declared && ns !in {"", XMLNS_NS}
    requires prefix !in {"xml", "xmlns"} && ':' !in prefix
    requires forall m :: m in c.table && LookedUp(m, c.stanzaNs) && c.table[m] == prefix ==> m == ns
    requires prefix == "" ==> st.declarations == map[]
    requires prefix != "" ==> forall n :: n in st.declared ==> st.declared[n] != prefix
    ensures Midway(c, base, Declare(st, ns, prefix))
  {
    DeclareKeepsLayered(base, st, ns, prefix);
    assert forall n :: n in st.declarations ==> n in st.declared && st.declared[n] == st.declarations[n];
    DeclareKeepsInjective(st, ns, prefix);
    assert Separated(Declare(st, ns, prefix).declared, c);
  }

  lemma DeclareKeepsLayered(base: map<string, string>, st: Names, ns: string, prefix: string)
    requires Layered(base, st) && Declarable(st.declarations) && HasRoot(base)
    requires ns !in st.declared && ns !in {"", XMLNS_NS} && prefix !in {"xml", "xmlns"} && ':' !in prefix
    ensures Layered(base, Declare(st, ns, prefix)) && Declarable(Declare(st, ns, prefix).declarations)
  {
  }

  lemma DeclareKeepsInjective(st: Names, ns: string, prefix: string)
    requires Injective(st.declarations) && InjectiveButDefault(st.declared) && ns !in st.declared
    requires forall n :: n in st.declarations ==> n in st.declared && st.declared[n] == st.declarations[n]
    requires prefix == "" ==> st.declarations == map[]
    requires prefix != "" ==> forall n :: n in st.declared ==> st.declared[n] != prefix
    ensures Injective(Declare(st, ns, prefix).declarations) && InjectiveButDefault(Declare(st, ns, prefix).declared)
  {
  }

  /** What printing one name does to the dictionaries. */
  ghost predicate Step(c: Config, name: string, isElement: bool, st: Names, printed: Option<string>, st1: Names) {
    && st1.nextId >= st.nextId
    && st1.declared.Keys == st.declared.Keys + NsOf(name, isElement, c.stanzaNs)
    && (forall n :: n in st.declared ==> st1.declared[n] == st.declared[n])
    && (!isElement ==> Extends(st.declared, st1.declared))
    && printed == Some(RawName(name, isElement, st1.declared, c.stanzaNs))
  }

  /** A namespace that is not in scope is one that may be looked up. */
  lemma SplitLooksUp(name: string, isElement: bool, st: Names, stanzaNs: string)
    requires LegalName(name, isElement, stanzaNs) && StanzaNsOk(stanzaNs) && HasRoot(st.declared)
    ensures forall n <- NsOf(name, isElement, stanzaNs) :: n in st.declared || LookedUp(n, stanzaNs)
  {
  }

  lemma PrefixedMakesStep(c: Config, name: string, isElement: bool, st: Names)
    requires ConfigOk(c) && LegalName(name, isElement, c.stanzaNs) && HasRoot(st.declared)
    ensures var (printed, st1) := Prefixed(c, name, isElement, st);
      Step(c, name, isElement, st, printed, st1)
  {
    SplitLooksUp(name, isElement, st, c.stanzaNs);
    FreshIdIsFirstUnused(UsedPrefixes(c, st.declared), st.nextId);
    FreshNameIsPlain(FreshId(UsedPrefixes(c, st.declared), st.nextId));
  }

  lemma PrefixedKeepsMidway(c: Config, base: map<string, string>, name: string, isElement: bool, st: Names)
    requires ConfigOk(c) && LegalName(name, isElement, c.stanzaNs) && Midway(c, base, st)
    requires HasRoot(base) && (isElement ==> st.declarations == map[])
    ensures Midway(c, base, Prefixed(c, name, isElement, st).1)
  {
    SplitLooksUp(name, isElement, st, c.stanzaNs);
    match SplitQName(name, isElement, c.stanzaNs)
    case Split(Some(ns), local) =>
      if ns in st.declared {
      } else if ns in c.table {
        DeclareKeepsMidway(c, base, st, ns, c.table[ns]);
      } else if isElement {
        DeclareKeepsMidway(c, base, st, ns, "");
      } else {
        FreshPrefixIsFree(c, st);
        var id := FreshId(UsedPrefixes(c, st.declared), st.nextId);
        FreshNameIsPlain(id);
        DeclareKeepsMidway(c, base, st, ns, FreshName(id));
      }
    case _ =>
  }

  /** A made-up prefix is neither in scope nor configured. */
  lemma FreshPrefixIsFree(c: Config, st: Names)
    ensures var p := FreshName(FreshId(UsedPrefixes(c, st.declared), st.nextId));
      && (forall n :: n in st.declared ==> st.declared[n] != p)
      && forall m :: m in c.table ==> c.table[m] != p
  {
    FreshIdIsFirstUnused(UsedPrefixes(c, st.declared), st.nextId);
    assert forall n :: n in st.declared ==> st.declared[n] in st.declared.Values;
    assert forall m :: m in c.table ==> c.table[m] in c.table.Values;
  }

  /** Attributes have been printed: all of them as the map after them says. */
  ghost predicate AttrsDone(c: Config, base: map<string, string>, attrs: seq<Attr>, st: Names,
                            printed: Option<seq<Attr>>, st1: Names)
  {
    Midway(c, base, st1) && AttrsStep(c, attrs, st, printed, st1)
  }

  ghost predicate AttrsStep(c: Config, attrs: seq<Attr>, st: Names, printed: Option<seq<Attr>>, st1: Names) {
    && st1.nextId >= st.nextId
    && Extends(st.declared, st1.declared)
    && st1.declared.Keys == st.declared.Keys + AttrNamespaces(attrs, c.stanzaNs)
    && printed == Some(RawAttrs(attrs, st1.declared, c.stanzaNs))
  }

  lemma AttrsSnoc(before: seq<Attr>, last: Attr, declared: map<string, string>, stanzaNs: string)
    ensures AttrNamespaces(before + [last], stanzaNs)
         == AttrNamespaces(before, stanzaNs) + NsOf(last.name, false, stanzaNs)
    ensures RawAttrs(before + [last], declared, stanzaNs)
         == RawAttrs(before, declared, stanzaNs) + [Attr(RawName(last.name, false, declared, stanzaNs), last.value)]
  {
    assert (before + [last])[..|before|] == before;
  }

  lemma OneMoreAttr(c: Config, before: seq<Attr>, last: Attr, st: Names, st1: Names, raw: seq<Attr>, st2: Names)
    requires AttrsStep(c, before, st, Some(raw), st1)
    requires Step(c, last.name, false, st1, Some(RawName(last.name, false, st2.declared, c.stanzaNs)), st2)
    ensures AttrsStep(c, before + [last], st,
                      Some(raw + [Attr(RawName(last.name, false, st2.declared, c.stanzaNs), last.value)]), st2)
  {
    RawAttrsStable(before, st1.declared, st2.declared, c.stanzaNs);
    AttrsSnoc(before, last, st2.declared, c.stanzaNs);
  }

  lemma PrefixedSnoc(c: Config, before: seq<Attr>, last: Attr, st: Names, raw: seq<Attr>, st1: Names, name: string,
                     st2: Names)
    requires PrefixedAttrs(c, before, st) == (Some(raw), st1)
    requires Prefixed(c, last.name, false, st1) == (Some(name), st2)
    ensures PrefixedAttrs(c, before + [last], st) == (Some(raw + [Attr(name, last.value)]), st2)
  {
    assert (before + [last])[..|before|] == before;
  }

  /** The attribute loop: attribute i is printed by the final map. */
  lemma {:induction false} AttrsPrinted(c: Config, base: map<string, string>, attrs: seq<Attr>, st: Names)
    requires ConfigOk(c) && Midway(c, base, st) && HasRoot(base)
    requires forall a <- attrs :: LegalName(a.name, false, c.stanzaNs)
    ensures var (printed, st1) := PrefixedAttrs(c, attrs, st); AttrsDone(c, base, attrs, st, printed, st1)
  {
    if attrs != [] {
      AttrsPrinted(c, base, attrs[..|attrs| - 1], st);
      LastAttrPrinted(c, base, attrs, st);
    }
  }

  lemma LastAttrPrinted(c: Config, base: map<string, string>, attrs: seq<Attr>, st: Names)
    requires ConfigOk(c) && HasRoot(base) && attrs != [] && LegalName(attrs[|attrs| - 1].name, false, c.stanzaNs)
    requires var before := attrs[..|attrs| - 1];
      AttrsDone(c, base, before, st, PrefixedAttrs(c, before, st).0, PrefixedAttrs(c, before, st).1)
    ensures AttrsDone(c, base, attrs, st, PrefixedAttrs(c, attrs, st).0, PrefixedAttrs(c, attrs, st).1)
  {
    assert attrs == attrs[..|attrs| - 1] + [attrs[|attrs| - 1]];
    NextAttrPrinted(c, base, attrs[..|attrs| - 1], attrs[|attrs| - 1], st);
  }

  lemma NextAttrPrinted(c: Config, base: map<string, string>, before: seq<Attr>, last: Attr, st: Names)
    requires ConfigOk(c) && HasRoot(base) && LegalName(last.name, false, c.stanzaNs)
    requires var (printed, st1) := PrefixedAttrs(c, before, st); AttrsDone(c, base, before, st, printed, st1)
    ensures var (printed, st2) := PrefixedAttrs(c, before + [last], st);
      AttrsDone(c, base, before + [last], st, printed, st2)
  {
    var (raw, st1) := PrefixedAttrs(c, before, st);
    var (name, st2) := Prefixed(c, last.name, false, st1);
    PrefixedMakesStep(c, last.name, false, st1);
    PrefixedKeepsMidway(c, base, last.name, false, st1);
    OneMoreAttr(c, before, last, st, st1, raw.value, st2);
    PrefixedSnoc(c, before, last, st, raw.value, st1, name.value, st2);
  }

  function RawAttrs(attrs: seq<Attr>, declared: map<string, string>, stanzaNs: string): seq<Attr> {
    if attrs == [] then [] else
      var last := attrs[|attrs| - 1];
      RawAttrs(attrs[..|attrs| - 1], declared, stanzaNs)
      + [Attr(RawName(last.name, false, declared, stanzaNs), last.value)]
  }

  lemma {:induction false} RawAttrsStable(attrs: seq<Attr>, a: map<string, string>, b: map<string, string>,
                                          stanzaNs: string)
    requires AttrNamespaces(attrs, stanzaNs) <= a.Keys && forall n :: n in a ==> n in b && b[n] == a[n]
    ensures AttrNamespaces(attrs, stanzaNs) <= b.Keys
    ensures RawAttrs(attrs, a, stanzaNs) == RawAttrs(attrs, b, stanzaNs)
  {
    if attrs != [] {
      RawAttrsStable(attrs[..|attrs| - 1], a, b, stanzaNs);
    }
  }

  // ---- Reading the start tag back

  ghost predicate Resolves(declared: map<string, string>, scope: Scope) {
    forall n :: n in declared && declared[n] != "" ==>
      ':' !in declared[n] && declared[n] in scope && scope[declared[n]] == n
  }

  lemma ExpandQualified(prefix: string, local: string, isElement: bool, scope: Scope)
    requires prefix != "" && ':' !in prefix && local != "" && ':' !in local && prefix in scope
    ensures Expand(Qualify(prefix, local), isElement, scope) == Some(Clark(scope[prefix], local))
  {
    var name := Qualify(prefix, local);
    assert name == prefix + [':'] + local;
    FindSkips(prefix, ':', local);
    assert name[..|prefix|] == prefix && name[|prefix| + 1..] == local;
  }

  lemma ExpandAttr(name: string, declared: map<string, string>, bare: set<string>, scope: Scope, stanzaNs: string)
    requires LegalName(name, false, stanzaNs) && NsOf(name, false, stanzaNs) <= declared.Keys
    requires Resolves(declared, scope) && forall n :: n in declared ==> (declared[n] == "" <==> n in bare)
    ensures Expand(RawName(name, false, declared, stanzaNs), false, scope)
         == Some(SeenName(name, false, bare, stanzaNs))
  {
    match SplitQName(name, false, stanzaNs)
    case Split(ns, local) =>
      FindAbsent(local, ':');
      if ns.Some? && declared[ns.value] != "" {
        ExpandQualified(declared[ns.value], local, false, scope);
      }
    case _ =>
  }

  lemma {:induction false} AttrsExpand(attrs: seq<Attr>, declared: map<string, string>, bare: set<string>,
                                       scope: Scope, stanzaNs: string)
    requires forall a <- attrs :: LegalName(a.name, false, stanzaNs)
    requires AttrNamespaces(attrs, stanzaNs) <= declared.Keys
    requires Resolves(declared, scope) && forall n :: n in declared ==> (declared[n] == "" <==> n in bare)
    ensures ExpandAttrs(RawAttrs(attrs, declared, stanzaNs), scope) == Some(SeenAttrs(attrs, bare, stanzaNs))
  {
    if attrs != [] {
      var before, last := attrs[..|attrs| - 1], attrs[|attrs| - 1];
      AttrsExpand(before, declared, bare, scope, stanzaNs);
      ExpandAttr(last.name, declared, bare, scope, stanzaNs);
      var rawLast := Attr(RawName(last.name, false, declared, stanzaNs), last.value);
      var seenLast := Attr(SeenName(last.name, false, bare, stanzaNs), last.value);
      ExpandMore(RawAttrs(before, declared, stanzaNs), rawLast, SeenAttrs(before, bare, stanzaNs), seenLast, scope);
    }
  }

  lemma ExpandMore(raw: seq<Attr>, rawLast: Attr, seen: seq<Attr>, seenLast: Attr, scope: Scope)
    requires ExpandAttrs(raw, scope) == Some(seen)
    requires Expand(rawLast.name, false, scope) == Some(seenLast.name) && rawLast.value == seenLast.value
    ensures ExpandAttrs(raw + [rawLast], scope) == Some(seen + [seenLast])
  {
    ExpandSnoc(raw, rawLast, scope);
  }

  lemma ExpandSnoc(attrs: seq<Attr>, a: Attr, scope: Scope)
    ensures ExpandAttrs(attrs + [a], scope)
      == match (ExpandAttrs(attrs, scope), Expand(a.name, false, scope))
         case (Some(before), Some(name)) => Some(before + [Attr(name, a.value)])
         case _ => None
  {
    assert (attrs + [a])[..|attrs|] == attrs;
  }

  /** Declarations made over an exact map are legal, and in the scope they open every prefixed entry
      of the map resolves to its namespace. */
  lemma EnterResolves(c: Config, base: map<string, string>, scope: Scope, v: Visible, st: Names)
    requires Exact(c, base, scope, v) && Midway(c, base, st)
    ensures LegalDeclarations(st.declarations)
    ensures Resolves(st.declared, Enter(scope, st.declarations))
    ensures forall n :: n in st.declarations ==>
      st.declarations[n] in Enter(scope, st.declarations) && Enter(scope, st.declarations)[st.declarations[n]] == n
    ensures "" !in st.declarations.Values ==>
      "" in Enter(scope, st.declarations) && Enter(scope, st.declarations)[""] == v.dflt
  {
    var inner := Enter(scope, st.declarations);
    forall n | n in st.declarations
      ensures st.declarations[n] in inner && inner[st.declarations[n]] == n
    {
      assert st.declarations[n] in st.declarations.Values;
    }
    forall n | n in st.declared && st.declared[n] != ""
      ensures ':' !in st.declared[n] && st.declared[n] in inner && inner[st.declared[n]] == n
    {
      if n in base {
        assert n !in st.declarations;
        assert forall m :: m in st.declarations ==> m in st.declared && m != n;
      }
    }
    assert v.dflt in base;
  }

  /** The start tag of `e`: dictionaries after its names are printed. */
  function TagNames(c: Config, e: Element, declared: map<string, string>, nextId: nat): Names {
    PrintTag(c, e, declared, nextId).1
  }

  /** Inside a start tag the unprefixed namespaces are the inherited default and, if the element
      changes it, the new one. */
  lemma TagMidway(c: Config, e: Element, declared: map<string, string>, nextId: nat, scope: Scope, v: Visible)
    requires ConfigOk(c) && XmlTree(e, c.stanzaNs) && Exact(c, declared, scope, v)
    ensures var st := TagNames(c, e, declared, nextId);
      && Midway(c, declared, st) && st.nextId >= nextId
      && st.declared.Keys == declared.Keys + NsOf(e.tag, true, c.stanzaNs) + AttrNamespaces(e.attrs, c.stanzaNs)
      && (forall n :: n in st.declared ==> (st.declared[n] == "" <==> n in Bare(c, e, v)))
      && PrintTag(c, e, declared, nextId).0
           == Some((RawName(e.tag, true, st.declared, c.stanzaNs), RawAttrs(e.attrs, st.declared, c.stanzaNs)))
      && (DefaultInside(c, e, v) != v.dflt <==> "" in st.declarations.Values)
  {
    var st0 := Names(declared, map[], nextId);
    StartMidway(c, declared, scope, v, nextId);
    PrefixedMakesStep(c, e.tag, true, st0);
    PrefixedKeepsMidway(c, declared, e.tag, true, st0);
    var st1 := Prefixed(c, e.tag, true, st0).1;
    AttrsPrinted(c, declared, e.attrs, st1);
    TagDefault(c, e, declared, nextId, scope, v);
    var st := TagNames(c, e, declared, nextId);
    if DefaultInside(c, e, v) != v.dflt {
      assert DefaultInside(c, e, v) in st.declarations;
    }
  }

  /** Which names are unprefixed once the tag's own name is printed. */
  lemma TagDefault(c: Config, e: Element, declared: map<string, string>, nextId: nat, scope: Scope, v: Visible)
    requires ConfigOk(c) && XmlTree(e, c.stanzaNs) && Exact(c, declared, scope, v)
    ensures var st1 := Prefixed(c, e.tag, true, Names(declared, map[], nextId)).1;
      && (forall n :: n in st1.declared ==> (st1.declared[n] == "" <==> n in Bare(c, e, v)))
      && (DefaultInside(c, e, v) != v.dflt ==>
            && DefaultInside(c, e, v) in st1.declared && DefaultInside(c, e, v) !in declared
            && st1.declared[DefaultInside(c, e, v)] == "")
      && (DefaultInside(c, e, v) == v.dflt ==> "" !in st1.declarations.Values)
  {
  }

  /** Reading the start tag gives the seen name and attributes, and opens a scope for which the map
      handed to the children is exact. */
  lemma TagMeaning(c: Config, e: Element, declared: map<string, string>, nextId: nat, scope: Scope, v: Visible)
    requires ConfigOk(c) && XmlTree(e, c.stanzaNs) && Exact(c, declared, scope, v)
    ensures var st := TagNames(c, e, declared, nextId);
      var inner := Enter(scope, st.declarations);
      && LegalDeclarations(st.declarations)
      && NsOf(e.tag, true, c.stanzaNs) <= st.declared.Keys
      && AttrNamespaces(e.attrs, c.stanzaNs) <= st.declared.Keys
      && Expand(RawName(e.tag, true, st.declared, c.stanzaNs), true, inner)
           == Some(SeenName(e.tag, true, {}, c.stanzaNs))
      && ExpandAttrs(RawAttrs(e.attrs, st.declared, c.stanzaNs), inner)
           == Some(SeenAttrs(e.attrs, Bare(c, e, v), c.stanzaNs))
      && Exact(c, Evict(st.declared, st.declarations), inner, VisibleInside(c, e, v))
  {
    var st := TagNames(c, e, declared, nextId);
    var inner := Enter(scope, st.declarations);
    TagMidway(c, e, declared, nextId, scope, v);
    EnterResolves(c, declared, scope, v, st);
    AttrsExpand(e.attrs, st.declared, Bare(c, e, v), inner, c.stanzaNs);
    TagNameExpands(c, e, declared, nextId, scope, v);
    ChildrenExact(c, e, declared, nextId, scope, v);
  }

  lemma DefaultResolves(c: Config, e: Element, declared: map<string, string>, nextId: nat, scope: Scope, v: Visible)
    requires ConfigOk(c) && XmlTree(e, c.stanzaNs) && Exact(c, declared, scope, v)
    ensures var inner := Enter(scope, TagNames(c, e, declared, nextId).declarations);
      && "" in inner && inner[""] == DefaultInside(c, e, v)
      && DefaultInside(c, e, v) in TagNames(c, e, declared, nextId).declared
  {
    var st := TagNames(c, e, declared, nextId);
    TagMidway(c, e, declared, nextId, scope, v);
    EnterResolves(c, declared, scope, v, st);
    TagDefault(c, e, declared, nextId, scope, v);
    if "" in st.declarations.Values {
      var n :| n in st.declarations && st.declarations[n] == "";
      assert n in st.declared && n in Bare(c, e, v) && n !in declared;
    }
  }

  lemma TagNameExpands(c: Config, e: Element, declared: map<string, string>, nextId: nat, scope: Scope, v: Visible)
    requires ConfigOk(c) && XmlTree(e, c.stanzaNs) && Exact(c, declared, scope, v)
    ensures var st := TagNames(c, e, declared, nextId);
      && NsOf(e.tag, true, c.stanzaNs) <= st.declared.Keys
      && Expand(RawName(e.tag, true, st.declared, c.stanzaNs), true, Enter(scope, st.declarations))
           == Some(SeenName(e.tag, true, {}, c.stanzaNs))
  {
    var st := TagNames(c, e, declared, nextId);
    TagMidway(c, e, declared, nextId, scope, v);
    EnterResolves(c, declared, scope, v, st);
    DefaultResolves(c, e, declared, nextId, scope, v);
    match SplitQName(e.tag, true, c.stanzaNs)
    case Split(ns, local) =>
      FindAbsent(local, ':');
      if st.declared[ns.value] != "" {
        ExpandQualified(st.declared[ns.value], local, true, Enter(scope, st.declarations));
      }
    case _ =>
  }

  lemma OldDefaultGoes(c: Config, e: Element, declared: map<string, string>, nextId: nat, scope: Scope, v: Visible)
    requires ConfigOk(c) && XmlTree(e, c.stanzaNs) && Exact(c, declared, scope, v)
    requires DefaultInside(c, e, v) != v.dflt
    ensures Shadowed(v.dflt, "", TagNames(c, e, declared, nextId).declarations)
  {
    var st := TagNames(c, e, declared, nextId);
    TagMidway(c, e, declared, nextId, scope, v);
    TagDefault(c, e, declared, nextId, scope, v);
    DefaultResolves(c, e, declared, nextId, scope, v);
    var d := DefaultInside(c, e, v);
    assert d in st.declarations && st.declarations[d] == "";
  }

  lemma EvictedKeys(declared: map<string, string>, declarations: map<string, string>, old_: string, new_: string)
    requires old_ in declared && new_ in declared && !Shadowed(new_, declared[new_], declarations)
    requires old_ != new_ ==> Shadowed(old_, declared[old_], declarations)
    requires forall n :: n in declared && n !in {old_, new_} ==> !Shadowed(n, declared[n], declarations)
    ensures Evict(declared, declarations).Keys == declared.Keys - {old_} + {new_}
  {
  }

  /** Eviction keeps the innermost default and every namespace with a prefix. */
  lemma EvictKeeps(c: Config, e: Element, declared: map<string, string>, nextId: nat, scope: Scope, v: Visible)
    requires ConfigOk(c) && XmlTree(e, c.stanzaNs) && Exact(c, declared, scope, v)
    ensures var st := TagNames(c, e, declared, nextId); var w := VisibleInside(c, e, v);
      Evict(st.declared, st.declarations).Keys == w.prefixed + {w.dflt}
  {
    var st := TagNames(c, e, declared, nextId);
    var w := VisibleInside(c, e, v);
    TagMidway(c, e, declared, nextId, scope, v);
    DefaultResolves(c, e, declared, nextId, scope, v);
    if w.dflt != v.dflt {
      OldDefaultGoes(c, e, declared, nextId, scope, v);
    }
    InnermostDefaultStays(c, e, declared, nextId, scope, v);
    PrefixedEntriesStay(c, declared, st);
    EvictedKeys(st.declared, st.declarations, v.dflt, w.dflt);
    KeysInside(c, e, declared, nextId, scope, v);
  }

  lemma PrefixedEntriesStay(c: Config, base: map<string, string>, st: Names)
    requires Midway(c, base, st)
    ensures forall n :: n in st.declared && st.declared[n] != "" ==> !Shadowed(n, st.declared[n], st.declarations)
  {
    assert forall m :: m in st.declarations ==> m in st.declared;
  }

  lemma KeysInside(c: Config, e: Element, declared: map<string, string>, nextId: nat, scope: Scope, v: Visible)
    requires ConfigOk(c) && XmlTree(e, c.stanzaNs) && Exact(c, declared, scope, v)
    ensures var st := TagNames(c, e, declared, nextId); var w := VisibleInside(c, e, v);
      st.declared.Keys - {v.dflt} + {w.dflt} == w.prefixed + {w.dflt}
  {
    TagMidway(c, e, declared, nextId, scope, v);
  }

  lemma InnermostDefaultStays(c: Config, e: Element, declared: map<string, string>, nextId: nat, scope: Scope,
                              v: Visible)
    requires ConfigOk(c) && XmlTree(e, c.stanzaNs) && Exact(c, declared, scope, v)
    ensures var st := TagNames(c, e, declared, nextId);
      !Shadowed(DefaultInside(c, e, v), "", st.declarations)
  {
    TagMidway(c, e, declared, nextId, scope, v);
    var st := TagNames(c, e, declared, nextId);
    assert forall m :: m in st.declarations && st.declarations[m] == "" ==> m in Bare(c, e, v) && m !in declared;
  }

  lemma ChildrenExact(c: Config, e: Element, declared: map<string, string>, nextId: nat, scope: Scope, v: Visible)
    requires ConfigOk(c) && XmlTree(e, c.stanzaNs) && Exact(c, declared, scope, v)
    ensures var st := TagNames(c, e, declared, nextId);
      Exact(c, Evict(st.declared, st.declarations), Enter(scope, st.declarations), VisibleInside(c, e, v))
  {
    var st := TagNames(c, e, declared, nextId);
    var kept := Evict(st.declared, st.declarations);
    var inner := Enter(scope, st.declarations);
    var w := VisibleInside(c, e, v);
    TagMidway(c, e, declared, nextId, scope, v);
    EnterResolves(c, declared, scope, v, st);
    DefaultResolves(c, e, declared, nextId, scope, v);
    EvictKeeps(c, e, declared, nextId, scope, v);
    forall n | n in w.prefixed ensures kept[n] !in {"", "xmlns"} && ':' !in kept[n] {
      assert n in kept && (n in declared || n in st.declarations);
    }
    assert XML_NS in kept && STREAM_NS in kept;
    forall n | n in kept ensures n != "" && kept[n] in inner && inner[kept[n]] == n {
      assert n in declared || n in st.declarations;
    }
  }

  // ---- Whole elements

  /** The start tag of an element, as printed, reads as the seen start tag. */
  lemma TagRead(c: Config, e: Element, level: nat, declared: map<string, string>, nextId: nat, open: seq<Open>,
                v: Visible)
    returns (tag: Markup, st: Names, inside: seq<Open>)
    requires ConfigOk(c) && XmlTree(e, c.stanzaNs) && Exact(c, declared, ScopeOf(open), v)
    ensures tag.StartTag? && tag.decls == st.declarations && tag.selfClosing == (e.children == [] && e.text == "")
    ensures st.nextId >= nextId && inside != []
    ensures PrintTag(c, e, declared, nextId) == (Some((tag.name, tag.attrs)), st)
    ensures TagReads(tag, Seen(c, e, level, v), open, inside)
    ensures Exact(c, Evict(st.declared, st.declarations), ScopeOf(inside), VisibleInside(c, e, v))
  {
    st := TagNames(c, e, declared, nextId);
    TagMidway(c, e, declared, nextId, ScopeOf(open), v);
    TagMeaning(c, e, declared, nextId, ScopeOf(open), v);
    tag := StartTag(RawName(e.tag, true, st.declared, c.stanzaNs), RawAttrs(e.attrs, st.declared, c.stanzaNs),
                    st.declarations, e.children == [] && e.text == "");
    inside := [Open(tag.name, SeenName(e.tag, true, {}, c.stanzaNs), Enter(ScopeOf(open), st.declarations))] + open;
  }

  /** Reading what the printer wrote gives exactly the seen element, for every tree. */
  lemma {:induction false} EmitMeaning(c: Config, e: Element, level: nat, declared: map<string, string>,
                                       nextId: nat, open: seq<Open>, v: Visible)
    requires ConfigOk(c) && XmlTree(e, c.stanzaNs) && level > 0
    requires open != [] && Exact(c, declared, ScopeOf(open), v)
    ensures var em := Emit(c, e, level, declared, nextId);
      && em.out.Some? && em.nextId >= nextId
      && Read(em.out.value, open) == ReadBack(Seen(c, e, level, v), open)
    decreases e, 1
  {
    var tag, st, inside := TagRead(c, e, level, declared, nextId, open, v);
    var kept := Evict(st.declared, st.declarations);
    EmitAllMeaning(c, e.children, level + 1, kept, st.nextId, inside, VisibleInside(c, e, v));
    var children := EmitAll(c, e.children, level + 1, kept, st.nextId).out.value;
    assert Emit(c, e, level, declared, nextId).out
        == Some(Assemble(e, level, tag.name, tag.attrs, st.declarations, children));
    if tag.selfClosing {
      EmptyElementReads(tag, Seen(c, e, level, v), open, inside);
    } else {
      ElementReads(tag, Seen(c, e, level, v), children, open, inside);
    }
  }

  lemma {:induction false} EmitAllMeaning(c: Config, es: seq<Element>, level: nat, declared: map<string, string>,
                                          nextId: nat, open: seq<Open>, v: Visible)
    requires ConfigOk(c) && XmlTrees(es, c.stanzaNs) && level > 1
    requires open != [] && Exact(c, declared, ScopeOf(open), v)
    ensures var em := EmitAll(c, es, level, declared, nextId);
      && em.out.Some? && em.nextId >= nextId
      && Read(em.out.value, open) == ReadAllBack(SeenAll(c, es, level, v), open)
    decreases es, 0
  {
    if es != [] {
      EmitMeaning(c, es[0], level, declared, nextId, open, v);
      var first := Emit(c, es[0], level, declared, nextId);
      EmitAllMeaning(c, es[1..], level, declared, first.nextId, open, v);
      var rest := EmitAll(c, es[1..], level, declared, first.nextId);
      ReadsCons(first.out.value, rest.out.value, open, Seen(c, es[0], level, v), SeenAll(c, es[1..], level, v));
      assert EmitAll(c, es, level, declared, nextId) == rest.(out := Some(first.out.value + rest.out.value));
      assert SeenAll(c, es, level, v) == [Seen(c, es[0], level, v)] + SeenAll(c, es[1..], level, v);
    }
  }

  // ---- Exactly when the meaning is preserved

  lemma BareAttrsLose(attrs: seq<Attr>, bare: set<string>, stanzaNs: string, i: nat)
    requires i < |attrs|
    ensures SeenName(attrs[i].name, false, bare, stanzaNs) == SeenName(attrs[i].name, false, {}, stanzaNs)
      <==> NsOf(attrs[i].name, false, stanzaNs) !! bare
  {
    match SplitQName(attrs[i].name, false, stanzaNs)
    case Split(Some(ns), local) =>
      assert |Clark(ns, local)| > |local|;
    case _ =>
  }

  lemma {:induction false} AttrNamespacesAre(attrs: seq<Attr>, stanzaNs: string)
    ensures forall i :: 0 <= i < |attrs| ==>
      NsOf(attrs[i].name, false, stanzaNs) <= AttrNamespaces(attrs, stanzaNs)
    ensures forall n :: n in AttrNamespaces(attrs, stanzaNs) ==>
      exists i :: 0 <= i < |attrs| && n in NsOf(attrs[i].name, false, stanzaNs)
  {
    if attrs != [] {
      var before := attrs[..|attrs| - 1];
      AttrNamespacesAre(before, stanzaNs);
      forall i | 0 <= i < |attrs| - 1 ensures NsOf(attrs[i].name, false, stanzaNs) <= AttrNamespaces(attrs, stanzaNs) {
        assert before[i] == attrs[i];
      }
      forall n | n in AttrNamespaces(attrs, stanzaNs)
        ensures exists i :: 0 <= i < |attrs| && n in NsOf(attrs[i].name, false, stanzaNs)
      {
        if n in AttrNamespaces(before, stanzaNs) {
          var i :| 0 <= i < |before| && n in NsOf(before[i].name, false, stanzaNs);
          assert n in NsOf(attrs[i].name, false, stanzaNs);
        } else {
          assert n in NsOf(attrs[|attrs| - 1].name, false, stanzaNs);
        }
      }
    }
  }

  lemma AttrsKept(attrs: seq<Attr>, bare: set<string>, stanzaNs: string)
    ensures SeenAttrs(attrs, bare, stanzaNs) == SeenAttrs(attrs, {}, stanzaNs)
      <==> AttrNamespaces(attrs, stanzaNs) !! bare
  {
    AttrNamespacesAre(attrs, stanzaNs);
    SeenAttrsAt(attrs, bare, stanzaNs);
    SeenAttrsAt(attrs, {}, stanzaNs);
    var a, b := SeenAttrs(attrs, bare, stanzaNs), SeenAttrs(attrs, {}, stanzaNs);
    forall i | 0 <= i < |attrs| ensures a[i] == b[i] <==> NsOf(attrs[i].name, false, stanzaNs) !! bare {
      BareAttrsLose(attrs, bare, stanzaNs, i);
    }
    if AttrNamespaces(attrs, stanzaNs) !! bare {
      assert a == b;
    } else {
      var n :| n in AttrNamespaces(attrs, stanzaNs) && n in bare;
      var i :| 0 <= i < |attrs| && n in NsOf(attrs[i].name, false, stanzaNs);
      assert a[i] != b[i];
    }
  }

  /** With no namespace lost a name is seen as it should be. */
  lemma SeenUnbared(name: string, isElement: bool, stanzaNs: string)
    ensures SeenName(name, isElement, {}, stanzaNs) == FoldedName(name, stanzaNs)
  {
    NamesSplit(name, isElement, stanzaNs);
    if Closed(name) {
      var ns, local := ClosedParts(name);
      ClarkFolds(ns, local, stanzaNs);
    } else {
      UnclosedFolds(name, stanzaNs);
    }
  }

  lemma AttrsUnbared(attrs: seq<Attr>, stanzaNs: string)
    ensures SeenAttrs(attrs, {}, stanzaNs) == FoldedAttrs(attrs, stanzaNs)
  {
    SeenAttrsAt(attrs, {}, stanzaNs);
    forall i | 0 <= i < |attrs| ensures SeenAttrs(attrs, {}, stanzaNs)[i] == FoldedAttrs(attrs, stanzaNs)[i] {
      SeenUnbared(attrs[i].name, false, stanzaNs);
    }
  }

  /** The receiver gets a well-formed element equal to the one sent, stanza namespaces folded, if and
      only if the element is printable where it stands. */
  lemma {:induction false} SeenIsFolded(c: Config, e: Element, level: nat, v: Visible)
    ensures (Seen(c, e, level, v) == Folded(e, level, c.stanzaNs) && DistinctAttrs(Seen(c, e, level, v)))
      <==> Printable(c, e, v)
    decreases e, 1
  {
    AttrsKept(e.attrs, Bare(c, e, v), c.stanzaNs);
    SeenUnbared(e.tag, true, c.stanzaNs);
    AttrsUnbared(e.attrs, c.stanzaNs);
    AllSeenAreFolded(c, e.children, level + 1, VisibleInside(c, e, v));
  }

  lemma {:induction false} AllSeenAreFolded(c: Config, es: seq<Element>, level: nat, v: Visible)
    ensures (SeenAll(c, es, level, v) == FoldedAll(es, level, c.stanzaNs) && AllDistinctAttrs(SeenAll(c, es, level, v)))
      <==> AllPrintable(c, es, v)
    decreases es, 0
  {
    if es != [] {
      SeenIsFolded(c, es[0], level, v);
      AllSeenAreFolded(c, es[1..], level, v);
      var seen, folded := SeenAll(c, es, level, v), FoldedAll(es, level, c.stanzaNs);
      assert seen[1..] == SeenAll(c, es[1..], level, v) && folded[1..] == FoldedAll(es[1..], level, c.stanzaNs);
      assert seen == [seen[0]] + seen[1..] && folded == [folded[0]] + folded[1..];
    }
  }
}
