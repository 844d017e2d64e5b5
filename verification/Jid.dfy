/** JIDs: parsing, printing and the global cache both of them fill (pyxmpp2/jid.py). */
module Jid {
  import opened Text

  /** An address. A domain passed as None unchecked is "". */
  datatype JID = JID(local: Option<string>, domain: string, resource: Option<string>)

  datatype Result<+T> = Bad | Good(value: T)

  /** The three preparations on non-empty strings, with their length checks; None for an error. */
  datatype Prep = Prep(local: string -> Option<string>, domain: string -> Option<string>,
                       resource: string -> Option<string>)

  /** What is assumed of them: idempotence where the result is not empty, and the characters the
      profiles let through (pyxmpp2/xmppstringprep.py:209 for local parts, STD3_LABEL_RE for domains). */
  ghost predicate Lawful(p: Prep) {
    && (forall s, r :: s != "" && p.local(s) == Some(r) ==>
          '@' !in r && '/' !in r && (r != "" ==> p.local(r) == Some(r)))
    && (forall s, r :: s != "" && p.domain(s) == Some(r) ==>
          r != "" && '@' !in r && '/' !in r && p.domain(r) == Some(r))
    && (forall s, r :: s != "" && p.resource(s) == Some(r) ==> r != "" ==> p.resource(r) == Some(r))
  }

  /** No non-empty part is prepared to nothing. The real profiles break this on strings made only of
      characters that are mapped to nothing, such as a single soft hyphen. */
  ghost predicate NeverEmpty(p: Prep) {
    forall s :: s != "" ==> p.local(s) != Some("") && p.resource(s) != Some("")
  }

  // ---- Parsing and printing

  function PrepareOptional(prep: string -> Option<string>, data: string): Result<Option<string>> {
    if data == "" then Good(None) else
      match prep(data) case None => Bad case Some(r) => Good(Some(r))
  }

  function PrepareDomain(p: Prep, data: string): Result<string> {
    if data == "" then Bad else
      match p.domain(data) case None => Bad case Some(r) => Good(r)
  }

  function FromParts(p: Prep, local: string, domain: string, resource: string): Result<JID> {
    match (PrepareOptional(p.local, local), PrepareDomain(p, domain), PrepareOptional(p.resource, resource))
    case (Good(l), Good(d), Good(r)) => Good(JID(l, d, r))
    case _ => Bad
  }

  /** split(separator, 1): both halves, or the whole and None. */
  function SplitOnce(s: string, c: char): (string, Option<string>) {
    var i := Find(s, c);
    if i < |s| then (s[..i], Some(s[i + 1..])) else (s, None)
  }

  function OrEmpty(s: Option<string>): string {
    if s.Some? then s.value else ""
  }

  /** __from_unicode: the resource follows the first slash, the local part comes before the first at
      sign ahead of it. An empty part counts as absent. */
  function FromUnicode(p: Prep, data: string): Result<JID> {
    var (bare, resource) := SplitOnce(data, '/');
    var (first, second) := SplitOnce(bare, '@');
    var r := if second.Some? then FromParts(p, first, second.value, OrEmpty(resource))
             else FromParts(p, "", first, OrEmpty(resource));
    if r.Good? && r.value.domain == "" then Bad else r
  }

  function AsUnicode(j: JID): string {
    (if OrEmpty(j.local) != "" then j.local.value + "@" else "") + j.domain
    + (if OrEmpty(j.resource) != "" then "/" + j.resource.value else "")
  }

  function BareJid(j: JID): JID {
    j.(resource := None)
  }

  /** A JID all of whose parts came out of preparation. */
  ghost predicate Prepared(p: Prep, j: JID) {
    && j.domain != "" && '@' !in j.domain && '/' !in j.domain && p.domain(j.domain) == Some(j.domain)
    && (OrEmpty(j.local) != "" ==>
          p.local(j.local.value) == j.local && '@' !in j.local.value && '/' !in j.local.value)
    && (OrEmpty(j.resource) != "" ==> p.resource(j.resource.value) == j.resource)
  }

  predicate NoEmptyPart(j: JID) {
    j.local != Some("") && j.resource != Some("")
  }

  lemma ParsedIsPrepared(p: Prep, local: string, domain: string, resource: string)
    requires Lawful(p)
    ensures var r := FromParts(p, local, domain, resource);
      r.Good? ==> Prepared(p, r.value) && (NeverEmpty(p) ==> NoEmptyPart(r.value))
  {
  }

  lemma SplitAt(a: string, c: char, b: string)
    requires c !in a
    ensures SplitOnce(a + [c] + b, c) == (a, Some(b)) && SplitOnce(a, c) == (a, None)
  {
    FindSkips(a, c, b);
    FindAbsent(a, c);
    assert (a + [c] + b)[..|a|] == a && (a + [c] + b)[|a| + 1..] == b;
  }

  /** The part of a printed JID before its resource. */
  function PrintedBare(j: JID): string {
    (if OrEmpty(j.local) != "" then j.local.value + "@" else "") + j.domain
  }

  lemma BareSplits(p: Prep, j: JID)
    requires Prepared(p, j)
    ensures '/' !in PrintedBare(j)
    ensures SplitOnce(PrintedBare(j), '@')
      == if OrEmpty(j.local) != "" then (j.local.value, Some(j.domain)) else (j.domain, None)
  {
    if OrEmpty(j.local) != "" {
      assert PrintedBare(j) == j.local.value + ['@'] + j.domain;
      SplitAt(j.local.value, '@', j.domain);
    } else {
      assert PrintedBare(j) == j.domain;
      SplitAt(j.domain, '@', "");
    }
  }

  /** A JID with its empty parts taken for absent. */
  function Stripped(j: JID): JID {
    JID(if OrEmpty(j.local) == "" then None else j.local, j.domain,
        if OrEmpty(j.resource) == "" then None else j.resource)
  }

  lemma PartsAgain(p: Prep, j: JID)
    requires Prepared(p, j)
    ensures FromParts(p, OrEmpty(j.local), j.domain, OrEmpty(j.resource)) == Good(Stripped(j))
  {
  }

  lemma PrintedSplits(p: Prep, j: JID)
    requires Prepared(p, j)
    ensures SplitOnce(AsUnicode(j), '/') == (PrintedBare(j), Stripped(j).resource)
  {
    BareSplits(p, j);
    var bare := PrintedBare(j);
    if OrEmpty(j.resource) != "" {
      assert AsUnicode(j) == bare + ['/'] + j.resource.value;
      SplitAt(bare, '/', j.resource.value);
    } else {
      assert AsUnicode(j) == bare;
      SplitAt(bare, '/', "");
    }
  }

  lemma SplitParses(p: Prep, data: string, bare: string, local: Option<string>, domain: string,
                    resource: Option<string>)
    requires SplitOnce(data, '/') == (bare, resource)
    requires SplitOnce(bare, '@') == if local.Some? then (local.value, Some(domain)) else (domain, None)
    ensures var three := FromParts(p, OrEmpty(local), domain, OrEmpty(resource));
      FromUnicode(p, data) == if three.Good? && three.value.domain == "" then Bad else three
  {
  }

  /** Parsing a printed JID gives it back, up to empty parts, which read back as absent: so it gives
      exactly the JID printed if and only if that has no empty part. */
  lemma ParsePrinted(p: Prep, j: JID)
    requires Prepared(p, j)
    ensures FromUnicode(p, AsUnicode(j)) == Good(Stripped(j))
    ensures FromUnicode(p, AsUnicode(j)) == Good(j) <==> NoEmptyPart(j)
  {
    PartsAgain(p, j);
    PrintedSplits(p, j);
    BareSplits(p, j);
    SplitParses(p, AsUnicode(j), PrintedBare(j), Stripped(j).local, j.domain, Stripped(j).resource);
  }

  /** JID.__eq__, also against None; `sameDomain` is are_domains_equal. */
  predicate SameJid(sameDomain: (string, string) -> bool, a: Option<JID>, b: Option<JID>) {
    match (a, b)
    case (Some(x), Some(y)) => x.local == y.local && sameDomain(x.domain, y.domain) && x.resource == y.resource
    case (None, None) => true
    case _ => false
  }

  // ---- The cache

  type Cache = map<string, JID>

  /** Every cached string maps to what parsing it afresh would give. */
  ghost predicate Coherent(p: Prep, cache: Cache) {
    forall s :: s in cache ==> FromUnicode(p, s) == Good(cache[s])
  }

  /** Arguments of the constructor. */
  datatype Args = Args(localOrJid: Option<string>, domain: Option<string>, resource: Option<string>, check: bool)

  /** The key that is looked up; unicode(None) is the string "None". */
  function LookupKey(a: Args): string {
    if a.localOrJid.Some? then a.localOrJid.value else "None"
  }

  /** __new__ */
  function New(p: Prep, cache: Cache, a: Args): (Cache, Result<JID>) {
    var nameless := a.domain.None? && a.resource.None?;
    if nameless && LookupKey(a) in cache then (cache, Good(cache[LookupKey(a)]))
    else if OrEmpty(a.localOrJid) != "" && OrEmpty(a.domain) == "" && OrEmpty(a.resource) == "" then
      var r := FromUnicode(p, a.localOrJid.value);
      (if r.Good? then cache[a.localOrJid.value := r.value] else cache, r)
    else if nameless then (cache, Bad)
    else if a.check then (cache, FromParts(p, OrEmpty(a.localOrJid), OrEmpty(a.domain), OrEmpty(a.resource)))
    else (cache, Good(JID(a.localOrJid, OrEmpty(a.domain), a.resource)))
  }

  /** as_unicode also fills the cache. */
  function Printed(cache: Cache, j: JID): Cache {
    if AsUnicode(j) in cache then cache else cache[AsUnicode(j) := j]
  }

  /** bare */
  function BareArgs(j: JID): Args {
    Args(j.local, Some(j.domain), None, false)
  }

  /** A client of the module: the cache and the JIDs it has got hold of. */
  datatype World = World(cache: Cache, jids: seq<JID>)

  /** Construct with checks, print or take the bare JID of one at hand, or lose weakly referenced
      entries. */
  datatype Op = Construct(localOrJid: Option<string>, domain: Option<string>, resource: Option<string>)
              | Print(i: nat) | Bare(i: nat) | Collect(dropped: set<string>)

  function Obtained(w: World, made: (Cache, Result<JID>)): World {
    World(made.0, if made.1.Good? then w.jids + [made.1.value] else w.jids)
  }

  function Do(p: Prep, w: World, op: Op): World {
    match op
    case Construct(l, d, r) => Obtained(w, New(p, w.cache, Args(l, d, r, true)))
    case Print(i) => if i < |w.jids| then w.(cache := Printed(w.cache, w.jids[i])) else w
    case Bare(i) => if i < |w.jids| then Obtained(w, New(p, w.cache, BareArgs(w.jids[i]))) else w
    case Collect(dropped) => w.(cache := w.cache - dropped)
  }

  function Run(p: Prep, w: World, ops: seq<Op>): World
    decreases ops
  {
    if ops == [] then w else Run(p, Do(p, w, ops[0]), ops[1..])
  }

  const NEW := World(map[], [])

  ghost predicate Sound(p: Prep, w: World) {
    Coherent(p, w.cache) && forall j <- w.jids :: Prepared(p, j)
  }

  /** Printing a JID with an empty part, while its string is not cached. */
  predicate Poisons(w: World, op: Op) {
    op.Print? && op.i < |w.jids| && !NoEmptyPart(w.jids[op.i]) && AsUnicode(w.jids[op.i]) !in w.cache
  }

  predicate Harmless(p: Prep, w: World, ops: seq<Op>)
    decreases ops
  {
    ops == [] || (!Poisons(w, ops[0]) && Harmless(p, Do(p, w, ops[0]), ops[1..]))
  }

  lemma ParsedFromString(p: Prep, s: string)
    requires Lawful(p)
    ensures var r := FromUnicode(p, s);
      r.Good? ==> Prepared(p, r.value) && (NeverEmpty(p) ==> NoEmptyPart(r.value))
  {
    var (bare, resource) := SplitOnce(s, '/');
    var (first, second) := SplitOnce(bare, '@');
    if second.Some? {
      ParsedIsPrepared(p, first, second.value, OrEmpty(resource));
    } else {
      ParsedIsPrepared(p, "", first, OrEmpty(resource));
    }
  }

  /** A checked construction keeps the cache right and yields prepared parts. */
  lemma NewKeepsSound(p: Prep, w: World, a: Args)
    requires Lawful(p) && Sound(p, w) && a.check
    ensures Sound(p, Obtained(w, New(p, w.cache, a)))
  {
    ParsedIsPrepared(p, OrEmpty(a.localOrJid), OrEmpty(a.domain), OrEmpty(a.resource));
    ParsedFromString(p, LookupKey(a));
  }

  /** A bare JID has the right parts though it is made without checks, and it is not cached unasked. */
  lemma BareKeepsSound(p: Prep, w: World, j: JID)
    requires Sound(p, w) && Prepared(p, j)
    ensures New(p, w.cache, BareArgs(j)) == (w.cache, Good(BareJid(j)))
    ensures Sound(p, Obtained(w, New(p, w.cache, BareArgs(j))))
  {
  }

  lemma PrintedCoherentIff(p: Prep, cache: Cache, j: JID)
    requires Coherent(p, cache) && Prepared(p, j)
    ensures Coherent(p, Printed(cache, j)) <==> NoEmptyPart(j) || AsUnicode(j) in cache
  {
    ParsePrinted(p, j);
    assert AsUnicode(j) in Printed(cache, j);
  }

  /** Any one step keeps the cache coherent, unless it prints a JID with an empty part whose string is
      not cached; such a step never does. */
  lemma StepCoherentIff(p: Prep, w: World, op: Op)
    requires Lawful(p) && Sound(p, w)
    ensures Coherent(p, Do(p, w, op).cache) <==> !Poisons(w, op)
    ensures Sound(p, Do(p, w, op)) <==> !Poisons(w, op)
  {
    match op
    case Construct(l, d, r) => NewKeepsSound(p, w, Args(l, d, r, true));
    case Print(i) =>
      if i < |w.jids| {
        PrintedCoherentIff(p, w.cache, w.jids[i]);
      }
    case Bare(i) =>
      if i < |w.jids| {
        BareKeepsSound(p, w, w.jids[i]);
      }
    case Collect(_) =>
  }

  lemma {:induction false} RunKeepsSound(p: Prep, w: World, ops: seq<Op>)
    requires Lawful(p) && Sound(p, w) && Harmless(p, w, ops)
    ensures Sound(p, Run(p, w, ops))
    decreases ops
  {
    if ops != [] {
      StepCoherentIff(p, w, ops[0]);
      RunKeepsSound(p, Do(p, w, ops[0]), ops[1..]);
    }
  }

  lemma {:induction false} HarmlessPrefix(p: Prep, w: World, ops: seq<Op>, k: nat)
    requires Harmless(p, w, ops) && k <= |ops|
    ensures Harmless(p, w, ops[..k])
    decreases ops
  {
    if k > 0 {
      HarmlessPrefix(p, Do(p, w, ops[0]), ops[1..], k - 1);
      assert ops[..k][1..] == ops[1..][..k - 1];
    }
  }

  /** JID of a string that is not empty, as the cache answers it. */
  function Answer(p: Prep, cache: Cache, s: string): Result<JID> {
    New(p, cache, Args(Some(s), None, None, true)).1
  }

  lemma PoisonedAnswer(p: Prep, w: World, op: Op) returns (s: string)
    requires Lawful(p) && Sound(p, w) && Poisons(w, op)
    ensures s != "" && !Coherent(p, Do(p, w, op).cache) && Answer(p, Do(p, w, op).cache, s) != FromUnicode(p, s)
  {
    var j := w.jids[op.i];
    ParsePrinted(p, j);
    s := AsUnicode(j);
    assert |s| >= |j.domain|;
    assert Do(p, w, op).cache[s] == j;
  }

  lemma RunCons(p: Prep, w: World, ops: seq<Op>, k: nat)
    requires 0 < k <= |ops|
    ensures Run(p, w, ops[..k]) == Run(p, Do(p, w, ops[0]), ops[1..][..k - 1])
  {
    assert ops[..k][1..] == ops[1..][..k - 1];
  }

  /** A run that is not harmless has a first poisoning step, and after it the cache answers wrong. */
  lemma {:induction false} PoisonIsSeen(p: Prep, w: World, ops: seq<Op>) returns (k: nat, s: string)
    requires Lawful(p) && Sound(p, w) && !Harmless(p, w, ops)
    ensures k <= |ops| && s != "" && !Coherent(p, Run(p, w, ops[..k]).cache)
    ensures Answer(p, Run(p, w, ops[..k]).cache, s) != FromUnicode(p, s)
    decreases ops
  {
    var i: nat := 0;
    if Poisons(w, ops[0]) {
      s := PoisonedAnswer(p, w, ops[0]);
      assert Run(p, Do(p, w, ops[0]), ops[1..][..0]) == Do(p, w, ops[0]);
    } else {
      StepCoherentIff(p, w, ops[0]);
      i, s := PoisonIsSeen(p, Do(p, w, ops[0]), ops[1..]);
    }
    k := i + 1;
    RunCons(p, w, ops, k);
  }

  /** Cache coherence, exactly: at every point of a run every cached string maps to what parsing it
      afresh gives, if and only if the run never prints a JID with an empty part whose string is not
      cached. The preparations may be any that are lawful. */
  lemma CoherentIffHarmless(p: Prep, ops: seq<Op>)
    requires Lawful(p)
    ensures Harmless(p, NEW, ops) <==> forall k: nat :: k <= |ops| ==> Coherent(p, Run(p, NEW, ops[..k]).cache)
  {
    if Harmless(p, NEW, ops) {
      forall k: nat | k <= |ops| ensures Coherent(p, Run(p, NEW, ops[..k]).cache) {
        HarmlessPrefix(p, NEW, ops, k);
        RunKeepsSound(p, NEW, ops[..k]);
      }
    } else {
      var k, _ := PoisonIsSeen(p, NEW, ops);
    }
  }

  /** The cache is transparent - JID(s) is at every point of a run what an uncached parse would give - for
      exactly the same runs. */
  lemma CacheIsTransparent(p: Prep, ops: seq<Op>)
    requires Lawful(p)
    ensures Harmless(p, NEW, ops) <==>
      forall k: nat, s :: k <= |ops| && s != "" ==> Answer(p, Run(p, NEW, ops[..k]).cache, s) == FromUnicode(p, s)
  {
    if Harmless(p, NEW, ops) {
      CoherentIffHarmless(p, ops);
    } else {
      var k, s := PoisonIsSeen(p, NEW, ops);
    }
  }

  // ---- Preparations that never yield an empty part

  ghost predicate NoEmptyParts(w: World) {
    forall j <- w.jids :: NoEmptyPart(j)
  }

  lemma {:induction false} NeverEmptyIsHarmless(p: Prep, w: World, ops: seq<Op>)
    requires Lawful(p) && NeverEmpty(p) && Sound(p, w) && NoEmptyParts(w)
    ensures Harmless(p, w, ops)
    decreases ops
  {
    if ops != [] {
      StepCoherentIff(p, w, ops[0]);
      StepHasNoEmptyParts(p, w, ops[0]);
      NeverEmptyIsHarmless(p, Do(p, w, ops[0]), ops[1..]);
    }
  }

  lemma StepHasNoEmptyParts(p: Prep, w: World, op: Op)
    requires Lawful(p) && NeverEmpty(p) && Sound(p, w) && NoEmptyParts(w)
    ensures NoEmptyParts(Do(p, w, op))
  {
    match op
    case Construct(l, d, r) =>
      ParsedIsPrepared(p, OrEmpty(l), OrEmpty(d), OrEmpty(r));
      ParsedFromString(p, LookupKey(Args(l, d, r, true)));
    case Bare(i) =>
      if i < |w.jids| {
        assert w.jids[i] in w.jids;
        BareKeepsSound(p, w, w.jids[i]);
        assert Do(p, w, op).jids == w.jids + [BareJid(w.jids[i])];
      }
    case _ =>
  }

  /** Building a JID with an empty part and printing it poisons the cache for the address without
      that part. */
  lemma EmptyPartPoisons(p: Prep, domain: string, s: string)
    requires Lawful(p) && domain != "" && p.domain(domain).Some? && s != ""
    requires p.local(s) == Some("") || p.resource(s) == Some("")
    ensures var args := if p.local(s) == Some("") then Construct(Some(s), Some(domain), None)
                        else Construct(None, Some(domain), Some(s));
      !Coherent(p, Run(p, NEW, [args, Print(0)]).cache)
  {
    var make := if p.local(s) == Some("") then Construct(Some(s), Some(domain), None)
                else Construct(None, Some(domain), Some(s));
    var ops := [make, Print(0)];
    StepCoherentIff(p, NEW, make);
    var w1 := Do(p, NEW, make);
    assert w1.cache == map[] && |w1.jids| == 1 && !NoEmptyPart(w1.jids[0]);
    StepCoherentIff(p, w1, Print(0));
    var w2 := Do(p, w1, Print(0));
    assert ops[1..] == [Print(0)] && ops[1..][1..] == [];
    assert Run(p, w2, []) == w2;
    assert Run(p, w1, [Print(0)]) == w2;
    assert Run(p, NEW, ops) == w2;
  }

  /** All runs keep the cache coherent exactly when preparation never yields an empty part. */
  lemma CoherentIffNeverEmpty(p: Prep, domain: string)
    requires Lawful(p) && domain != "" && p.domain(domain).Some?
    ensures (forall ops :: Coherent(p, Run(p, NEW, ops).cache)) <==> NeverEmpty(p)
  {
    if NeverEmpty(p) {
      forall ops ensures Coherent(p, Run(p, NEW, ops).cache) {
        NeverEmptyIsHarmless(p, NEW, ops);
        RunKeepsSound(p, NEW, ops);
      }
    } else {
      var s :| s != "" && (p.local(s) == Some("") || p.resource(s) == Some(""));
      EmptyPartPoisons(p, domain, s);
    }
  }

  /** JID(None) ought to be an error, and is - unless JID("None") is in the cache. */
  lemma NoneIsAnError(p: Prep, cache: Cache, check: bool)
    ensures New(p, cache, Args(None, None, None, check)).1.Bad? <==> "None" !in cache
  {
  }

  // ---- What parsing and construction give, told without the parser

  /** Every part that is there has to be prepared, and the domain has to be there; an empty part is none. */
  function FromThree(p: Prep, local: string, domain: string, resource: string): Result<JID> {
    if domain == "" || p.domain(domain).None? then Bad
    else if (local != "" && p.local(local).None?) || (resource != "" && p.resource(resource).None?) then Bad
    else Good(JID(if local == "" then None else p.local(local), p.domain(domain).value,
                  if resource == "" then None else p.resource(resource)))
  }

  /** An address put together from its parts. */
  function Address(local: Option<string>, domain: string, resource: Option<string>): string {
    (if local.Some? then local.value + "@" else "") + domain + (if resource.Some? then "/" + resource.value else "")
  }

  /** The parts as the separators tell them apart. */
  predicate Separate(local: Option<string>, domain: string, resource: Option<string>) {
    && '/' !in domain && (local.None? ==> '@' !in domain)
    && (local.Some? ==> '@' !in local.value && '/' !in local.value)
  }

  /** Every string is an address in exactly one way... */
  lemma EveryAddress(data: string) returns (local: Option<string>, domain: string, resource: Option<string>)
    ensures Separate(local, domain, resource) && data == Address(local, domain, resource)
  {
    var i := Find(data, '/');
    var bare := data[..i];
    resource := if i < |data| then Some(data[i + 1..]) else None;
    var j := Find(bare, '@');
    local := if j < |bare| then Some(bare[..j]) else None;
    domain := if j < |bare| then bare[j + 1..] else bare;
    assert bare[..|bare|] == bare && data[..|data|] == data;
    assert bare == (if local.Some? then local.value + "@" else "") + domain;
    assert data == bare + (if resource.Some? then "/" + resource.value else "");
  }

  lemma BarePartSplits(local: Option<string>, domain: string)
    requires Separate(local, domain, None)
    ensures var bare := (if local.Some? then local.value + "@" else "") + domain;
      && '/' !in bare
      && SplitOnce(bare, '@') == if local.Some? then (local.value, Some(domain)) else (domain, None)
  {
    if local.Some? {
      SplitAt(local.value, '@', domain);
    } else {
      SplitAt(domain, '@', "");
      assert "" + domain == domain;
    }
  }

  lemma AddressSplits(local: Option<string>, domain: string, resource: Option<string>)
    requires Separate(local, domain, resource)
    ensures var bare := (if local.Some? then local.value + "@" else "") + domain;
      SplitOnce(Address(local, domain, resource), '/') == (bare, resource)
  {
    var bare := (if local.Some? then local.value + "@" else "") + domain;
    BarePartSplits(local, domain);
    if resource.Some? {
      assert Address(local, domain, resource) == bare + ['/'] + resource.value;
      SplitAt(bare, '/', resource.value);
    } else {
      assert Address(local, domain, resource) == bare;
      SplitAt(bare, '/', "");
    }
  }

  lemma ThreeAreParts(p: Prep, local: string, domain: string, resource: string)
    ensures FromParts(p, local, domain, resource) == FromThree(p, local, domain, resource)
  {
  }

  /** ... and is parsed part by part, with the resource after the first slash and the local part ahead of the
      first at sign before that. */
  lemma ParsesAs(p: Prep, local: Option<string>, domain: string, resource: Option<string>)
    requires Separate(local, domain, resource)
    ensures var three := FromThree(p, OrEmpty(local), domain, OrEmpty(resource));
      FromUnicode(p, Address(local, domain, resource))
      == if three.Good? && three.value.domain == "" then Bad else three
  {
    AddressSplits(local, domain, resource);
    BarePartSplits(local, domain);
    ThreeAreParts(p, OrEmpty(local), domain, OrEmpty(resource));
    SplitParses(p, Address(local, domain, resource), (if local.Some? then local.value + "@" else "") + domain,
                local, domain, resource);
  }

  /** JID(local, domain, resource), with and without checks; neither looks at the cache or changes it. */
  lemma ConstructsFromParts(p: Prep, cache: Cache, local: Option<string>, domain: string, resource: Option<string>)
    requires domain != ""
    ensures New(p, cache, Args(local, Some(domain), resource, true))
         == (cache, FromThree(p, OrEmpty(local), domain, OrEmpty(resource)))
    ensures New(p, cache, Args(local, Some(domain), resource, false)) == (cache, Good(JID(local, domain, resource)))
  {
  }

  /** JID(string) is what the cache has, or what parsing gives, which is then cached if it is no error. */
  lemma ConstructsFromString(p: Prep, cache: Cache, s: string, check: bool)
    requires s != ""
    ensures var (cache1, r) := New(p, cache, Args(Some(s), None, None, check));
      && r == (if s in cache then Good(cache[s]) else FromUnicode(p, s))
      && cache1 == if s !in cache && r.Good? then cache[s := r.value] else cache
  {
  }

  /** A JID is printed as the address of the parts it has. */
  lemma PrintsAs(j: JID)
    ensures AsUnicode(j) == Address(if j.local == Some("") then None else j.local, j.domain,
                                    if j.resource == Some("") then None else j.resource)
    ensures BareJid(j) == JID(j.local, j.domain, None)
  {
  }

  lemma PrintedOutcome(p: Prep, cache: Cache, j: JID)
    ensures Coherent(p, cache) && Prepared(p, j) ==>
      && (Coherent(p, Printed(cache, j)) <==> NoEmptyPart(j) || AsUnicode(j) in cache)
      && (FromUnicode(p, AsUnicode(j)) == Good(j) <==> NoEmptyPart(j))
  {
    if Coherent(p, cache) && Prepared(p, j) {
      ParsePrinted(p, j);
      PrintedCoherentIff(p, cache, j);
    }
  }

  // ---- The class-level cache

  class JIDCache {
    const p: Prep
    var cache: Cache

    constructor (p: Prep)
      ensures this.p == p && cache == map[]
    {
      this.p, cache := p, map[];
    }

    method Make(a: Args) returns (r: Result<JID>)
      modifies `cache
      ensures (cache, r) == New(p, old(cache), a)
      ensures (OrEmpty(a.localOrJid) != "" && a.domain.None? && a.resource.None? && old(Coherent(p, cache))) ==>
        Coherent(p, cache) && r == FromUnicode(p, a.localOrJid.value)
    {
      if a.domain.None? && a.resource.None? {
        var key := LookupKey(a);
        if key in cache {
          return Good(cache[key]);
        }
      }
      if OrEmpty(a.localOrJid) != "" && OrEmpty(a.domain) == "" && OrEmpty(a.resource) == "" {
        r := FromUnicode(p, a.localOrJid.value);
        if r.Good? {
          cache := cache[a.localOrJid.value := r.value];
        }
        return;
      }
      if a.domain.None? && a.resource.None? {
        return Bad;
      }
      if a.check {
        r := FromParts(p, OrEmpty(a.localOrJid), OrEmpty(a.domain), OrEmpty(a.resource));
      } else {
        r := Good(JID(a.localOrJid, OrEmpty(a.domain), a.resource));
      }
    }

    method PrintJid(j: JID) returns (s: string)
      modifies `cache
      ensures s == AsUnicode(j) && cache == Printed(old(cache), j)
      ensures old(Coherent(p, cache)) && Prepared(p, j) ==>
        && (Coherent(p, cache) <==> NoEmptyPart(j) || s in old(cache))
        && (FromUnicode(p, s) == Good(j) <==> NoEmptyPart(j))
    {
      s := Unicode(j);
      PrintedOutcome(p, cache, j);
      if s !in cache {
        cache := cache[s := j];
      }
    }

    /** The string as_unicode puts together. */
    method Unicode(j: JID) returns (s: string)
      ensures s == AsUnicode(j)
    {
      s := j.domain;
      if OrEmpty(j.local) != "" {
        s := j.local.value + "@" + s;
      }
      if OrEmpty(j.resource) != "" {
        s := s + ("/" + j.resource.value);
      }
    }

    method MakeBare(j: JID) returns (r: Result<JID>)
      modifies `cache
      ensures (cache, r) == New(p, old(cache), BareArgs(j))
      ensures j.domain != "" ==> cache == old(cache) && r == Good(BareJid(j))
    {
      r := Make(Args(j.local, Some(j.domain), None, false));
    }
  }
}
