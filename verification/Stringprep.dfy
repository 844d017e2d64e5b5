/** Stringprep profiles and the cache they share (pyxmpp2/xmppstringprep.py). */
module Stringprep {
  import opened Text

  /** A profile's tables. `mapping` is its lookups in turn, None when none of them maps the character;
      d1 and d2 are the tables of section 6 of RFC 3454. */
  datatype Profile = Profile(mapping: char -> Option<string>, normalization: Option<string -> string>,
                             prohibited: char -> bool, unassigned: char -> bool, bidi: bool,
                             d1: char -> bool, d2: char -> bool)

  /** StringprepError, or the TypeError of joining without arguments. */
  datatype Outcome = Prepared(text: string) | Refused | Raised

  // ---- The pipeline without cache

  /** map: a list with what each character is mapped to, which may be no or several characters. */
  function Mapped(p: Profile, data: string): seq<string> {
    if data == "" then [] else
      Mapped(p, data[..|data| - 1])
      + [var c := data[|data| - 1]; if p.mapping(c).Some? then p.mapping(c).value else [c]]
  }

  function Joined(parts: seq<string>): string {
    if parts == [] then "" else Joined(parts[..|parts| - 1]) + parts[|parts| - 1]
  }

  predicate Any(s: string, table: char -> bool) {
    exists i :: 0 <= i < |s| && table(s[i])
  }

  predicate BidiOk(p: Profile, s: string) {
    Any(s, p.d1) ==>
      !(exists i :: 0 <= i < |s| && !p.d1(s[i]) && p.d2(s[i])) && p.d1(s[0]) && p.d1(s[|s| - 1])
  }

  datatype Verdict = Fine | Found | NotACharacter

  /** A check over a list: the tables take nothing but one character. */
  function CheckList(parts: seq<string>, table: char -> bool): Verdict {
    if parts == [] then Fine
    else if |parts[0]| != 1 then NotACharacter
    else if table(parts[0][0]) then Found
    else CheckList(parts[1..], table)
  }

  /** The checks of a profile without normalization, which works on the list. If they pass, joining it
      raises, since the code forgets to pass it. */
  function Unnormalized(p: Profile, parts: seq<string>): Outcome {
    match CheckList(parts, p.prohibited)
    case Found => Refused
    case NotACharacter => Raised
    case Fine =>
      if CheckList(parts, p.unassigned) == Found || (p.bidi && !BidiOk(p, Joined(parts))) then Refused else Raised
  }

  /** Mapping, normalization, and the checks. */
  function Pipeline(p: Profile, data: string): Outcome {
    if p.normalization.None? then Unnormalized(p, Mapped(p, data)) else
      var s := p.normalization.value(Joined(Mapped(p, data)));
      if Any(s, p.prohibited) || Any(s, p.unassigned) || (p.bidi && !BidiOk(p, s)) then Refused
      else Prepared(s)
  }

  /** What comes out has no prohibited character: node preparation lets no '@' and no '/' through. */
  lemma PreparedAvoidsProhibited(p: Profile, data: string, c: char)
    requires Pipeline(p, data).Prepared? && p.prohibited(c)
    ensures c !in Pipeline(p, data).text
  {
    var s := Pipeline(p, data).text;
    assert forall i :: 0 <= i < |s| ==> !p.prohibited(s[i]);
  }

  /** A character that is mapped to nothing, such as the soft hyphen, is prepared to the empty string. */
  lemma MappedAway(p: Profile, c: char)
    requires p.mapping(c) == Some("") && p.normalization.Some? && p.normalization.value("") == ""
    ensures Pipeline(p, [c]) == Prepared("")
  {
    assert [c][..0] == [];
    assert Mapped(p, [c]) == [""];
    assert [""][..0] == [] && Joined([""]) == "";
  }

  // ---- The pipeline, told without its functions

  function Replacement(p: Profile, c: char): string {
    if p.mapping(c).Some? then p.mapping(c).value else [c]
  }

  /** Every character replaced, from the front. */
  function Replaced(p: Profile, data: string): string {
    if data == "" then "" else Replacement(p, data[0]) + Replaced(p, data[1..])
  }

  predicate Lacks(s: string, table: char -> bool) {
    forall c <- s :: !table(c)
  }

  /** Section 6 of RFC 3454: a string with a right-to-left character has no left-to-right one, and begins and
      ends with a right-to-left one. */
  predicate OneDirection(p: Profile, s: string) {
    Lacks(s, p.d1) || (&& s != "" && p.d1(s[0]) && p.d1(s[|s| - 1])
                      && forall c <- s :: p.d2(c) ==> p.d1(c))
  }

  lemma {:induction false} JoinedConcat(a: seq<string>, b: seq<string>)
    ensures Joined(a + b) == Joined(a) + Joined(b)
  {
    if b == [] {
      assert a + b == a && Joined(a) + "" == Joined(a);
    } else {
      assert (a + b)[..|a + b| - 1] == a + b[..|b| - 1];
      JoinedConcat(a, b[..|b| - 1]);
    }
  }

  lemma {:induction false} MappedConcat(p: Profile, a: string, b: string)
    ensures Mapped(p, a + b) == Mapped(p, a) + Mapped(p, b)
  {
    if b == "" {
      assert a + b == a;
    } else {
      assert (a + b)[..|a + b| - 1] == a + b[..|b| - 1];
      MappedConcat(p, a, b[..|b| - 1]);
    }
  }

  lemma {:induction false} MappedIsReplaced(p: Profile, data: string)
    ensures Joined(Mapped(p, data)) == Replaced(p, data)
  {
    if data != "" {
      var c, rest := data[0], data[1..];
      assert data == [c] + rest;
      MappedConcat(p, [c], rest);
      assert [c][..0] == "" && Mapped(p, [c]) == [Replacement(p, c)];
      JoinedConcat([Replacement(p, c)], Mapped(p, rest));
      assert [Replacement(p, c)][..0] == [] && Joined([Replacement(p, c)]) == Replacement(p, c);
      MappedIsReplaced(p, rest);
    }
  }

  lemma AnyIs(s: string, table: char -> bool)
    ensures Any(s, table) <==> !Lacks(s, table)
  {
    assert forall i :: 0 <= i < |s| ==> s[i] in s;
  }

  lemma BidiIs(p: Profile, s: string)
    ensures BidiOk(p, s) <==> OneDirection(p, s)
  {
    AnyIs(s, p.d1);
    assert forall i :: 0 <= i < |s| ==> s[i] in s;
  }

  /** What a profile with a normalization prepares, and all it prepares. */
  lemma PipelineIs(p: Profile, data: string)
    requires p.normalization.Some?
    ensures var s := p.normalization.value(Replaced(p, data));
      Pipeline(p, data) == if Lacks(s, p.prohibited) && Lacks(s, p.unassigned) && (p.bidi ==> OneDirection(p, s))
                           then Prepared(s) else Refused
  {
    MappedIsReplaced(p, data);
    var s := p.normalization.value(Replaced(p, data));
    AnyIs(s, p.prohibited);
    AnyIs(s, p.unassigned);
    BidiIs(p, s);
  }

  method MapChars(p: Profile, data: string) returns (result: seq<string>)
    ensures result == Mapped(p, data)
  {
    result := [];
    for i := 0 to |data|
      invariant result == Mapped(p, data[..i])
    {
      assert data[..i + 1][..i] == data[..i];
      var to := p.mapping(data[i]);
      result := result + [if to.Some? then to.value else [data[i]]];
    }
    assert data[..|data|] == data;
  }

  method JoinParts(parts: seq<string>) returns (s: string)
    ensures s == Joined(parts)
  {
    s := "";
    for i := 0 to |parts|
      invariant s == Joined(parts[..i])
    {
      assert parts[..i + 1][..i] == parts[..i];
      s := s + parts[i];
    }
    assert parts[..|parts|] == parts;
  }

  /** The checking loops on a list. */
  method CheckParts(parts: seq<string>, table: char -> bool) returns (v: Verdict)
    ensures v == CheckList(parts, table)
  {
    for i := 0 to |parts|
      invariant CheckList(parts, table) == CheckList(parts[i..], table)
    {
      assert parts[i..][1..] == parts[i + 1..];
      if |parts[i]| != 1 {
        return NotACharacter;
      }
      if table(parts[i][0]) {
        return Found;
      }
    }
    return Fine;
  }

  lemma {:induction false} FineParts(parts: seq<string>, a: char -> bool, b: char -> bool)
    requires CheckList(parts, a) == Fine
    ensures CheckList(parts, b) != NotACharacter
  {
    if parts != [] {
      FineParts(parts[1..], a, b);
    }
  }

  method FindsAny(s: string, table: char -> bool) returns (found: bool)
    ensures found == Any(s, table)
  {
    for i := 0 to |s|
      invariant forall k :: 0 <= k < i ==> !table(s[k])
    {
      if table(s[i]) {
        return true;
      }
    }
    return false;
  }

  method CheckBidi(p: Profile, s: string) returns (ok: bool)
    ensures ok == BidiOk(p, s)
  {
    var hasL, hasRal := false, false;
    for i := 0 to |s|
      invariant hasRal == exists k :: 0 <= k < i && p.d1(s[k])
      invariant hasL == exists k :: 0 <= k < i && !p.d1(s[k]) && p.d2(s[k])
    {
      if p.d1(s[i]) {
        hasRal := true;
      } else if p.d2(s[i]) {
        hasL := true;
      }
    }
    if hasL && hasRal {
      return false;
    }
    if hasRal && (!p.d1(s[0]) || !p.d1(s[|s| - 1])) {
      return false;
    }
    return true;
  }

  // ---- The shared cache

  /** A profile, by number, and a string. */
  type Key = (nat, string)

  /** The shared list of keys, oldest first, the profiles' caches in one, and the configured size. */
  datatype Cache = Cache(items: seq<Key>, texts: map<Key, string>, size: int)

  /** Position of the Python slice bound k in a list of length n. */
  function Bound(k: int, n: nat): (r: nat)
    ensures r <= n
  {
    if k < 0 then (if n + k < 0 then 0 else n + k) else if k < n then k else n
  }

  function Keys(items: seq<Key>): set<Key> {
    set key | key in items
  }

  lemma KeysSnoc(items: seq<Key>, key: Key)
    ensures Keys(items + [key]) == Keys(items) + {key}
  {
  }

  /** Dropping the items before a slice bound, with their cached texts. */
  function DropBefore(c: Cache, k: int): Cache {
    var b := Bound(k, |c.items|);
    c.(items := c.items[b..], texts := c.texts - Keys(c.items[..b]))
  }

  /** -size // 2, rounded down; Euclidean division by 2 does that too. */
  function KeepBound(size: int): int {
    (-size) / 2
  }

  function MakeRoom(c: Cache): Cache {
    if |c.items| >= c.size then DropBefore(c, KeepBound(c.size)) else c
  }

  function Insert(c: Cache, key: Key, text: string): Cache {
    c.(items := c.items + [key], texts := c.texts[key := text])
  }

  /** Profile.prepare */
  function Prepare(profiles: nat -> Profile, c: Cache, key: Key): (Cache, Outcome) {
    if key in c.texts then (c, Prepared(c.texts[key])) else
      match Pipeline(profiles(key.0), key.1)
      case Prepared(text) => (Insert(MakeRoom(c), key, text), Prepared(text))
      case other => (c, other)
  }

  /** set_stringprep_cache_size */
  function SetSize(c: Cache, size: int): Cache {
    var c1 := c.(size := size);
    if |c.items| > size then DropBefore(c1, -size) else c1
  }

  ghost predicate Distinct(items: seq<Key>) {
    forall i, j :: 0 <= i < j < |items| ==> items[i] != items[j]
  }

  /** The list holds exactly the cached keys, once each, and what is cached is right. */
  ghost predicate Coherent(profiles: nat -> Profile, c: Cache) {
    && Distinct(c.items)
    && (forall key :: key in c.items <==> key in c.texts)
    && forall key :: key in c.texts ==> Pipeline(profiles(key.0), key.1) == Prepared(c.texts[key])
  }

  lemma DropSplits(items: seq<Key>, b: nat)
    requires Distinct(items) && b <= |items|
    ensures Distinct(items[b..])
    ensures forall key :: key in items[b..] <==> key in items && key !in items[..b]
  {
    assert items == items[..b] + items[b..];
    forall key | key in items[b..] ensures key !in items[..b] {
      var i :| 0 <= i < |items| - b && items[b..][i] == key;
      assert items[b + i] == key;
    }
  }

  lemma DropKeepsCoherent(profiles: nat -> Profile, c: Cache, k: int)
    requires Coherent(profiles, c)
    ensures Coherent(profiles, DropBefore(c, k))
  {
    DropSplits(c.items, Bound(k, |c.items|));
  }

  lemma PrepareKeepsCoherent(profiles: nat -> Profile, c: Cache, key: Key)
    requires Coherent(profiles, c)
    ensures Coherent(profiles, Prepare(profiles, c, key).0)
    ensures Prepare(profiles, c, key).1 == Pipeline(profiles(key.0), key.1)
  {
    DropKeepsCoherent(profiles, c, KeepBound(c.size));
  }

  lemma PrepareKeepsBound(profiles: nat -> Profile, c: Cache, key: Key)
    requires c.size >= 2 && |c.items| <= c.size
    ensures |Prepare(profiles, c, key).0.items| <= c.size
  {
  }

  datatype Op = PrepareOp(key: Key) | SetSizeOp(size: int)

  function Do(profiles: nat -> Profile, c: Cache, op: Op): Cache {
    match op
    case PrepareOp(key) => Prepare(profiles, c, key).0
    case SetSizeOp(size) => SetSize(c, size)
  }

  function Run(profiles: nat -> Profile, c: Cache, ops: seq<Op>): Cache
    decreases ops
  {
    if ops == [] then c else Run(profiles, Do(profiles, c, ops[0]), ops[1..])
  }

  /** Over any run, whatever sizes are set, the cache stays coherent. */
  lemma {:induction false} RunKeepsCoherent(profiles: nat -> Profile, c: Cache, ops: seq<Op>)
    requires Coherent(profiles, c)
    ensures Coherent(profiles, Run(profiles, c, ops))
    decreases ops
  {
    if ops != [] {
      match ops[0] {
        case PrepareOp(key) => PrepareKeepsCoherent(profiles, c, key);
        case SetSizeOp(size) => DropKeepsCoherent(profiles, c.(size := size), -size);
      }
      RunKeepsCoherent(profiles, Do(profiles, c, ops[0]), ops[1..]);
    }
  }

  /** And with sizes of at least 2 it never outgrows the size in force. */
  lemma {:induction false} RunKeepsBound(profiles: nat -> Profile, c: Cache, ops: seq<Op>)
    requires 2 <= c.size && |c.items| <= c.size && forall op <- ops :: op.SetSizeOp? ==> op.size >= 2
    ensures |Run(profiles, c, ops).items| <= Run(profiles, c, ops).size
    decreases ops
  {
    if ops != [] {
      assert ops[0] in ops;
      assert forall op <- ops[1..] :: op in ops;
      RunKeepsBound(profiles, Do(profiles, c, ops[0]), ops[1..]);
    }
  }

  const INITIAL := Cache([], map[], 1000)

  /** Which keys are kept: a string that is not cached and can be prepared is added as the newest; if the list
      is full before, of the others only the newer half stays. */
  lemma PrepareKeeps(profiles: nat -> Profile, c: Cache, key: Key)
    requires key !in c.texts && Pipeline(profiles(key.0), key.1).Prepared? && 0 < c.size && |c.items| <= c.size
    ensures Prepare(profiles, c, key).0.items
         == (if |c.items| < c.size then c.items else c.items[c.size - (c.size + 1) / 2..]) + [key]
  {
  }

  /** Setting a size drops the oldest keys, as many as are too many. */
  lemma SetSizeKeeps(c: Cache, size: int)
    requires size > 0
    ensures SetSize(c, size).items == if |c.items| <= size then c.items else c.items[|c.items| - size..]
    ensures SetSize(c, size).size == size
  {
  }

  /** prepare always equals the uncached pipeline. */
  lemma CacheIsTransparent(profiles: nat -> Profile, ops: seq<Op>, key: Key)
    ensures Prepare(profiles, Run(profiles, INITIAL, ops), key).1 == Pipeline(profiles(key.0), key.1)
  {
    RunKeepsCoherent(profiles, INITIAL, ops);
    PrepareKeepsCoherent(profiles, Run(profiles, INITIAL, ops), key);
  }

  lemma OneKeyCoherent(profiles: nat -> Profile, key: Key, text: string, size: int)
    requires Pipeline(profiles(key.0), key.1) == Prepared(text)
    ensures Coherent(profiles, Cache([key], map[key := text], size))
  {
  }

  lemma FullCache(profiles: nat -> Profile, size: nat, a: Key) returns (full: Cache)
    requires size < 2 && Pipeline(profiles(a.0), a.1).Prepared?
    ensures full.size == size && Coherent(profiles, full) && |full.items| == size
    ensures forall key :: key in full.texts ==> key == a
  {
    if size == 0 {
      full := Cache([], map[], 0);
    } else {
      var text := Pipeline(profiles(a.0), a.1).text;
      full := Cache([a], map[a := text], 1);
      OneKeyCoherent(profiles, a, text, 1);
    }
  }

  /** A full cache of size 0 or 1: the slice bound -size // 2 drops nothing. */
  lemma NothingDropped(c: Cache)
    requires c.size in {0, 1} && |c.items| == c.size
    ensures MakeRoom(c).items == c.items
  {
  }

  /** So one more string overfills it. */
  lemma Overfilled(profiles: nat -> Profile, full: Cache, b: Key)
    requires full.size in {0, 1} && |full.items| == full.size && b !in full.texts
    requires Pipeline(profiles(b.0), b.1).Prepared?
    ensures |Prepare(profiles, full, b).0.items| == full.size + 1
  {
    NothingDropped(full);
  }

  /** 2 is needed: the sizes at which preparing one more string can never overfill a full cache are
      exactly those of at least 2, given two strings that can be prepared. */
  lemma BoundNeedsTwo(profiles: nat -> Profile, size: nat, a: Key, b: Key)
    requires a != b && Pipeline(profiles(a.0), a.1).Prepared? && Pipeline(profiles(b.0), b.1).Prepared?
    ensures size >= 2 <==>
      forall c: Cache, key :: c.size == size && Coherent(profiles, c) && |c.items| <= size ==>
        |Prepare(profiles, c, key).0.items| <= size
  {
    if size >= 2 {
      forall c: Cache, key | c.size == size && Coherent(profiles, c) && |c.items| <= size
        ensures |Prepare(profiles, c, key).0.items| <= size
      {
        PrepareKeepsBound(profiles, c, key);
      }
    } else {
      var full := FullCache(profiles, size, a);
      Overfilled(profiles, full, b);
    }
  }

  // ---- The objects

  class ProfileCache {
    const profiles: nat -> Profile
    var cacheItems: seq<Key>
    var texts: map<Key, string>
    var size: int

    ghost function Now(): Cache
      reads this
    {
      Cache(cacheItems, texts, size)
    }

    constructor (profiles: nat -> Profile)
      ensures this.profiles == profiles && Now() == INITIAL && Coherent(profiles, Now())
    {
      this.profiles := profiles;
      cacheItems, texts, size := [], map[], 1000;
    }

    /** The eviction loop: a key that is cached no more is passed over. */
    method Evict(k: int)
      modifies this
      ensures Now() == DropBefore(old(Now()), k)
    {
      var b := Bound(k, |cacheItems|);
      for i := 0 to b
        invariant cacheItems == old(cacheItems) && size == old(size)
        invariant texts == old(texts) - Keys(cacheItems[..i])
      {
        assert cacheItems[..i + 1] == cacheItems[..i] + [cacheItems[i]];
        KeysSnoc(cacheItems[..i], cacheItems[i]);
        texts := texts - {cacheItems[i]};
      }
      cacheItems := cacheItems[b..];
    }

    method PrepareText(profile: nat, data: string) returns (r: Outcome)
      requires Coherent(profiles, Now())
      modifies this
      ensures Coherent(profiles, Now()) && r == Pipeline(profiles(profile), data)
      ensures (Now(), r) == Prepare(profiles, old(Now()), (profile, data))
      ensures size >= 2 && |old(cacheItems)| <= size ==> |cacheItems| <= size
    {
      PrepareKeepsCoherent(profiles, Now(), (profile, data));
      if size >= 2 && |cacheItems| <= size {
        PrepareKeepsBound(profiles, Now(), (profile, data));
      }
      var key := (profile, data);
      if key in texts {
        return Prepared(texts[key]);
      }
      r := RunPipeline(profiles(profile), data);
      if !r.Prepared? {
        return;
      }
      if |cacheItems| >= size {
        Evict(KeepBound(size));
      }
      cacheItems := cacheItems + [key];
      texts := texts[key := r.text];
    }

    method SetCacheSize(newSize: int)
      requires Coherent(profiles, Now())
      modifies this
      ensures Coherent(profiles, Now()) && Now() == SetSize(old(Now()), newSize)
      ensures newSize > 0 ==> |cacheItems| <= newSize
    {
      SetSizeWorks(profiles, Now(), newSize);
      Resize(newSize);
    }

    method Resize(newSize: int)
      modifies this
      ensures Now() == SetSize(old(Now()), newSize)
    {
      size := newSize;
      if |cacheItems| > newSize {
        Evict(-newSize);
      }
    }
  }

  lemma SetSizeWorks(profiles: nat -> Profile, c: Cache, size: int)
    requires Coherent(profiles, c)
    ensures Coherent(profiles, SetSize(c, size))
    ensures size > 0 ==> |SetSize(c, size).items| <= size
  {
    DropKeepsCoherent(profiles, c.(size := size), -size);
  }

  method RunUnnormalized(p: Profile, parts: seq<string>) returns (r: Outcome)
    ensures r == Unnormalized(p, parts) && !r.Prepared?
  {
    var v := CheckParts(parts, p.prohibited);
    if v == Fine {
      FineParts(parts, p.prohibited, p.unassigned);
      v := CheckParts(parts, p.unassigned);
    }
    if v != Fine {
      return if v == Found then Refused else Raised;
    }
    if p.bidi {
      var s := JoinParts(parts);
      var ok := CheckBidi(p, s);
      if !ok {
        return Refused;
      }
    }
    return Raised;
  }

  method RunPipeline(p: Profile, data: string) returns (r: Outcome)
    ensures r == Pipeline(p, data)
    ensures r.Prepared? ==> p.normalization.Some? && !Any(r.text, p.prohibited) && !Any(r.text, p.unassigned)
  {
    var mapped := MapChars(p, data);
    if p.normalization.None? {
      r := RunUnnormalized(p, mapped);
      return;
    }
    var joined := JoinParts(mapped);
    var s := p.normalization.value(joined);
    var bad := FindsAny(s, p.prohibited);
    if bad {
      return Refused;
    }
    bad := FindsAny(s, p.unassigned);
    if bad {
      return Refused;
    }
    if p.bidi {
      var ok := CheckBidi(p, s);
      if !ok {
        return Refused;
      }
    }
    return Prepared(s);
  }
}
