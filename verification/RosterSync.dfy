/** The roster client: what results, pushes and loads make of the stored roster (pyxmpp2/roster.py). */
module RosterSync {
  import opened Text
  import opened Jid
  import opened Rosters

  // ---- Verification of received items

  const RESULT_SUBSCRIPTIONS := {None, Some("from"), Some("to"), Some("both")}
  const PUSH_SUBSCRIPTIONS := {None, Some("from"), Some("to"), Some("both"), Some("remove")}
  const ASKS := {None, Some("subscribe")}

  /** _verify with fix: unknown values become None. */
  function Fixed(item: Item, subscriptions: set<Option<string>>): Item {
    item.(subscription := if item.subscription in subscriptions then item.subscription else None,
          ask := if item.ask in ASKS then item.ask else None)
  }

  function FixedAll(items: seq<Item>): (r: seq<Item>)
    ensures |r| == |items| && forall i :: 0 <= i < |items| ==> r[i] == Fixed(items[i], RESULT_SUBSCRIPTIONS)
  {
    seq(|items|, i requires 0 <= i < |items| => Fixed(items[i], RESULT_SUBSCRIPTIONS))
  }

  /** An item that passes verify_roster_result as it is. */
  predicate Verified(item: Item) {
    item.subscription in RESULT_SUBSCRIPTIONS && item.ask in ASKS
  }

  ghost predicate Clean(items: seq<Item>) {
    DistinctJids(items) && forall x <- items :: Verified(x)
  }

  // ---- Pushes

  /** A verified push: removal, or addition with replacement. */
  function ApplyPush(items: seq<Item>, push: Item): seq<Item> {
    if push.subscription == REMOVE then Remove(items, push.jid) else Put(items, push)
  }

  function ApplyAll(items: seq<Item>, pushes: seq<Item>): seq<Item> {
    if pushes == [] then items else
      ApplyPush(ApplyAll(items, pushes[..|pushes| - 1]), pushes[|pushes| - 1])
  }

  function Touched(pushes: seq<Item>): set<JID> {
    set p <- pushes :: p.jid
  }

  /** The items whose JIDs are not in `jids`, in order. */
  function Untouched(items: seq<Item>, jids: set<JID>): seq<Item> {
    if items == [] then []
    else if items[|items| - 1].jid in jids then Untouched(items[..|items| - 1], jids)
    else Untouched(items[..|items| - 1], jids) + [items[|items| - 1]]
  }

  lemma {:induction false} RemoveConcat(a: seq<Item>, b: seq<Item>, jid: JID)
    ensures Remove(a + b, jid) == Remove(a, jid) + Remove(b, jid)
  {
    if b == [] {
      assert a + b == a;
    } else {
      assert (a + b)[..|a + b| - 1] == a + b[..|b| - 1];
      RemoveConcat(a, b[..|b| - 1], jid);
    }
  }

  lemma {:induction false} RemoveUntouched(items: seq<Item>, jids: set<JID>, jid: JID)
    ensures Remove(Untouched(items, jids), jid) == Untouched(items, jids + {jid})
  {
    if items != [] {
      var before, last := items[..|items| - 1], items[|items| - 1];
      RemoveUntouched(before, jids, jid);
      RemoveConcat(Untouched(before, jids), [last], jid);
      assert [last][..0] == [];
    }
  }

  lemma {:induction false} UntouchedConcat(a: seq<Item>, b: seq<Item>, jids: set<JID>)
    ensures Untouched(a + b, jids) == Untouched(a, jids) + Untouched(b, jids)
  {
    if b == [] {
      assert a + b == a;
    } else {
      assert (a + b)[..|a + b| - 1] == a + b[..|b| - 1];
      UntouchedConcat(a, b[..|b| - 1], jids);
    }
  }

  lemma {:induction false} UntouchedTwice(items: seq<Item>, a: set<JID>, b: set<JID>)
    requires a <= b
    ensures Untouched(Untouched(items, a), b) == Untouched(items, b)
  {
    if items != [] {
      var before, last := items[..|items| - 1], items[|items| - 1];
      UntouchedTwice(before, a, b);
      UntouchedConcat(Untouched(before, a), [last], b);
      assert [last][..0] == [];
    }
  }

  lemma {:induction false} AllTouched(items: seq<Item>, jids: set<JID>)
    requires forall x <- items :: x.jid in jids
    ensures Untouched(items, jids) == []
  {
    if items != [] {
      AllTouched(items[..|items| - 1], jids);
    }
  }

  lemma {:induction false} NothingTouched(items: seq<Item>)
    ensures Untouched(items, {}) == items
  {
    if items != [] {
      NothingTouched(items[..|items| - 1]);
    }
  }

  lemma PushSplits(kept: seq<Item>, made: seq<Item>, items: seq<Item>, jids: set<JID>, push: Item)
    requires kept == Untouched(items, jids)
    ensures ApplyPush(kept + made, push) == Untouched(items, jids + {push.jid}) + ApplyPush(made, push)
  {
    RemoveConcat(kept, made, push.jid);
    RemoveUntouched(items, jids, push.jid);
    if push.subscription != REMOVE {
      assert (Untouched(items, jids + {push.jid}) + Remove(made, push.jid)) + [push]
          == Untouched(items, jids + {push.jid}) + (Remove(made, push.jid) + [push]);
    }
  }

  lemma TouchedSnoc(pushes: seq<Item>, push: Item)
    ensures Touched(pushes + [push]) == Touched(pushes) + {push.jid}
  {
    forall j | j in Touched(pushes) ensures j in Touched(pushes + [push]) {
      var p :| p in pushes && p.jid == j;
      assert p in pushes + [push];
    }
    assert push in pushes + [push];
  }

  /** Pushes leave the items they do not name as they are, in front, and what follows depends on the
      pushes alone. */
  lemma {:induction false} PushesSplit(items: seq<Item>, pushes: seq<Item>)
    ensures ApplyAll(items, pushes) == Untouched(items, Touched(pushes)) + ApplyAll([], pushes)
    ensures forall x <- ApplyAll([], pushes) :: x.jid in Touched(pushes)
  {
    if pushes == [] {
      NothingTouched(items);
      assert Touched(pushes) == {};
      assert items + [] == items;
    } else {
      var before, push := pushes[..|pushes| - 1], pushes[|pushes| - 1];
      PushesSplit(items, before);
      assert pushes == before + [push];
      TouchedSnoc(before, push);
      PushSplits(Untouched(items, Touched(before)), ApplyAll([], before), items, Touched(before), push);
      RemoveKeeps(ApplyAll([], before), push.jid);
    }
  }

  /** Replay convergence: pushes that were already applied, in any selection and order as long as a
      full sequence naming their JIDs follows, leave no trace - not even in the order of the items. */
  lemma ReplayConverges(items: seq<Item>, earlier: seq<Item>, pushes: seq<Item>)
    requires Touched(earlier) <= Touched(pushes)
    ensures ApplyAll(ApplyAll(items, earlier), pushes) == ApplyAll(items, pushes)
  {
    PushesSplit(items, pushes);
    PushesSplit(ApplyAll(items, earlier), pushes);
    EarlierUntouched(items, earlier, Touched(pushes));
  }

  lemma EarlierUntouched(items: seq<Item>, earlier: seq<Item>, jids: set<JID>)
    requires Touched(earlier) <= jids
    ensures Untouched(ApplyAll(items, earlier), jids) == Untouched(items, jids)
  {
    PushesSplit(items, earlier);
    var kept, made := Untouched(items, Touched(earlier)), ApplyAll([], earlier);
    UntouchedConcat(kept, made, jids);
    UntouchedTwice(items, Touched(earlier), jids);
    AllTouched(made, jids);
    assert Untouched(kept, jids) + [] == Untouched(kept, jids);
  }

  /** The case the protocol promises: any prefix first, then the whole sequence. */
  lemma ReplayAfterPrefix(items: seq<Item>, pushes: seq<Item>, k: nat)
    requires k <= |pushes|
    ensures ApplyAll(ApplyAll(items, pushes[..k]), pushes) == ApplyAll(items, pushes)
  {
    ReplayConverges(items, pushes[..k], pushes);
  }

  // ---- The client

  datatype Held = Held(items: seq<Item>, version: Option<string>)
  datatype Client = Client(roster: Option<Held>, server: Option<JID>, versioning: bool,
                           sameDomain: (string, string) -> bool)

  datatype Event = RosterReceived | RosterNotReceived | RosterUpdated(old_: Option<Item>, item: Item)
  datatype PushReply = ServiceUnavailable | BadRequest | Ignored | Acknowledged

  /** _get_success. An empty roster is falsy, so a versioned answer without payload fails for it too.
      The payload's items have distinct JIDs, as its parser sees to. */
  function GetSuccess(c: Client, payload: Option<Held>): (Client, Event) {
    match payload
    case None =>
      if c.versioning && c.roster.Some? && c.roster.value.items != [] then (c, RosterReceived)
      else (c, RosterNotReceived)
    case Some(held) => (c.(roster := Some(Held(FixedAll(held.items), held.version))), RosterReceived)
  }

  function FindItem(items: seq<Item>, jid: JID): Option<Item> {
    if items == [] then None
    else if items[|items| - 1].jid == jid then Some(items[|items| - 1])
    else FindItem(items[..|items| - 1], jid)
  }

  predicate SenderRefused(c: Client, from_: Option<JID>) {
    from_.Some? && (c.server.None? || !SameJid(c.sameDomain, from_, c.server))
  }

  /** handle_roster_push; the event is None when none is emitted. */
  function HandlePush(c: Client, from_: Option<JID>, payload: seq<Item>): (Client, PushReply, Option<Event>) {
    if SenderRefused(c, from_) then (c, ServiceUnavailable, None)
    else if |payload| != 1 then (c, BadRequest, None)
    else if c.roster.None? then (c, Ignored, None)
    else
      var item := Fixed(payload[0], PUSH_SUBSCRIPTIONS);
      var held := c.roster.value;
      (c.(roster := Some(held.(items := ApplyPush(held.items, item)))), Acknowledged,
       Some(RosterUpdated(FindItem(held.items, item.jid), item)))
  }

  /** load_roster of what a file held: the Roster constructor refuses a "remove" item, then the items are
      verified with fixing. */
  ghost function Accept(read: Result<Held>): Result<Held> {
    match read
    case Bad => Bad
    case Good(held) => if Storable(held.items) then Good(held.(items := FixedAll(held.items))) else Bad
  }

  ghost function LoadFile(c: Client, file: Result<Held>): Client {
    if Accept(file).Good? then c.(roster := Some(Accept(file).value)) else c
  }

  datatype Op = GotFeatures(versioning: bool) | Authorized(me: JID) | Load(file: Result<Held>)
              | Received(payload: Option<Held>) | Push(from_: Option<JID>, items: seq<Item>)

  ghost function Do(c: Client, op: Op): Client {
    match op
    case GotFeatures(versioning) => c.(versioning := versioning)
    case Authorized(me) => c.(server := Some(BareJid(me)))
    case Load(file) => LoadFile(c, file)
    case Received(payload) => GetSuccess(c, payload).0
    case Push(from_, items) => HandlePush(c, from_, items).0
  }

  ghost function Run(c: Client, ops: seq<Op>): Client
    decreases ops
  {
    if ops == [] then c else Run(Do(c, ops[0]), ops[1..])
  }

  ghost predicate Parsed(ops: seq<Op>) {
    forall op <- ops :: op.Received? && op.payload.Some? ==> DistinctJids(op.payload.value.items)
  }

  ghost predicate RosterClean(c: Client) {
    c.roster.Some? ==> Clean(c.roster.value.items)
  }

  /** What the Roster constructor is given in _get_success it never rejects. */
  lemma FixedIsClean(items: seq<Item>)
    requires DistinctJids(items)
    ensures Clean(FixedAll(items)) && Storable(FixedAll(items))
  {
    forall x | x in FixedAll(items) ensures Verified(x) && x.subscription != REMOVE {
      var i :| 0 <= i < |items| && FixedAll(items)[i] == x;
    }
  }

  lemma PushKeepsClean(items: seq<Item>, push: Item)
    requires Clean(items)
    ensures Clean(ApplyPush(items, Fixed(push, PUSH_SUBSCRIPTIONS)))
  {
    RemoveKeeps(items, push.jid);
    PutKeeps(items, Fixed(push, PUSH_SUBSCRIPTIONS));
  }

  lemma DoKeepsClean(c: Client, op: Op)
    requires RosterClean(c) && Parsed([op])
    ensures RosterClean(Do(c, op))
  {
    assert op in [op];
    match op
    case Load(Good(held)) =>
      if Storable(held.items) { FixedIsClean(held.items); }
    case Received(Some(held)) => FixedIsClean(held.items);
    case Push(from_, items) =>
      if |items| == 1 && c.roster.Some? {
        PushKeepsClean(c.roster.value.items, items[0]);
      }
    case _ =>
  }

  /** Whatever is received or loaded, the stored roster has no duplicate JID and no "remove" item. */
  lemma {:induction false} RosterStaysClean(c: Client, ops: seq<Op>)
    requires RosterClean(c) && Parsed(ops)
    ensures RosterClean(Run(c, ops))
    decreases ops
  {
    if ops != [] {
      assert ops[0] in ops;
      DoKeepsClean(c, ops[0]);
      assert forall op <- ops[1..] :: op in ops;
      RosterStaysClean(Do(c, ops[0]), ops[1..]);
    }
  }

  /** The pushes among `ops` that change the roster, as verified. */
  ghost function AcceptedPushes(c: Client, ops: seq<Op>): seq<Item>
    decreases ops
  {
    if ops == [] then [] else AcceptedPush(c, ops[0]) + AcceptedPushes(Do(c, ops[0]), ops[1..])
  }

  function AcceptedPush(c: Client, op: Op): seq<Item> {
    if op.Push? && HandlePush(c, op.from_, op.items).1 == Acknowledged then [Fixed(op.items[0], PUSH_SUBSCRIPTIONS)]
    else []
  }

  lemma {:induction false} ApplyAllConcat(items: seq<Item>, a: seq<Item>, b: seq<Item>)
    ensures ApplyAll(items, a + b) == ApplyAll(ApplyAll(items, a), b)
  {
    if b == [] {
      assert a + b == a;
    } else {
      assert (a + b)[..|a + b| - 1] == a + b[..|b| - 1];
      ApplyAllConcat(items, a, b[..|b| - 1]);
    }
  }

  ghost predicate SetsRoster(op: Op) {
    op.Received? || op.Load?
  }

  /** One operation that sets no roster applies the pushes it accepts, and keeps the version. */
  lemma DoKeepsVersion(c: Client, op: Op)
    requires c.roster.Some? && !SetsRoster(op)
    ensures var first := AcceptedPush(c, op);
      Do(c, op).roster == Some(Held(ApplyAll(c.roster.value.items, first), c.roster.value.version))
  {
    var first := AcceptedPush(c, op);
    if first != [] {
      assert first[..0] == [];
    }
  }

  /** Between results and loads the roster is the last one received or loaded with the accepted pushes applied, and its
      version is untouched: so the same deltas can be sent again. */
  lemma {:induction false} PushesKeepVersion(c: Client, ops: seq<Op>)
    requires c.roster.Some? && forall op <- ops :: !SetsRoster(op)
    ensures Run(c, ops).roster
      == Some(Held(ApplyAll(c.roster.value.items, AcceptedPushes(c, ops)), c.roster.value.version))
    decreases ops
  {
    if ops != [] {
      assert ops[0] in ops;
      assert forall op <- ops[1..] :: op in ops;
      DoKeepsVersion(c, ops[0]);
      PushesKeepVersion(Do(c, ops[0]), ops[1..]);
      ApplyAllConcat(c.roster.value.items, AcceptedPush(c, ops[0]), AcceptedPushes(Do(c, ops[0]), ops[1..]));
    }
  }

  // ---- What one operation does, told without its functions

  /** Pushes are taken from nobody in particular, or from our own server. */
  predicate Entitled(c: Client, from_: Option<JID>) {
    from_.None? || (&& c.server.Some? && from_.value.local == c.server.value.local
                    && from_.value.resource == c.server.value.resource
                    && c.sameDomain(from_.value.domain, c.server.value.domain))
  }

  /** y is x with values it cannot have taken out; only a push can have the subscription "remove". */
  predicate IsVerified(x: Item, y: Item, push: bool) {
    && y.jid == x.jid && y.name == x.name && y.groups == x.groups && y.approved == x.approved
    && y.duplicateGroup == x.duplicateGroup
    && y.subscription == (if x.subscription == Some("from") || x.subscription == Some("to")
                             || x.subscription == Some("both") || (push && x.subscription == Some("remove"))
                          then x.subscription else None)
    && y.ask == (if x.ask == Some("subscribe") then x.ask else None)
  }

  /** A push from others changes nothing, and nor does one that has not exactly one item; with a roster to
      change, any other is acknowledged. */
  lemma PushIsAnswered(c: Client, from_: Option<JID>, payload: seq<Item>)
    ensures var (c1, reply, event) := HandlePush(c, from_, payload);
      && reply == (if !Entitled(c, from_) then ServiceUnavailable else if |payload| != 1 then BadRequest
                   else if c.roster.None? then Ignored else Acknowledged)
      && (reply != Acknowledged ==> c1 == c && event.None?)
      && (reply == Acknowledged ==> event.Some? && event.value.RosterUpdated?
                                    && IsVerified(payload[0], event.value.item, true))
  {
  }

  /** What an acknowledged push does: the item with its JID goes, the others keep their places, and unless it
      is a removal the pushed item, verified, comes last. The event has the item that went, if there was one. */
  lemma PushTakesEffect(c: Client, from_: Option<JID>, payload: seq<Item>)
    requires HandlePush(c, from_, payload).1 == Acknowledged && DistinctJids(c.roster.value.items)
    ensures var (c1, _, event) := HandlePush(c, from_, payload); var x := event.value.item;
      var items, now := c.roster.value.items, c1.roster.value.items;
      var added := if payload[0].subscription == Some("remove") then [] else [x];
      && c1 == c.(roster := Some(Held(now, c.roster.value.version)))
      && (forall k :: 0 <= k < |items| && items[k].jid == payload[0].jid ==>
            now == items[..k] + items[k + 1..] + added && event.value.old_ == Some(items[k]))
      && ((forall i :: 0 <= i < |items| ==> items[i].jid != payload[0].jid) ==>
            now == items + added && event.value.old_ == None)
  {
    var items, jid := c.roster.value.items, payload[0].jid;
    forall k | 0 <= k < |items| && items[k].jid == jid
      ensures Remove(items, jid) == items[..k] + items[k + 1..] && FindItem(items, jid) == Some(items[k])
    {
      RemoveAt(items, k);
      FindAt(items, k);
    }
    if !HasJid(items, jid) {
      RemoveAbsent(items, jid);
      FindNothing(items, jid);
    }
    var removed := Remove(items, jid);
    assert removed + [] == removed;
  }

  /** So an item that is pushed with "both" is in the roster afterwards, and one with "remove" is not. */
  lemma PushedIsStored(c: Client, from_: Option<JID>, payload: seq<Item>)
    requires HandlePush(c, from_, payload).1 == Acknowledged && DistinctJids(c.roster.value.items)
    ensures var now := HandlePush(c, from_, payload).0.roster.value.items;
      && (payload[0].subscription == Some("remove") ==> forall x <- now :: x.jid != payload[0].jid)
      && (payload[0].subscription != Some("remove") ==>
            && now != [] && IsVerified(payload[0], now[|now| - 1], true)
            && forall i :: 0 <= i < |now| - 1 ==> now[i].jid != payload[0].jid)
  {
    RemoveKeeps(c.roster.value.items, payload[0].jid);
    var removed := Remove(c.roster.value.items, payload[0].jid);
    assert forall i :: 0 <= i < |removed| ==> removed[i] in removed;
  }

  /** Item by item, verified. */
  predicate AllVerified(received: seq<Item>, stored: seq<Item>) {
    |stored| == |received| && forall i :: 0 <= i < |received| ==> IsVerified(received[i], stored[i], false)
  }

  /** A result with a payload is stored, item by item; one without keeps the roster, and is good news only
      with versioning and a roster that is not empty. */
  lemma ResultIsStored(c: Client, payload: Option<Held>)
    ensures var (c1, event) := GetSuccess(c, payload);
      match payload
      case Some(held) =>
        && event == RosterReceived && c1.roster.Some? && c1 == c.(roster := c1.roster)
        && AllVerified(held.items, c1.roster.value.items) && c1.roster.value.version == held.version
      case None =>
        && c1 == c
        && event == if c.versioning && c.roster.Some? && c.roster.value.items != [] then RosterReceived
                    else RosterNotReceived
  {
  }

  /** A file is loaded the same way, unless it cannot be read, an item has the subscription "remove" or a JID
      is there twice. */
  lemma FileIsStored(c: Client, file: Result<Held>)
    ensures var c1 := LoadFile(c, file);
      var good := file.Good? && DistinctJids(file.value.items)
                  && forall x <- file.value.items :: x.subscription != Some("remove");
      && (!good ==> c1 == c)
      && (good ==> c1.roster.Some? && c1 == c.(roster := c1.roster)
                   && AllVerified(file.value.items, c1.roster.value.items)
                   && c1.roster.value.version == file.value.version)
  {
  }

  /** Our own server is our JID without its resource. */
  lemma ServerIsOurs(c: Client, me: JID)
    ensures Do(c, Authorized(me)) == c.(server := Some(JID(me.local, me.domain, None)))
  {
  }

  // ---- The object

  class RosterClient {
    var roster: Roster?
    var server: Option<JID>
    var versioning: bool
    const sameDomain: (string, string) -> bool
    var events: seq<Event>

    ghost function Now(): Client
      reads this, roster
    {
      Client(if roster == null then None else Some(Held(roster.items, roster.version)), server, versioning, sameDomain)
    }

    ghost predicate Valid()
      reads this, roster
    {
      (roster != null ==> roster.Valid()) && RosterClean(Now())
    }

    constructor (sameDomain: (string, string) -> bool)
      ensures Valid() && Now() == Client(None, None, false, sameDomain) && events == []
    {
      roster, server, versioning, this.sameDomain, events := null, None, false, sameDomain, [];
    }

    /** load_roster; a file that is refused is a ValueError and changes nothing. */
    method LoadRoster(file: Result<Held>) returns (raised: bool)
      requires Valid()
      modifies this
      ensures roster != null ==> (roster == old(roster) || fresh(roster))
      ensures Valid() && Now() == LoadFile(old(Now()), file) && events == old(events)
      ensures raised <==> Accept(file).Bad?
    {
      if file.Bad? {
        return true;
      }
      var made := MakeRoster(file.value.items, file.value.version);
      if made.None? {
        return true;
      }
      FixedIsClean(file.value.items);
      FixedIsIndexed(made.value.items, made.value.jids);
      var fixed := FixAll(made.value.items);
      made.value.items := fixed;
      roster := made.value;
      assert Now().roster == Some(Accept(file).value);
      return false;
    }

    /** The verification loop. */
    method FixAll(items: seq<Item>) returns (fixed: seq<Item>)
      ensures fixed == FixedAll(items)
    {
      fixed := [];
      for i := 0 to |items|
        invariant fixed == FixedAll(items)[..i]
      {
        fixed := fixed + [Fixed(items[i], RESULT_SUBSCRIPTIONS)];
      }
    }

    method OnGetSuccess(payload: Option<Held>)
      requires Valid() && (payload.Some? ==> DistinctJids(payload.value.items))
      modifies this
      ensures roster != null ==> (roster == old(roster) || fresh(roster))
      ensures Valid() && (Now(), events) == var r := GetSuccess(old(Now()), payload); (r.0, old(events) + [r.1])
      ensures payload.Some? ==> roster != null && AllVerified(payload.value.items, roster.items)
    {
      ResultIsStored(Now(), payload);
      if payload.None? {
        if !(versioning && roster != null && |roster.items| != 0) {
          events := events + [RosterNotReceived];
          return;
        }
      } else {
        FixedIsClean(payload.value.items);
        var items := FixAll(payload.value.items);
        var made := MakeRoster(items, payload.value.version);
        roster := made.value;
        assert Now().roster == Some(Held(FixedAll(payload.value.items), payload.value.version));
      }
      events := events + [RosterReceived];
    }

    method OnRosterPush(from_: Option<JID>, payload: seq<Item>) returns (reply: PushReply)
      requires Valid()
      modifies this, roster
      ensures roster == old(roster)
      ensures Valid() && var r := HandlePush(old(Now()), from_, payload);
        && Now() == r.0 && reply == r.1
        && events == old(events) + (if r.2.Some? then [r.2.value] else [])
      ensures reply == ServiceUnavailable <==> !Entitled(old(Now()), from_)
      ensures reply != Acknowledged ==> Now() == old(Now()) && events == old(events)
    {
      PushIsAnswered(Now(), from_, payload);
      assert events + [] == events;
      if server.None? && from_.Some? {
        return ServiceUnavailable;
      }
      if server.Some? && from_.Some? && !SameJid(sameDomain, from_, server) {
        return ServiceUnavailable;
      }
      if |payload| != 1 {
        return BadRequest;
      }
      if roster == null {
        return Ignored;
      }
      var item := Fixed(payload[0], PUSH_SUBSCRIPTIONS);
      PushKeepsClean(roster.items, payload[0]);
      UpdateRoster(item);
      return Acknowledged;
    }

    /** The part of handle_roster_push that changes the roster. */
    method UpdateRoster(item: Item)
      requires Valid() && roster != null && Clean(ApplyPush(roster.items, item))
      modifies this, roster
      ensures Valid() && roster == old(roster)
      ensures Now() == old(Now()).(roster := Some(Held(ApplyPush(old(roster.items), item), roster.version)))
      ensures events == old(events) + [RosterUpdated(FindItem(old(roster.items), item.jid), item)]
    {
      FindIsIndexed(roster.items, roster.jids, item.jid);
      var oldItem := if item.jid in roster.jids then Some(roster.items[roster.jids[item.jid]]) else None;
      if item.subscription == REMOVE {
        if oldItem.Some? {
          var missing := roster.RemoveItem(item.jid);
        } else {
          RemoveAbsent(roster.items, item.jid);
        }
      } else {
        var raised := roster.AddItem(item, true);
      }
      events := events + [RosterUpdated(oldItem, item)];
    }
  }

  lemma FixedIsIndexed(items: seq<Item>, jids: map<JID, int>)
    requires Indexes(jids, items)
    ensures Indexes(jids, FixedAll(items))
  {
    forall j ensures HasJid(FixedAll(items), j) <==> HasJid(items, j) {
      if HasJid(items, j) {
        var i :| 0 <= i < |items| && items[i].jid == j;
        assert FixedAll(items)[i].jid == j;
      }
    }
  }

  /** Looking an item up through the index finds the item with the JID, if there is one. */
  lemma {:induction false} FindIsIndexed(items: seq<Item>, jids: map<JID, int>, jid: JID)
    requires Indexes(jids, items)
    ensures jid in jids ==> 0 <= jids[jid] < |items|
    ensures FindItem(items, jid) == if jid in jids then Some(items[jids[jid]]) else None
  {
    if jid in jids {
      assert HasJid(items, jid);
      FindAt(items, jids[jid]);
    } else {
      assert !HasJid(items, jid);
      FindNothing(items, jid);
    }
  }

  lemma {:induction false} FindAt(items: seq<Item>, k: nat)
    requires DistinctJids(items) && k < |items|
    ensures FindItem(items, items[k].jid) == Some(items[k])
  {
    if k < |items| - 1 {
      FindAt(items[..|items| - 1], k);
    }
  }

  lemma {:induction false} FindNothing(items: seq<Item>, jid: JID)
    requires !HasJid(items, jid)
    ensures FindItem(items, jid) == None
  {
    if items != [] {
      var before := items[..|items| - 1];
      assert items[|items| - 1].jid != jid;
      assert forall i :: 0 <= i < |before| ==> before[i] == items[i] && items[i].jid != jid;
      FindNothing(before, jid);
    }
  }
}
