/** The timeout scheduler of the main loop (pyxmpp2/mainloop/base.py). The clock is read once per call;
    what the handlers do is an input. */
module Scheduler {
  import opened Text

  /** A timeout handler: its interval, and whether it recurs: yes, no, or as its result says. */
  datatype Handler = Handler(id: nat, interval: real, recurring: Option<bool>)

  datatype Entry = Entry(schedule: real, handler: Handler)

  ghost predicate Sorted(es: seq<Entry>) {
    forall i, j :: 0 <= i < j < |es| ==> es[i].schedule <= es[j].schedule
  }

  /** Appending an entry to a sorted list and sorting, which is stable: it lands after its equals. */
  function Insert(es: seq<Entry>, e: Entry): seq<Entry> {
    if es == [] || es[|es| - 1].schedule <= e.schedule then es + [e]
    else Insert(es[..|es| - 1], e) + [es[|es| - 1]]
  }

  lemma {:induction false} InsertKeeps(es: seq<Entry>, e: Entry)
    ensures multiset(Insert(es, e)) == multiset(es) + multiset{e}
    ensures forall x <- Insert(es, e) :: x == e || x in es
  {
    if es != [] && es[|es| - 1].schedule > e.schedule {
      InsertKeeps(es[..|es| - 1], e);
      assert es == es[..|es| - 1] + [es[|es| - 1]];
    }
  }

  lemma {:induction false} InsertSorts(es: seq<Entry>, e: Entry)
    requires Sorted(es)
    ensures Sorted(Insert(es, e))
  {
    if es != [] && es[|es| - 1].schedule > e.schedule {
      var before, last := es[..|es| - 1], es[|es| - 1];
      InsertSorts(before, e);
      InsertKeeps(before, e);
      forall i | 0 <= i < |Insert(before, e)| ensures Insert(before, e)[i].schedule <= last.schedule {
        assert Insert(before, e)[i] in Insert(before, e);
        assert forall k :: 0 <= k < |before| ==> before[k] == es[k];
      }
    }
  }

  /** An entry later than some of a sorted list leaves those in front as they were. */
  lemma {:induction false} InsertAfter(es: seq<Entry>, e: Entry, k: nat)
    requires k <= |es| && Sorted(es) && forall i :: 0 <= i < k ==> es[i].schedule <= e.schedule
    ensures |Insert(es, e)| == |es| + 1 && Insert(es, e)[..k] == es[..k]
    ensures Insert(es, e)[k..] == Insert(es[k..], e)
  {
    if es != [] && es[|es| - 1].schedule > e.schedule {
      var before, last := es[..|es| - 1], es[|es| - 1];
      InsertAfter(before, e, k);
      assert es[k..][..|es| - k - 1] == before[k..];
      assert Insert(es, e)[k..] == Insert(before, e)[k..] + [last];
    } else if k < |es| {
      assert (es + [e])[k..] == es[k..] + [e];
    } else {
      assert es[k..] == [];
    }
  }

  /** When a handler that was called at `now` runs again, if it does. */
  function Again(h: Handler, result: Option<real>, now: real): Option<Entry> {
    match h.recurring
    case Some(true) => Some(Entry(now + h.interval, h))
    case Some(false) => None
    case None => if result.Some? then Some(Entry(now + result.value, h)) else None
  }

  /** What a call does: the result, the entries of handlers added while it runs, and whether the events
      checked after it hold a QUIT. */
  datatype Reaction = Reaction(result: Option<real>, added: seq<Entry>, quit: bool)

  function InsertAll(es: seq<Entry>, more: seq<Entry>): seq<Entry> {
    if more == [] then es else Insert(InsertAll(es, more[..|more| - 1]), more[|more| - 1])
  }

  function PutBack(es: seq<Entry>, again: Option<Entry>): seq<Entry> {
    if again.Some? then Insert(es, again.value) else es
  }

  /** What is put into the list by a call of the handler. */
  function Follow(es: seq<Entry>, h: Handler, r: Reaction, now: real): seq<Entry> {
    PutBack(InsertAll(es, r.added), Again(h, r.result, now))
  }

  // ---- The loop, whatever the intervals

  /** One pass: the first handler is called. */
  function Pass(es: seq<Entry>, r: Reaction, now: real): seq<Entry>
    requires es != []
  {
    Follow(es[1..], es[0].handler, r, now)
  }

  /** The calls made, the list afterwards, and whether a QUIT ended the loop; `ended` is false if the loop
      is not over after as many calls as there are reactions. */
  datatype Outcome = Outcome(called: seq<Entry>, left: seq<Entry>, quit: bool, ended: bool)

  function Loop(es: seq<Entry>, rs: seq<Reaction>, now: real): Outcome
    decreases |rs|
  {
    if es == [] || es[0].schedule > now then Outcome([], es, false, true)
    else if rs == [] then Outcome([], es, false, false)
    else if rs[0].quit then Outcome([es[0]], Pass(es, rs[0], now), true, true)
    else After([es[0]], Loop(Pass(es, rs[0], now), rs[1..], now))
  }

  function After(called: seq<Entry>, o: Outcome): Outcome {
    o.(called := called + o.called)
  }

  lemma {:induction false} InsertAllSorts(es: seq<Entry>, more: seq<Entry>)
    requires Sorted(es)
    ensures Sorted(InsertAll(es, more))
  {
    if more != [] {
      InsertAllSorts(es, more[..|more| - 1]);
      InsertSorts(InsertAll(es, more[..|more| - 1]), more[|more| - 1]);
    }
  }

  lemma {:induction false} InsertAllKeeps(es: seq<Entry>, more: seq<Entry>)
    ensures forall x <- InsertAll(es, more) :: x in more || x in es
    ensures forall x <- es :: x in InsertAll(es, more)
  {
    if more != [] {
      InsertAllKeeps(es, more[..|more| - 1]);
      InsertKeeps(InsertAll(es, more[..|more| - 1]), more[|more| - 1]);
      InsertHas(InsertAll(es, more[..|more| - 1]), more[|more| - 1]);
    }
  }

  lemma {:induction false} InsertHas(es: seq<Entry>, e: Entry)
    ensures e in Insert(es, e) && forall x <- es :: x in Insert(es, e)
  {
    if es != [] && es[|es| - 1].schedule > e.schedule {
      InsertHas(es[..|es| - 1], e);
      assert es == es[..|es| - 1] + [es[|es| - 1]];
    }
  }

  lemma FollowSorts(es: seq<Entry>, h: Handler, r: Reaction, now: real)
    requires Sorted(es)
    ensures Sorted(Follow(es, h, r, now))
  {
    InsertAllSorts(es, r.added);
    var again := Again(h, r.result, now);
    if again.Some? {
      InsertSorts(InsertAll(es, r.added), again.value);
    }
  }

  lemma {:induction false} InsertAllMakes(es: seq<Entry>, more: seq<Entry>)
    ensures multiset(InsertAll(es, more)) == multiset(es) + multiset(more)
  {
    if more != [] {
      var before, last := more[..|more| - 1], more[|more| - 1];
      InsertAllMakes(es, before);
      InsertKeeps(InsertAll(es, before), last);
      CountsSnoc(before, last);
      assert more == before + [last];
      CountsAssociate(multiset(es), multiset(before), last);
    }
  }

  lemma {:induction false} CountsSnoc(es: seq<Entry>, e: Entry)
    ensures multiset(es + [e]) == multiset(es) + multiset{e}
  {
  }

  lemma {:induction false} CountsAssociate(a: multiset<Entry>, b: multiset<Entry>, e: Entry)
    ensures (a + b) + multiset{e} == a + (b + multiset{e})
  {
  }

  /** What a pass leaves, told without its functions: the others, what was added, and the handler called, after
      its interval if it recurs, or after what it returned if that is left to it. */
  lemma PassIs(es: seq<Entry>, r: Reaction, now: real)
    requires es != []
    ensures var h := es[0].handler;
      multiset(Pass(es, r, now)) == multiset(es[1..]) + multiset(r.added)
      + (if h.recurring == Some(true) then multiset{Entry(now + h.interval, h)}
         else if h.recurring == None && r.result.Some? then multiset{Entry(now + r.result.value, h)}
         else multiset{})
  {
    InsertAllMakes(es[1..], r.added);
    var again := Again(es[0].handler, r.result, now);
    if again.Some? {
      InsertKeeps(InsertAll(es[1..], r.added), again.value);
    }
  }

  /** In particular a handler that recurs is there again, one interval from now. */
  lemma ComesAgain(es: seq<Entry>, r: Reaction, now: real)
    requires es != [] && es[0].handler.recurring == Some(true)
    ensures Entry(now + es[0].handler.interval, es[0].handler) in Pass(es, r, now)
  {
    InsertHas(InsertAll(es[1..], r.added), Entry(now + es[0].handler.interval, es[0].handler));
  }

  /** The list stays sorted, and without QUIT nothing due is left. */
  lemma {:induction false} LoopSorts(es: seq<Entry>, rs: seq<Reaction>, now: real)
    requires Sorted(es)
    ensures var o := Loop(es, rs, now); Sorted(o.left) && (o.ended && !o.quit ==> NoneDue(o.left, now))
    decreases |rs|
  {
    if es != [] && es[0].schedule <= now && rs != [] {
      FollowSorts(es[1..], es[0].handler, rs[0], now);
      LoopSorts(Pass(es, rs[0], now), rs[1..], now);
    }
  }

  ghost predicate NoneDue(es: seq<Entry>, now: real) {
    forall x <- es :: x.schedule > now
  }

  /** A due handler that recurs, and never at a later time. */
  predicate Relentless(x: Entry, now: real) {
    x.schedule <= now && x.handler.recurring == Some(true) && x.handler.interval <= 0.0
  }

  ghost predicate NoQuit(rs: seq<Reaction>) {
    forall r <- rs :: !r.quit
  }

  /** After a pass there is such a handler again. */
  lemma PassKeepsRelentless(es: seq<Entry>, x: Entry, r: Reaction, now: real) returns (y: Entry)
    requires x in es && Relentless(x, now)
    ensures y in Pass(es, r, now) && Relentless(y, now)
  {
    var rest := InsertAll(es[1..], r.added);
    var again := Again(es[0].handler, r.result, now);
    InsertAllKeeps(es[1..], r.added);
    assert es == [es[0]] + es[1..];
    if again.Some? {
      InsertHas(rest, again.value);
    }
    y := if x == es[0] then again.value else x;
  }

  lemma {:induction false} RelentlessNeverEnds(es: seq<Entry>, rs: seq<Reaction>, now: real, x: Entry)
    requires Sorted(es) && x in es && Relentless(x, now) && NoQuit(rs)
    ensures !Loop(es, rs, now).ended
    decreases |rs|
  {
    assert es[0].schedule <= x.schedule;
    if rs != [] {
      assert rs[0] in rs && forall r <- rs[1..] :: r in rs;
      var y := PassKeepsRelentless(es, x, rs[0], now);
      FollowSorts(es[1..], es[0].handler, rs[0], now);
      RelentlessNeverEnds(Pass(es, rs[0], now), rs[1..], now, y);
    }
  }

  /** The loop can end without a QUIT, if the handlers behave, if and only if no due handler recurs with an
      interval of 0 or less. With such a handler it cannot, whatever the others do. */
  lemma EndsIff(es: seq<Entry>, now: real)
    requires Sorted(es)
    ensures (exists rs :: NoQuit(rs) && Loop(es, rs, now).ended) <==> forall x <- es :: !Relentless(x, now)
  {
    if x :| x in es && Relentless(x, now) {
      forall rs | NoQuit(rs) ensures !Loop(es, rs, now).ended {
        RelentlessNeverEnds(es, rs, now, x);
      }
    } else {
      var n := DueCount(es, now);
      var rs := seq(n, _ => Reaction(None, [], false));
      forall i | 0 <= i < n ensures Advances(es[i].handler, rs[i], now) {
        assert es[i] in es && !Relentless(es[i], now);
      }
      assert NoQuit(rs);
      LoopAdvances(es, rs, now);
    }
  }

  // ---- The loop when what is put back comes later

  /** The call puts nothing into the list that is due. */
  ghost predicate Advances(h: Handler, r: Reaction, now: real) {
    && (h.recurring == Some(true) ==> h.interval > 0.0)
    && (h.recurring == None && r.result.Some? ==> r.result.value > 0.0)
    && NoneDue(r.added, now)
  }

  /** All due handlers are like that. */
  ghost predicate AllAdvance(es: seq<Entry>, rs: seq<Reaction>, now: real) {
    |rs| >= DueCount(es, now) && forall i :: 0 <= i < DueCount(es, now) ==> Advances(es[i].handler, rs[i], now)
  }

  /** How many entries at the front are due. */
  function DueCount(es: seq<Entry>, now: real): (n: nat)
    ensures n <= |es|
    ensures forall i :: 0 <= i < n ==> es[i].schedule <= now
    ensures n < |es| ==> es[n].schedule > now
  {
    if es == [] || es[0].schedule > now then 0 else 1 + DueCount(es[1..], now)
  }

  /** What the first k calls make of the entries `back` that are not due. */
  function Rescheduled(back: seq<Entry>, es: seq<Entry>, k: nat, rs: seq<Reaction>, now: real): seq<Entry>
    requires k <= |es| && k <= |rs|
  {
    if k == 0 then back else Follow(Rescheduled(back, es, k - 1, rs, now), es[k - 1].handler, rs[k - 1], now)
  }

  lemma FollowLater(es: seq<Entry>, h: Handler, r: Reaction, now: real)
    requires Sorted(es) && NoneDue(es, now) && Advances(h, r, now)
    ensures Sorted(Follow(es, h, r, now)) && NoneDue(Follow(es, h, r, now), now)
  {
    FollowSorts(es, h, r, now);
    InsertAllKeeps(es, r.added);
    var again := Again(h, r.result, now);
    if again.Some? {
      InsertKeeps(InsertAll(es, r.added), again.value);
    }
  }

  lemma {:induction false} RescheduledLater(back: seq<Entry>, es: seq<Entry>, k: nat, rs: seq<Reaction>, now: real)
    requires k <= |es| && k <= |rs| && Sorted(back) && NoneDue(back, now)
    requires forall i :: 0 <= i < k ==> Advances(es[i].handler, rs[i], now)
    ensures Sorted(Rescheduled(back, es, k, rs, now)) && NoneDue(Rescheduled(back, es, k, rs, now), now)
  {
    if k > 0 {
      RescheduledLater(back, es, k - 1, rs, now);
      FollowLater(Rescheduled(back, es, k - 1, rs, now), es[k - 1].handler, rs[k - 1], now);
    }
  }

  /** What is pending after the first k calls: the due entries not called yet, then the others with
      those put back or added. */
  function Pending(es: seq<Entry>, k: nat, rs: seq<Reaction>, now: real): seq<Entry>
    requires k <= DueCount(es, now) && k <= |rs|
  {
    es[k..DueCount(es, now)] + Back(es, k, rs, now)
  }

  function Back(es: seq<Entry>, k: nat, rs: seq<Reaction>, now: real): seq<Entry>
    requires k <= DueCount(es, now) && k <= |rs|
  {
    Rescheduled(es[DueCount(es, now)..], es, k, rs, now)
  }

  lemma {:induction false} SortedTail(es: seq<Entry>, now: real)
    requires Sorted(es)
    ensures var n := DueCount(es, now); Sorted(es[n..]) && forall x <- es[n..] :: x.schedule > now
  {
    var n := DueCount(es, now);
    if n < |es| {
      forall x | x in es[n..] ensures x.schedule > now {
        var i :| 0 <= i < |es| - n && es[n..][i] == x;
        assert es[n].schedule <= es[n + i].schedule;
      }
    }
  }

  lemma {:induction false} InsertBehind(front: seq<Entry>, back: seq<Entry>, e: Entry)
    requires Sorted(front + back) && forall x <- front :: x.schedule <= e.schedule
    ensures Insert(front + back, e) == front + Insert(back, e)
  {
    var es, k := front + back, |front|;
    assert forall i :: 0 <= i < k ==> es[i] == front[i] && front[i] in front;
    InsertAfter(es, e, k);
    var r := Insert(es, e);
    assert r == r[..k] + r[k..] && es[k..] == back;
  }

  lemma {:induction false} InsertAllBehind(front: seq<Entry>, back: seq<Entry>, more: seq<Entry>, now: real)
    requires Sorted(front + back) && (forall x <- front :: x.schedule <= now) && NoneDue(more, now)
    ensures InsertAll(front + back, more) == front + InsertAll(back, more) && Sorted(front + InsertAll(back, more))
  {
    if more != [] {
      var before, last := more[..|more| - 1], more[|more| - 1];
      assert last in more;
      InsertAllBehind(front, back, before, now);
      InsertBehind(front, InsertAll(back, before), last);
      InsertSorts(front + InsertAll(back, before), last);
    }
  }

  /** A call leaves the due ones still waiting in front as they are. */
  lemma FollowBehind(front: seq<Entry>, back: seq<Entry>, h: Handler, r: Reaction, now: real)
    requires Sorted(front + back) && (forall x <- front :: x.schedule <= now) && Advances(h, r, now)
    ensures Follow(front + back, h, r, now) == front + Follow(back, h, r, now)
  {
    InsertAllBehind(front, back, r.added, now);
    var again := Again(h, r.result, now);
    if again.Some? {
      InsertBehind(front, InsertAll(back, r.added), again.value);
    }
  }

  lemma BackIsLater(es: seq<Entry>, k: nat, rs: seq<Reaction>, now: real)
    requires Sorted(es) && k <= DueCount(es, now) && AllAdvance(es, rs, now)
    ensures Sorted(Back(es, k, rs, now)) && NoneDue(Back(es, k, rs, now), now)
  {
    SortedTail(es, now);
    RescheduledLater(es[DueCount(es, now)..], es, k, rs, now);
  }

  lemma FrontAndBackSorted(es: seq<Entry>, k: nat, now: real, back: seq<Entry>)
    requires Sorted(es) && k <= DueCount(es, now) && Sorted(back) && forall x <- back :: x.schedule > now
    ensures var front := es[k..DueCount(es, now)];
      Sorted(front + back) && forall x <- front :: x.schedule <= now
  {
    var front := es[k..DueCount(es, now)];
    forall i | 0 <= i < |front| ensures front[i] == es[k + i] && front[i].schedule <= now {
    }
    forall i, j | 0 <= i < j < |front + back| ensures (front + back)[i].schedule <= (front + back)[j].schedule {
      assert j >= |front| ==> (front + back)[j] in back;
    }
  }

  /** A pass goes from what is pending to what is pending next. */
  lemma PendingStep(es: seq<Entry>, k: nat, rs: seq<Reaction>, now: real)
    requires Sorted(es) && k < DueCount(es, now) && AllAdvance(es, rs, now)
    ensures var p := Pending(es, k, rs, now);
      p != [] && p[0] == es[k] && Pass(p, rs[k], now) == Pending(es, k + 1, rs, now)
  {
    var front, back := es[k + 1..DueCount(es, now)], Back(es, k, rs, now);
    assert Pending(es, k, rs, now)[1..] == front + back;
    BackIsLater(es, k, rs, now);
    FrontAndBackSorted(es, k + 1, now, back);
    FollowBehind(front, back, es[k].handler, rs[k], now);
  }

  lemma NothingPending(es: seq<Entry>, rs: seq<Reaction>, now: real)
    requires Sorted(es) && AllAdvance(es, rs, now)
    ensures NoneDue(Pending(es, DueCount(es, now), rs, now), now)
  {
    BackIsLater(es, DueCount(es, now), rs, now);
  }

  /** Of the calls from k to n, those made until one is followed by a QUIT. */
  function CallsUntilQuit(rs: seq<Reaction>, k: nat, n: nat): (r: nat)
    requires k <= n <= |rs|
    ensures k <= r <= n && (r < n ==> r > k && rs[r - 1].quit)
    ensures forall i :: k <= i < r - 1 ==> !rs[i].quit
    decreases n - k
  {
    if k == n then n else if rs[k].quit then k + 1 else CallsUntilQuit(rs, k + 1, n)
  }

  predicate HasQuit(rs: seq<Reaction>, k: nat, n: nat)
    requires n <= |rs|
  {
    exists i :: k <= i < n && rs[i].quit
  }

  /** The loop from call k on. */
  ghost predicate EndsAt(es: seq<Entry>, k: nat, end: nat, rs: seq<Reaction>, now: real, o: Outcome)
    requires k <= end <= DueCount(es, now) <= |rs|
  {
    o == Outcome(es[k..end], Pending(es, end, rs, now), HasQuit(rs, k, DueCount(es, now)), true)
  }

  lemma EndsAtNext(es: seq<Entry>, k: nat, end: nat, rs: seq<Reaction>, now: real, o: Outcome)
    requires k + 1 <= end <= DueCount(es, now) <= |rs| && !rs[k].quit && EndsAt(es, k + 1, end, rs, now, o)
    ensures EndsAt(es, k, end, rs, now, After([es[k]], o))
  {
    assert [es[k]] + es[k + 1..end] == es[k..end];
  }

  lemma NoneDueEnds(es: seq<Entry>, rs: seq<Reaction>, now: real)
    requires NoneDue(es, now)
    ensures Loop(es, rs, now) == Outcome([], es, false, true)
  {
    assert es != [] ==> es[0] in es;
  }

  lemma {:induction false} LoopFrom(es: seq<Entry>, k: nat, rs: seq<Reaction>, now: real)
    requires Sorted(es) && k <= DueCount(es, now) && AllAdvance(es, rs, now)
    ensures EndsAt(es, k, CallsUntilQuit(rs, k, DueCount(es, now)), rs, now,
                   Loop(Pending(es, k, rs, now), rs[k..], now))
    decreases DueCount(es, now) - k
  {
    var n, p := DueCount(es, now), Pending(es, k, rs, now);
    if k == n {
      NothingPending(es, rs, now);
      NoneDueEnds(p, rs[k..], now);
    } else {
      PendingStep(es, k, rs, now);
      assert rs[k..][1..] == rs[k + 1..] && rs[k..][0] == rs[k];
      if rs[k].quit {
        assert es[k..k + 1] == [es[k]];
      } else {
        LoopFrom(es, k + 1, rs, now);
        EndsAtNext(es, k, CallsUntilQuit(rs, k + 1, n), rs, now, Loop(Pending(es, k + 1, rs, now), rs[k + 1..], now));
      }
    }
  }

  lemma PendingFirst(es: seq<Entry>, rs: seq<Reaction>, now: real)
    ensures Pending(es, 0, rs, now) == es
  {
    assert es[0..DueCount(es, now)] + es[DueCount(es, now)..] == es;
  }

  /** If what is put into the list comes later, the handlers due at first are called once each, in schedule
      order - all of them, or those up to a QUIT - and no others; and the loop ends. */
  lemma LoopAdvances(es: seq<Entry>, rs: seq<Reaction>, now: real)
    requires Sorted(es) && AllAdvance(es, rs, now)
    ensures var n := DueCount(es, now); var end := CallsUntilQuit(rs, 0, n);
      Loop(es, rs, now) == Outcome(es[..end], Pending(es, end, rs, now), HasQuit(rs, 0, n), true)
  {
    LoopFrom(es, 0, rs, now);
    PendingFirst(es, rs, now);
    assert rs[0..] == rs;
  }

  // ---- The object

  class MainLoopBase {
    var timeoutHandlers: seq<Entry>
    /** Handlers called so far. */
    var called: seq<Entry>

    ghost predicate Valid()
      reads this
    {
      Sorted(timeoutHandlers)
    }

    constructor ()
      ensures Valid() && timeoutHandlers == [] && called == []
    {
      timeoutHandlers, called := [], [];
    }

    /** _add_timeout_handler for an object with these handler methods. */
    method AddTimeoutHandler(methods: seq<Handler>, now: real)
      requires Valid()
      modifies this
      ensures Valid() && called == old(called)
      ensures Added(old(timeoutHandlers), timeoutHandlers, methods, now)
    {
      ghost var before := timeoutHandlers;
      AddedNone(before, methods, now);
      for i := 0 to |methods|
        invariant Sorted(timeoutHandlers) && called == old(called)
        invariant Added(before, timeoutHandlers, methods[..i], now)
      {
        AddedOneMore(before, timeoutHandlers, methods, i, now);
        timeoutHandlers := Insert(timeoutHandlers, Entry(now + methods[i].interval, methods[i]));
      }
      assert methods[..|methods|] == methods;
    }

    /** One pass of the loop: the first handler called, what it adds, and the handler itself if it recurs. */
    method CallFirst(now: real, r: Reaction)
      requires timeoutHandlers != []
      modifies this
      ensures called == old(called) + [old(timeoutHandlers)[0]]
      ensures timeoutHandlers == Pass(old(timeoutHandlers), r, now)
    {
      var e := timeoutHandlers[0];
      timeoutHandlers := InsertAll(timeoutHandlers[1..], r.added);
      called := called + [e];
      if e.handler.recurring == Some(true) {
        timeoutHandlers := Insert(timeoutHandlers, Entry(now + e.handler.interval, e.handler));
      } else if e.handler.recurring == None && r.result.Some? {
        timeoutHandlers := Insert(timeoutHandlers, Entry(now + r.result.value, e.handler));
      }
    }

    /** The loop of _call_timeout_handlers, if the handlers behave so that it ends. The schedule is the one
        looked at last. */
    method CallDue(now: real, rs: seq<Reaction>) returns (handled: nat, schedule: Option<real>, quit: bool)
      requires Loop(timeoutHandlers, rs, now).ended
      modifies this
      ensures var o := Loop(old(timeoutHandlers), rs, now);
        && called == old(called) + o.called && handled == |o.called| && timeoutHandlers == o.left && quit == o.quit
      ensures !quit && timeoutHandlers != [] ==>
        schedule == Some(timeoutHandlers[0].schedule) && timeoutHandlers[0].schedule > now
    {
      ghost var whole := Loop(timeoutHandlers, rs, now);
      handled, quit, schedule := 0, false, None;
      assert rs[0..] == rs && called + whole.called == called + [] + whole.called;
      assert whole == After([], whole) by { assert [] + whole.called == whole.called; }
      ghost var sofar: seq<Entry> := [];
      while timeoutHandlers != []
        invariant handled == |sofar| <= |rs| && called == old(called) + sofar
        invariant whole == After(sofar, Loop(timeoutHandlers, rs[handled..], now)) && whole.ended
        decreases |rs| - handled
      {
        schedule := Some(timeoutHandlers[0].schedule);
        if timeoutHandlers[0].schedule > now {
          break;
        }
        LoopNext(sofar, timeoutHandlers, rs[handled..], now);
        assert rs[handled..][1..] == rs[handled + 1..];
        sofar := sofar + [timeoutHandlers[0]];
        CallFirst(now, rs[handled]);
        handled := handled + 1;
        if rs[handled - 1].quit {
          return handled, schedule, true;
        }
      }
      assert sofar + [] == sofar;
    }

    /** _call_timeout_handlers. The list stays sorted. Without QUIT nothing due is left, and the result is the
        time to the earliest entry, or None if there is none - or its schedule is 0, which is false in Python. */
    method CallTimeoutHandlers(now: real, rs: seq<Reaction>) returns (timeout: Option<real>, handled: nat)
      requires Valid() && Loop(timeoutHandlers, rs, now).ended
      modifies this
      ensures Valid()
      ensures var o := Loop(old(timeoutHandlers), rs, now);
        && called == old(called) + o.called && handled == |o.called| && timeoutHandlers == o.left
        && (o.quit ==> timeout == Some(0.0))
        && (!o.quit ==> NoneDue(timeoutHandlers, now)
                        && timeout == if timeoutHandlers == [] || timeoutHandlers[0].schedule == 0.0 then None
                                      else Some(timeoutHandlers[0].schedule - now))
    {
      LoopSorts(timeoutHandlers, rs, now);
      var schedule, quit;
      handled, schedule, quit := CallDue(now, rs);
      if quit {
        return Some(0.0), handled;
      }
      if timeoutHandlers != [] && schedule.Some? && schedule.value != 0.0 {
        timeout := Some(schedule.value - now);
      } else {
        timeout := None;
      }
    }
  }

  lemma LoopNext(sofar: seq<Entry>, es: seq<Entry>, rs: seq<Reaction>, now: real)
    requires es != [] && es[0].schedule <= now && Loop(es, rs, now).ended
    ensures rs != []
    ensures After(sofar, Loop(es, rs, now))
      == if rs[0].quit then Outcome(sofar + [es[0]], Pass(es, rs[0], now), true, true)
         else After(sofar + [es[0]], Loop(Pass(es, rs[0], now), rs[1..], now))
  {
    if !rs[0].quit {
      var o := Loop(Pass(es, rs[0], now), rs[1..], now);
      assert sofar + ([es[0]] + o.called) == (sofar + [es[0]]) + o.called;
    }
  }

  /** The entries of `after` are those of `before` and one for each method. */
  ghost predicate Added(before: seq<Entry>, after: seq<Entry>, methods: seq<Handler>, now: real) {
    multiset(after) == multiset(before) + multiset(Scheduled(methods, now))
  }

  lemma AddedNone(before: seq<Entry>, methods: seq<Handler>, now: real)
    ensures Added(before, before, methods[..0], now)
  {
    assert methods[..0] == [];
  }

  lemma AddedOneMore(before: seq<Entry>, after: seq<Entry>, methods: seq<Handler>, i: nat, now: real)
    requires i < |methods| && Sorted(after) && Added(before, after, methods[..i], now)
    ensures var more := Insert(after, Entry(now + methods[i].interval, methods[i]));
      Sorted(more) && Added(before, more, methods[..i + 1], now)
  {
    var e := Entry(now + methods[i].interval, methods[i]);
    InsertSorts(after, e);
    InsertKeeps(after, e);
    assert methods[..i + 1][..i] == methods[..i];
    assert Scheduled(methods[..i + 1], now) == Scheduled(methods[..i], now) + [e];
    CountsSnoc(Scheduled(methods[..i], now), e);
    CountsAssociate(multiset(before), multiset(Scheduled(methods[..i], now)), e);
  }

  function Scheduled(methods: seq<Handler>, now: real): (es: seq<Entry>)
    ensures |es| == |methods|
    ensures forall i :: 0 <= i < |methods| ==> es[i] == Entry(now + methods[i].interval, methods[i])
  {
    if methods == [] then [] else
      var n := |methods| - 1;
      Scheduled(methods[..n], now) + [Entry(now + methods[n].interval, methods[n])]
  }
}
