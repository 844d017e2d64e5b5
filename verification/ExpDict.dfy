/** ExpiringDictionary: values and their deadlines, kept in two dictionaries (pyxmpp2/expdict.py).
    Each reading of the clock is an input. A timeout of 0.0 is a missing one. */
module ExpDict {
  import opened Text

  /** A deadline and the callback due then, if any. */
  datatype Deadline<+C> = Deadline(at: real, callback: Option<C>)

  /** A callback made: the callback with the key and value it gets, and the reading of the clock that set
      it off. */
  datatype Fired<+K, +V, +C> = Fired(callback: C, key: K, value: V, at: real)

  datatype Dict<!K, V, C> = Dict(items: map<K, V>, timeouts: map<K, Deadline<C>>)
  {
    predicate Valid() {
      items.Keys == timeouts.Keys
    }

    predicate Expired(key: K, now: real)
      requires key in timeouts
    {
      timeouts[key].at <= now
    }

    function Without(key: K): Dict<K, V, C> {
      Dict(items - {key}, timeouts - {key})
    }

    function Callbacks(key: K, now: real): seq<Fired<K, V, C>>
      requires Valid() && key in timeouts
    {
      if timeouts[key].callback.Some? then [Fired(timeouts[key].callback.value, key, items[key], now)] else []
    }

    function Set(key: K, value: V, timeout: real, callback: Option<C>, dflt: real, now: real): Dict<K, V, C> {
      Dict(items[key := value],
           timeouts[key := Deadline(now + (if timeout == 0.0 then dflt else timeout), callback)])
    }

    /** _expire_item on a key that has a deadline. */
    function ExpireItem(key: K, now: real): (Dict<K, V, C>, seq<Fired<K, V, C>>)
      requires Valid() && key in timeouts
    {
      if Expired(key, now) then (Without(key), Callbacks(key, now)) else (this, [])
    }

    /** And the time left of it, None once it is gone. */
    function TimeLeft(key: K, now: real): Option<real>
      requires key in timeouts
    {
      if Expired(key, now) then None else Some(timeouts[key].at - now)
    }

    /** pop: None is a KeyError, which comes up even when a default is given - for a missing key in
        _expire_item, and for an expired one on deleting its deadline a second time. */
    function Pop(key: K, now: real): (Dict<K, V, C>, Option<V>, seq<Fired<K, V, C>>)
      requires Valid()
    {
      if key !in timeouts then (this, None, [])
      else if Expired(key, now) then (Without(key), None, Callbacks(key, now))
      else (Without(key), Some(items[key]), [])
    }

    /** __getitem__ */
    function Get(key: K, now: real): (Dict<K, V, C>, Option<V>, seq<Fired<K, V, C>>)
      requires Valid()
    {
      if key !in timeouts then (this, None, [])
      else if Expired(key, now) then (Without(key), None, Callbacks(key, now))
      else (this, Some(items[key]), [])
    }
  }

  predicate Distinct<K(==)>(order: seq<K>) {
    forall i, j :: 0 <= i < j < |order| ==> order[i] != order[j]
  }

  /** expire, going through the keys in the order given: exactly the expired ones among them go, and
      the rest stay as they were. */
  function ExpireAll<K, V, C>(d: Dict<K, V, C>, order: seq<K>,
                              clock: K -> real): (r: (Dict<K, V, C>, seq<Fired<K, V, C>>))
    requires d.Valid() && Distinct(order) && forall key <- order :: key in d.timeouts
    ensures r.0.Valid()
    ensures r.0.timeouts == map k | k in d.timeouts && !(k in order && d.Expired(k, clock(k))) :: d.timeouts[k]
    ensures r.0.items == map k | k in d.items && !(k in order && d.Expired(k, clock(k))) :: d.items[k]
    decreases |order|
  {
    if order == [] then (d, []) else
      var last := order[|order| - 1];
      var (d1, fired) := ExpireAll(d, order[..|order| - 1], clock);
      var (d2, more) := d1.ExpireItem(last, clock(last));
      (d2, fired + more)
  }

  /** A callback made for an expired key among `order`, with the key's value. */
  ghost predicate FiredRight<K, V, C>(d: Dict<K, V, C>, order: seq<K>, clock: K -> real, f: Fired<K, V, C>)
    requires d.Valid() && forall key <- order :: key in d.timeouts
  {
    f.key in order && d.Expired(f.key, clock(f.key)) && d.Callbacks(f.key, clock(f.key)) == [f]
  }

  ghost predicate FiredFor<K, V, C>(fired: seq<Fired<K, V, C>>, key: K) {
    exists i :: 0 <= i < |fired| && fired[i].key == key
  }

  lemma FiredMore<K, V, C>(fired: seq<Fired<K, V, C>>, more: seq<Fired<K, V, C>>, key: K)
    ensures FiredFor(fired + more, key) <==> FiredFor(fired, key) || FiredFor(more, key)
  {
    var all := fired + more;
    if FiredFor(fired, key) {
      var i :| 0 <= i < |fired| && fired[i].key == key;
      assert all[i].key == key;
    }
    if FiredFor(more, key) {
      var i :| 0 <= i < |more| && more[i].key == key;
      assert all[|fired| + i].key == key;
    }
  }

  /** What the visit of one more key fires. */
  lemma LastFired<K, V, C>(d: Dict<K, V, C>, order: seq<K>, clock: K -> real)
    requires d.Valid() && order != [] && Distinct(order) && forall key <- order :: key in d.timeouts
    ensures var last, before := order[|order| - 1], order[..|order| - 1];
      ExpireAll(d, order, clock).1
      == ExpireAll(d, before, clock).1 + (if d.Expired(last, clock(last)) then d.Callbacks(last, clock(last)) else [])
  {
    var last, before := order[|order| - 1], order[..|order| - 1];
    var d1 := ExpireAll(d, before, clock).0;
    assert last !in before;
    assert d1.timeouts[last] == d.timeouts[last] && d1.items[last] == d.items[last];
  }

  lemma {:induction false} AllFiredRight<K, V, C>(d: Dict<K, V, C>, order: seq<K>, clock: K -> real)
    requires d.Valid() && Distinct(order) && forall key <- order :: key in d.timeouts
    ensures forall f <- ExpireAll(d, order, clock).1 :: FiredRight(d, order, clock, f)
    decreases |order|
  {
    if order != [] {
      var last, before := order[|order| - 1], order[..|order| - 1];
      AllFiredRight(d, before, clock);
      LastFired(d, order, clock);
      forall f | f in ExpireAll(d, order, clock).1 ensures FiredRight(d, order, clock, f) {
        if f in ExpireAll(d, before, clock).1 {
          assert FiredRight(d, before, clock, f);
        }
      }
    }
  }

  lemma {:induction false} ExpiredAreFired<K, V, C>(d: Dict<K, V, C>, order: seq<K>, clock: K -> real, key: K)
    requires d.Valid() && Distinct(order) && forall k <- order :: k in d.timeouts
    requires key in order && d.Expired(key, clock(key)) && d.timeouts[key].callback.Some?
    ensures FiredFor(ExpireAll(d, order, clock).1, key)
    decreases |order|
  {
    var last, before := order[|order| - 1], order[..|order| - 1];
    var more := if d.Expired(last, clock(last)) then d.Callbacks(last, clock(last)) else [];
    LastFired(d, order, clock);
    FiredMore(ExpireAll(d, before, clock).1, more, key);
    if key == last {
      assert more[0].key == key;
    } else {
      assert order == before + [last];
      ExpiredAreFired(d, before, clock, key);
    }
  }

  ghost predicate FiredOnce<K, V, C>(fired: seq<Fired<K, V, C>>) {
    forall i, j :: 0 <= i < j < |fired| ==> fired[i].key != fired[j].key
  }

  lemma {:induction false} NoneFiredTwice<K, V, C>(d: Dict<K, V, C>, order: seq<K>, clock: K -> real)
    requires d.Valid() && Distinct(order) && forall key <- order :: key in d.timeouts
    ensures FiredOnce(ExpireAll(d, order, clock).1)
    decreases |order|
  {
    if order != [] {
      var last, before := order[|order| - 1], order[..|order| - 1];
      NoneFiredTwice(d, before, clock);
      AllFiredRight(d, before, clock);
      LastFired(d, order, clock);
      var fired := ExpireAll(d, before, clock).1;
      assert last !in before;
      forall i | 0 <= i < |fired| ensures fired[i].key != last {
        assert fired[i] in fired && FiredRight(d, before, clock, fired[i]);
      }
    }
  }

  /** Every expired key with a callback has it called exactly once, with its value; no other is. */
  lemma ExpireAllFires<K, V, C>(d: Dict<K, V, C>, order: seq<K>, clock: K -> real)
    requires d.Valid() && Distinct(order) && forall key <- order :: key in d.timeouts
    ensures var fired := ExpireAll(d, order, clock).1;
      && (forall f <- fired :: FiredRight(d, order, clock, f))
      && (forall key <- order :: d.Expired(key, clock(key)) && d.timeouts[key].callback.Some? ==> FiredFor(fired, key))
      && FiredOnce(fired)
  {
    AllFiredRight(d, order, clock);
    NoneFiredTwice(d, order, clock);
    forall key | key in order && d.Expired(key, clock(key)) && d.timeouts[key].callback.Some?
      ensures FiredFor(ExpireAll(d, order, clock).1, key)
    {
      ExpiredAreFired(d, order, clock, key);
    }
  }

  /** The same for one callback. */
  lemma FiredAt<K, V, C>(d: Dict<K, V, C>, order: seq<K>, clock: K -> real, i: nat)
    requires d.Valid() && Distinct(order) && forall key <- order :: key in d.timeouts
    requires i < |ExpireAll(d, order, clock).1|
    ensures var f := ExpireAll(d, order, clock).1[i];
      FiredRight(d, order, clock, f) && f.key !in ExpireAll(d, order, clock).0.timeouts
  {
    AllFiredRight(d, order, clock);
    assert ExpireAll(d, order, clock).1[i] in ExpireAll(d, order, clock).1;
  }

  /** The least time until a deadline among the keys of `order` that are left. */
  ghost predicate IsNextTimeout<K, V, C>(d: Dict<K, V, C>, order: seq<K>, clock: K -> real, next: Option<real>)
    requires forall key <- order :: key in d.timeouts
  {
    match next
    case None => forall key <- order :: d.Expired(key, clock(key))
    case Some(t) =>
      && t > 0.0
      && (exists key :: key in order && !d.Expired(key, clock(key)) && t == d.timeouts[key].at - clock(key))
      && forall key <- order :: !d.Expired(key, clock(key)) ==> t <= d.timeouts[key].at - clock(key)
  }

  // ---- What the operations do, told without their functions

  /** Storing sets value and deadline under the key, with the default timeout for none, and nothing else. */
  lemma SetIs<K, V, C>(d: Dict<K, V, C>, key: K, value: V, timeout: real, callback: Option<C>, dflt: real, now: real)
    ensures var d1 := d.Set(key, value, timeout, callback, dflt, now);
      && d1.items == d.items[key := value]
      && d1.timeouts == d.timeouts[key := Deadline(if timeout == 0.0 then now + dflt else now + timeout, callback)]
  {
  }

  /** Popping removes the key, hands over a value whose deadline has not come, and makes the callback of one
      whose deadline has. */
  lemma PopIs<K, V, C>(d: Dict<K, V, C>, key: K, now: real)
    requires d.Valid()
    ensures var (d1, r, fired) := d.Pop(key, now);
      && d1.items == d.items - {key} && d1.timeouts == d.timeouts - {key}
      && r == (if key in d.timeouts && d.timeouts[key].at > now then Some(d.items[key]) else None)
      && fired == CallbackDue(d.items, d.timeouts, key, now)
  {
    assert key !in d.timeouts ==> d.items - {key} == d.items && d.timeouts - {key} == d.timeouts;
  }

  /** Looking up does the same, but leaves a value whose deadline has not come. */
  lemma GetIs<K, V, C>(d: Dict<K, V, C>, key: K, now: real)
    requires d.Valid()
    ensures var (d1, r, fired) := d.Get(key, now); var live := key in d.timeouts && d.timeouts[key].at > now;
      && d1 == (if live then d else Dict(d.items - {key}, d.timeouts - {key}))
      && r == (if live then Some(d.items[key]) else None)
      && fired == CallbackDue(d.items, d.timeouts, key, now)
  {
    assert key !in d.timeouts ==> d.items - {key} == d.items && d.timeouts - {key} == d.timeouts;
  }

  /** The callback of an entry that is due, with its key and value; there may be no such entry, or none that
      is due, or no callback. */
  function CallbackDue<K, V, C>(items: map<K, V>, timeouts: map<K, Deadline<C>>, key: K,
                                now: real): seq<Fired<K, V, C>>
  {
    if key in items && key in timeouts && timeouts[key].at <= now && timeouts[key].callback.Some?
    then [Fired(timeouts[key].callback.value, key, items[key], now)] else []
  }

  /** The running minimum of expire. */
  function Sooner(next: Option<real>, left: Option<real>): Option<real> {
    if left.Some? && (next.None? || left.value < next.value) then left else next
  }

  class ExpiringDictionary<K(==), V, C> {
    var items: map<K, V>
    var timeouts: map<K, Deadline<C>>
    const defaultTimeout: real

    function Now(): Dict<K, V, C>
      reads this
    {
      Dict(items, timeouts)
    }

    constructor (defaultTimeout: real)
      ensures Now() == Dict(map[], map[]) && Now().Valid() && this.defaultTimeout == defaultTimeout
    {
      this.defaultTimeout := defaultTimeout;
      items, timeouts := map[], map[];
    }

    method SetItem(key: K, value: V, timeout: real, callback: Option<C>, now: real)
      requires Now().Valid()
      modifies this
      ensures Now().Valid() && Now() == old(Now()).Set(key, value, timeout, callback, defaultTimeout, now)
    {
      var t := if timeout == 0.0 then defaultTimeout else timeout;
      timeouts := timeouts[key := Deadline(now + t, callback)];
      items := items[key := value];
    }

    /** _expire_item; missing is its KeyError. `left` is the time left, None once the item is gone. */
    method ExpireItem(key: K, now: real) returns (missing: bool, left: Option<real>, fired: seq<Fired<K, V, C>>)
      requires Now().Valid()
      modifies this
      ensures Now().Valid() && missing == (key !in old(timeouts))
      ensures missing ==> Now() == old(Now()) && fired == [] && left == None
      ensures !missing ==>
        && (Now(), fired) == old(Now()).ExpireItem(key, now)
        && left == old(Now()).TimeLeft(key, now)
    {
      if key !in timeouts {
        return true, None, [];
      }
      var due := timeouts[key];
      if due.at <= now {
        var item := items[key];
        items := items - {key};
        timeouts := timeouts - {key};
        return false, None, if due.callback.Some? then [Fired(due.callback.value, key, item, now)] else [];
      }
      return false, Some(due.at - now), [];
    }

    /** pop, with or without a default: the default is never used. */
    method Pop(key: K, dflt: Option<V>, now: real) returns (r: Option<V>, fired: seq<Fired<K, V, C>>)
      requires Now().Valid()
      modifies this
      ensures Now().Valid() && (Now(), r, fired) == old(Now()).Pop(key, now)
    {
      var missing, left;
      missing, left, fired := ExpireItem(key, now);
      if missing || key !in timeouts {
        return None, fired;
      }
      timeouts := timeouts - {key};
      r := Some(items[key]);
      items := items - {key};
    }

    method GetItem(key: K, now: real) returns (r: Option<V>, fired: seq<Fired<K, V, C>>)
      requires Now().Valid()
      modifies this
      ensures Now().Valid() && (Now(), r, fired) == old(Now()).Get(key, now)
    {
      var missing, left;
      missing, left, fired := ExpireItem(key, now);
      r := if missing || key !in items then None else Some(items[key]);
    }

    method DelItem(key: K) returns (missing: bool)
      requires Now().Valid()
      modifies this
      ensures Now().Valid() && missing == (key !in old(timeouts)) && Now() == old(Now()).Without(key)
    {
      if key !in timeouts {
        assert items - {key} == items && timeouts - {key} == timeouts;
        return true;
      }
      timeouts := timeouts - {key};
      items := items - {key};
      return false;
    }

    method Clear()
      modifies this
      ensures Now().Valid() && Now() == Dict(map[], map[])
    {
      timeouts := map[];
      items := map[];
    }

    /** expire: goes through the keys in the dictionary's own order, which is some order of them. */
    method Expire(clock: K -> real) returns (next: Option<real>, fired: seq<Fired<K, V, C>>, ghost order: seq<K>)
      requires Now().Valid()
      modifies this
      ensures Distinct(order) && (forall k :: k in order <==> k in old(timeouts))
      ensures Now().Valid() && (Now(), fired) == ExpireAll(old(Now()), order, clock)
      ensures IsNextTimeout(old(Now()), order, clock, next)
      ensures next.None? <==> Now() == Dict(map[], map[])
    {
      ghost var d0 := Now();
      var keys := timeouts.Keys;
      next, fired, order := None, [], [];
      while keys != {}
        invariant Expiring(d0, order, keys, clock, Now(), fired, next)
        decreases |keys|
      {
        var k :| k in keys;
        keys := keys - {k};
        ExpiringStep(d0, order, keys, k, clock, Now(), fired, next);
        order := order + [k];
        var missing, left, more := ExpireItem(k, clock(k));
        fired := fired + more;
        next := Sooner(next, left);
      }
      ExpiringEnds(d0, order, clock, Now(), fired, next);
    }
  }

  /** The invariant of expire: `order` has been visited and `keys` have not. */
  ghost predicate Expiring<K, V, C>(d0: Dict<K, V, C>, order: seq<K>, keys: set<K>, clock: K -> real, d: Dict<K, V, C>,
                                    fired: seq<Fired<K, V, C>>, next: Option<real>)
  {
    && d0.Valid() && d.Valid() && Distinct(order) && keys <= d0.timeouts.Keys
    && (forall k <- order :: k in d0.timeouts && k !in keys)
    && (forall k <- d0.timeouts.Keys :: k in keys || k in order)
    && (d, fired) == ExpireAll(d0, order, clock)
    && IsNextTimeout(d0, order, clock, next)
  }

  lemma ExpiringStep<K, V, C>(d0: Dict<K, V, C>, order: seq<K>, keys: set<K>, k: K, clock: K -> real, d: Dict<K, V, C>,
                              fired: seq<Fired<K, V, C>>, next: Option<real>)
    requires k !in keys && Expiring(d0, order, keys + {k}, clock, d, fired, next)
    ensures k in d.timeouts
    ensures var (d1, more) := d.ExpireItem(k, clock(k));
      Expiring(d0, order + [k], keys, clock, d1, fired + more, Sooner(next, d.TimeLeft(k, clock(k))))
  {
    assert d.timeouts[k] == d0.timeouts[k];
    assert (order + [k])[..|order|] == order;
    NextTimeoutStep(d0, order, k, clock, next, Sooner(next, d.TimeLeft(k, clock(k))));
  }

  lemma NextTimeoutStep<K, V, C>(d: Dict<K, V, C>, order: seq<K>, k: K, clock: K -> real, before: Option<real>,
                                 next: Option<real>)
    requires (forall key <- order :: key in d.timeouts) && k in d.timeouts && IsNextTimeout(d, order, clock, before)
    requires next == Sooner(before, d.TimeLeft(k, clock(k)))
    ensures IsNextTimeout(d, order + [k], clock, next)
  {
    if next.Some? && next != before {
      assert k in order + [k];
    } else if next.Some? {
      var key :| key in order && !d.Expired(key, clock(key)) && next.value == d.timeouts[key].at - clock(key);
      assert key in order + [k];
    }
  }

  /** What expire has done once no key is left to visit. */
  lemma ExpiringEnds<K, V, C>(d0: Dict<K, V, C>, order: seq<K>, clock: K -> real, d: Dict<K, V, C>,
                              fired: seq<Fired<K, V, C>>, next: Option<real>)
    requires Expiring(d0, order, {}, clock, d, fired, next)
    ensures Distinct(order) && forall k :: k in order <==> k in d0.timeouts
    ensures d.Valid() && (d, fired) == ExpireAll(d0, order, clock)
    ensures IsNextTimeout(d0, order, clock, next)
    ensures next.None? <==> d == Dict(map[], map[])
  {
    EmptiedIff(d0, order, clock, next);
  }

  lemma EmptiedIff<K, V, C>(d: Dict<K, V, C>, order: seq<K>, clock: K -> real, next: Option<real>)
    requires d.Valid() && Distinct(order) && (forall k :: k in order <==> k in d.timeouts)
    requires IsNextTimeout(d, order, clock, next)
    ensures next.None? <==> ExpireAll(d, order, clock).0 == Dict(map[], map[])
  {
    var d1 := ExpireAll(d, order, clock).0;
    if next.None? {
      assert d1.timeouts == map[] && d1.items == map[];
    } else {
      var key :| key in order && !d.Expired(key, clock(key)) && next.value == d.timeouts[key].at - clock(key);
      assert key in d1.timeouts;
    }
  }
}
