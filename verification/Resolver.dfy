/** SRV record ordering (pyxmpp2/resolver.py), over exact arithmetic. Draws are inputs from [0, 1). */
module Resolver {

  datatype Srv = Srv(priority: nat, weight: nat, target: string, port: nat)

  /** Every record counts a tenth more than its weight. */
  function Share(r: Srv): real {
    r.weight as real + 0.1
  }

  function Total(records: seq<Srv>): real {
    if records == [] then 0.0 else Total(records[..|records| - 1]) + Share(records[|records| - 1])
  }

  /** The record whose stretch of the running total holds the threshold. */
  ghost predicate Picks(records: seq<Srv>, threshold: real, i: int) {
    0 <= i < |records| && Total(records[..i]) <= threshold < Total(records[..i + 1])
  }

  lemma {:induction false} TotalGrows(records: seq<Srv>, i: nat, j: nat)
    requires i <= j <= |records|
    ensures Total(records[..i]) <= Total(records[..j])
    ensures i < j ==> Total(records[..i]) < Total(records[..j])
    decreases j
  {
    if i < j {
      assert records[..j][..j - 1] == records[..j - 1];
      TotalGrows(records, i, j - 1);
    }
  }

  /** Every threshold below the total picks exactly one record. */
  lemma PickIsUnique(records: seq<Srv>, threshold: real, i: int, j: int)
    requires Picks(records, threshold, i) && Picks(records, threshold, j)
    ensures i == j
  {
    if i < j {
      TotalGrows(records, i + 1, j);
    } else if j < i {
      TotalGrows(records, j + 1, i);
    }
  }

  lemma Fraction(part: real, whole: real) returns (f: real)
    requires 0.0 <= part < whole
    ensures 0.0 <= f < 1.0 && f * whole == part
  {
    f := part / whole;
  }

  /** No record is starved: for each there is a draw that picks it. */
  lemma EveryRecordCanBePicked(records: seq<Srv>, i: nat) returns (draw: real)
    requires i < |records|
    ensures 0.0 <= draw < 1.0 && Picks(records, draw * Total(records), i)
  {
    assert records[..|records|] == records && Total(records[..0]) == 0.0;
    TotalGrows(records, 0, i);
    TotalGrows(records, i, i + 1);
    TotalGrows(records, i + 1, |records|);
    draw := Fraction(Total(records[..i]), Total(records));
  }

  /** The pick loop from record k on. */
  function PickFrom(records: seq<Srv>, threshold: real, k: nat): (i: nat)
    requires k < |records| && Total(records[..k]) <= threshold < Total(records)
    ensures Picks(records, threshold, i)
    decreases |records| - k
  {
    if threshold < Total(records[..k + 1]) then k else
      assert records[..|records|] == records;
      PickFrom(records, threshold, k + 1)
  }

  /** random() times the sum of the shares. */
  function Scale(draw: real, total: real): (t: real)
    requires 0.0 <= draw < 1.0 && total > 0.0
    ensures 0.0 <= t < total
  {
    assert (1.0 - draw) * total > 0.0;
    draw * total
  }

  lemma TotalIsPositive(records: seq<Srv>)
    requires records != []
    ensures Total(records) > 0.0 && Total(records[..0]) == 0.0
  {
    assert records[..|records|] == records;
    TotalGrows(records, 0, |records|);
  }

  /** The record a draw takes. */
  function Pick(records: seq<Srv>, draw: real): (i: nat)
    requires records != [] && 0.0 <= draw < 1.0
    ensures Total(records) > 0.0 && Picks(records, Scale(draw, Total(records)), i)
  {
    TotalIsPositive(records);
    PickFrom(records, Scale(draw, Total(records)), 0)
  }

  method WeightSum(records: seq<Srv>) returns (sum: real)
    ensures sum == Total(records)
  {
    sum := 0.0;
    for k := 0 to |records|
      invariant sum == Total(records[..k])
    {
      assert records[..k + 1][..k] == records[..k];
      sum := sum + Share(records[k]);
    }
    assert records[..|records|] == records;
  }

  /** The pick loop: it always ends with a pick. */
  method PickRecord(records: seq<Srv>, threshold: real) returns (i: nat)
    requires records != [] && Total(records[..0]) <= threshold < Total(records)
    ensures i == PickFrom(records, threshold, 0)
  {
    var weightSum := 0.0;
    i := 0;
    assert records[..|records|] == records;
    while true
      invariant i < |records|
      invariant weightSum == Total(records[..i]) && weightSum <= threshold
      invariant PickFrom(records, threshold, 0) == PickFrom(records, threshold, i)
      decreases |records| - i
    {
      assert records[..i + 1][..i] == records[..i];
      weightSum := weightSum + Share(records[i]);
      if threshold < weightSum {
        return;
      }
      i := i + 1;
    }
  }

  /** Ten times the running sum, told in whole numbers. */
  function Tenths(records: seq<Srv>, i: nat): nat
    requires i <= |records|
  {
    if i == 0 then 0 else Tenths(records, i - 1) + 10 * records[i - 1].weight + 1
  }

  lemma {:induction false} TotalInTenths(records: seq<Srv>, i: nat)
    requires i <= |records|
    ensures 10.0 * Total(records[..i]) == Tenths(records, i) as real
  {
    if i > 0 {
      assert records[..i][..i - 1] == records[..i - 1];
      TotalInTenths(records, i - 1);
    }
  }

  lemma PicksInTenths(records: seq<Srv>, threshold: real, product: real, i: nat)
    requires i < |records| && 10.0 * threshold == product
    ensures Picks(records, threshold, i) <==> Tenths(records, i) as real <= product < Tenths(records, i + 1) as real
  {
    TotalInTenths(records, i);
    TotalInTenths(records, i + 1);
  }

  lemma TenTimes(draw: real, total: real, tenths: real)
    requires 10.0 * total == tenths
    ensures 10.0 * (draw * total) == draw * tenths
  {
  }

  function Scaled(draw: real, records: seq<Srv>): real {
    draw * Tenths(records, |records|) as real
  }

  predicate FallsIn(records: seq<Srv>, draw: real, i: nat) {
    i < |records| && Tenths(records, i) as real <= Scaled(draw, records) < Tenths(records, i + 1) as real
  }

  lemma ScaledIs(records: seq<Srv>, draw: real) returns (threshold: real)
    requires records != [] && 0.0 <= draw < 1.0
    ensures 10.0 * threshold == Scaled(draw, records) && Picks(records, threshold, Pick(records, draw))
  {
    TotalIsPositive(records);
    threshold := Scale(draw, Total(records));
    assert records[..|records|] == records;
    TotalInTenths(records, |records|);
    TenTimes(draw, Total(records), Tenths(records, |records|) as real);
  }

  /** A draw takes record i exactly if it falls into that record's share of the whole. */
  lemma DrawTakesIff(records: seq<Srv>, draw: real, i: nat)
    requires i < |records| && 0.0 <= draw < 1.0
    ensures Pick(records, draw) == i <==> FallsIn(records, draw, i)
  {
    var threshold := ScaledIs(records, draw);
    PicksInTenths(records, threshold, Scaled(draw, records), i);
    if Picks(records, threshold, i) {
      PickIsUnique(records, threshold, i, Pick(records, draw));
    }
  }

  predicate Draws(draws: seq<real>, n: nat) {
    |draws| >= n && forall i :: 0 <= i < |draws| ==> 0.0 <= draws[i] < 1.0
  }

  function Without(records: seq<Srv>, i: nat): (r: seq<Srv>)
    requires i < |records|
    ensures |r| == |records| - 1
  {
    records[..i] + records[i + 1..]
  }

  /** The order in which the draws take the records; the last one needs none. */
  function Shuffle(records: seq<Srv>, draws: seq<real>): (r: seq<Srv>)
    requires Draws(draws, |records|)
    decreases |records|
  {
    if |records| <= 1 then records else
      var i := Pick(records, draws[0]);
      [records[i]] + Shuffle(Without(records, i), draws[1..])
  }

  lemma {:induction false} ShuffleIsPermutation(records: seq<Srv>, draws: seq<real>)
    requires Draws(draws, |records|)
    ensures multiset(Shuffle(records, draws)) == multiset(records)
    decreases |records|
  {
    if |records| > 1 {
      var i := Pick(records, draws[0]);
      ShuffleIsPermutation(Without(records, i), draws[1..]);
      TakeOne(records, i, Shuffle(Without(records, i), draws[1..]));
    }
  }

  /** Each draw takes one of the records left, the one whose share it falls into, and the order is that of the
      draws. */
  ghost predicate InDrawnOrder(records: seq<Srv>, draws: seq<real>, order: seq<Srv>)
    decreases |records|
  {
    if |records| <= 1 then order == records else
      && order != [] && draws != []
      && exists i: nat :: FallsIn(records, draws[0], i) && order[0] == records[i]
                          && InDrawnOrder(Without(records, i), draws[1..], order[1..])
  }

  lemma {:induction false} ShuffleIsDrawn(records: seq<Srv>, draws: seq<real>)
    requires Draws(draws, |records|)
    ensures InDrawnOrder(records, draws, Shuffle(records, draws))
    decreases |records|
  {
    if |records| > 1 {
      var i := Pick(records, draws[0]);
      DrawTakesIff(records, draws[0], i);
      ShuffleIsDrawn(Without(records, i), draws[1..]);
      assert Shuffle(records, draws)[1..] == Shuffle(Without(records, i), draws[1..]);
    }
  }

  lemma TakeOne(records: seq<Srv>, i: nat, rest: seq<Srv>)
    requires i < |records| && multiset(rest) == multiset(Without(records, i))
    ensures multiset([records[i]] + rest) == multiset(records)
  {
    assert records == records[..i] + [records[i]] + records[i + 1..];
  }

  lemma DrawsNext(draws: seq<real>, n: nat)
    requires n > 0 && Draws(draws, n)
    ensures Draws(draws[1..], n - 1)
  {
  }

  lemma ShuffleNext(done: seq<Srv>, records: seq<Srv>, draws: seq<real>)
    requires |records| > 1 && Draws(draws, |records|) && Draws(draws[1..], |records| - 1)
    ensures var i := Pick(records, draws[0]);
      done + Shuffle(records, draws) == done + [records[i]] + Shuffle(Without(records, i), draws[1..])
  {
    var i := Pick(records, draws[0]);
    var rest := Shuffle(Without(records, i), draws[1..]);
    assert Shuffle(records, draws) == [records[i]] + rest;
    assert done + ([records[i]] + rest) == done + [records[i]] + rest;
  }

  /** What has been put out, and what the draws left make of the rest. */
  ghost predicate Shuffling(input: seq<Srv>, draws: seq<real>, ret: seq<Srv>, records: seq<Srv>, left: seq<real>)
    requires Draws(draws, |input|)
  {
    |records| >= 1 && Draws(left, |records|) && ret + Shuffle(records, left) == Shuffle(input, draws)
  }

  /** shuffle_srv */
  method ShuffleSrv(input: seq<Srv>, draws: seq<real>) returns (ret: seq<Srv>)
    requires Draws(draws, |input|)
    ensures ret == Shuffle(input, draws)
  {
    if input == [] {
      return [];
    }
    ret := [];
    var records, left := input, draws;
    assert [] + Shuffle(input, draws) == Shuffle(input, draws);
    while |records| > 1
      invariant Shuffling(input, draws, ret, records, left)
      decreases |records|
    {
      var sum := WeightSum(records);
      TotalIsPositive(records);
      DrawsNext(left, |records|);
      ShuffleNext(ret, records, left);
      var i := PickRecord(records, Scale(left[0], sum));
      assert i == Pick(records, left[0]);
      ret := ret + [records[i]];
      records := Without(records, i);
      left := left[1..];
    }
    ret := ret + [records[0]];
  }

  method ShuffleGroup(input: seq<Srv>, draws: seq<real>) returns (ret: seq<Srv>)
    requires Draws(draws, |input|)
    ensures ret == Shuffle(input, draws) && multiset(ret) == multiset(input)
  {
    ret := ShuffleSrv(input, draws);
    ShuffleIsPermutation(input, draws);
  }

  ghost predicate ByPriority(records: seq<Srv>) {
    forall i, j :: 0 <= i < j < |records| ==> records[i].priority <= records[j].priority
  }

  ghost predicate AllOf(records: seq<Srv>, priority: nat) {
    forall r <- records :: r.priority == priority
  }

  /** The records of one priority, in order. */
  function Of(records: seq<Srv>, priority: nat): (r: seq<Srv>)
    ensures |r| <= |records|
  {
    if records == [] then [] else
      var last := records[|records| - 1];
      Of(records[..|records| - 1], priority) + (if last.priority == priority then [last] else [])
  }

  lemma {:induction false} OfConcat(a: seq<Srv>, b: seq<Srv>, priority: nat)
    ensures Of(a + b, priority) == Of(a, priority) + Of(b, priority)
  {
    if b == [] {
      assert a + b == a;
    } else {
      assert (a + b)[..|a + b| - 1] == a + b[..|b| - 1];
      OfConcat(a, b[..|b| - 1], priority);
    }
  }

  lemma {:induction false} OfGroup(group: seq<Srv>, priority: nat, p: nat)
    requires AllOf(group, priority)
    ensures Of(group, p) == if p == priority then group else []
  {
    if group != [] {
      OfGroup(group[..|group| - 1], priority, p);
    }
  }

  lemma {:induction false} OfNone(records: seq<Srv>, p: nat)
    requires forall r <- records :: r.priority != p
    ensures Of(records, p) == []
  {
    if records != [] {
      OfNone(records[..|records| - 1], p);
    }
  }

  /** The number of the group that record i belongs to. */
  function GroupOf(sorted: seq<Srv>, i: nat): nat
    requires i < |sorted|
  {
    if i == 0 then 0
    else GroupOf(sorted, i - 1) + (if sorted[i].priority != sorted[i - 1].priority then 1 else 0)
  }

  /** Enough draws for every group. */
  ghost predicate EnoughDraws(draws: nat -> seq<real>, n: nat) {
    forall k: nat :: Draws(draws(k), n)
  }

  function DrawsOf(draws: nat -> seq<real>, k: nat, n: nat): (d: seq<real>)
    requires EnoughDraws(draws, n)
    ensures Draws(d, n)
  {
    assert Draws(draws(k), n);
    draws(k)
  }

  /** The priority of record i is served in the order that the draws of its group give. */
  ghost predicate AsDrawn(sorted: seq<Srv>, draws: nat -> seq<real>, i: nat, ret: seq<Srv>)
    requires i < |sorted| && EnoughDraws(draws, |sorted|)
  {
    Of(ret, sorted[i].priority) == Shuffle(Of(sorted, sorted[i].priority), DrawsOf(draws, GroupOf(sorted, i), |sorted|))
  }

  /** A shuffled group put after smaller priorities keeps the order. */
  lemma AppendGroup(done: seq<Srv>, group: seq<Srv>, shuffled: seq<Srv>, priority: nat)
    requires ByPriority(done) && AllOf(group, priority) && multiset(shuffled) == multiset(group)
    requires forall r <- done :: r.priority < priority
    ensures AllOf(shuffled, priority)
    ensures ByPriority(done + shuffled) && forall r <- done + shuffled :: r.priority <= priority
    ensures multiset(done + shuffled) == multiset(done + group)
  {
    forall r | r in shuffled ensures r.priority == priority {
      assert r in multiset(shuffled) && r in multiset(group) && r in group;
    }
    var all := done + shuffled;
    forall i, j | 0 <= i < j < |all| ensures all[i].priority <= all[j].priority {
      assert i >= |done| ==> all[i] in shuffled;
      assert j >= |done| ==> all[j] in shuffled;
      assert i < |done| ==> all[i] in done;
    }
  }

  /** After i records: finished groups in `ret`, the current one in `tmp`. */
  ghost predicate Grouped(sorted: seq<Srv>, i: nat, ret: seq<Srv>, tmp: seq<Srv>)
    requires i <= |sorted|
  {
    && multiset(ret + tmp) == multiset(sorted[..i]) && ByPriority(ret)
    && (i == 0 ==> tmp == [] && ret == [])
    && (i > 0 ==>
          && |tmp| > 0 && AllOf(tmp, sorted[i - 1].priority) && tmp == Of(sorted[..i], sorted[i - 1].priority)
          && forall r <- ret :: r.priority < sorted[i - 1].priority)
  }

  lemma GroupGrows(sorted: seq<Srv>, i: nat, ret: seq<Srv>, tmp: seq<Srv>)
    requires i < |sorted| && Grouped(sorted, i, ret, tmp)
    requires tmp == [] || sorted[i].priority == tmp[0].priority
    ensures Grouped(sorted, i + 1, ret, tmp + [sorted[i]])
    ensures i > 0 ==> sorted[i].priority == sorted[i - 1].priority
  {
    assert sorted[..i + 1] == sorted[..i] + [sorted[i]];
    assert sorted[..i + 1][..i] == sorted[..i];
    assert ret + (tmp + [sorted[i]]) == (ret + tmp) + [sorted[i]];
    if i > 0 {
      assert tmp[0] in tmp;
    } else {
      assert sorted[..0] == [];
    }
  }

  lemma GroupCloses(sorted: seq<Srv>, i: nat, ret: seq<Srv>, tmp: seq<Srv>, shuffled: seq<Srv>)
    requires ByPriority(sorted) && i < |sorted| && Grouped(sorted, i, ret, tmp)
    requires tmp != [] && sorted[i].priority != tmp[0].priority && multiset(shuffled) == multiset(tmp)
    ensures Grouped(sorted, i + 1, ret + shuffled, [sorted[i]])
    ensures sorted[i - 1].priority < sorted[i].priority
  {
    var last := sorted[i - 1].priority;
    assert tmp[0] in tmp && last < sorted[i].priority;
    AppendGroup(ret, tmp, shuffled, last);
    assert sorted[..i + 1] == sorted[..i] + [sorted[i]] && sorted[..i + 1][..i] == sorted[..i];
    assert multiset(ret + shuffled + [sorted[i]]) == multiset(ret + tmp) + multiset([sorted[i]]);
    assert forall r <- sorted[..i] :: r.priority <= last;
    OfNone(sorted[..i], sorted[i].priority);
  }

  /** All priorities finished before record i are served as drawn. */
  ghost predicate ServedBefore(sorted: seq<Srv>, draws: nat -> seq<real>, i: nat, ret: seq<Srv>)
    requires i <= |sorted| && EnoughDraws(draws, |sorted|)
  {
    forall j {:trigger AsDrawn(sorted, draws, j, ret)} ::
      0 <= j < i && sorted[j].priority < sorted[i - 1].priority ==> AsDrawn(sorted, draws, j, ret)
  }

  lemma {:induction false} SameGroup(sorted: seq<Srv>, j: nat, i: nat)
    requires ByPriority(sorted) && j <= i < |sorted| && sorted[j].priority == sorted[i].priority
    ensures GroupOf(sorted, j) == GroupOf(sorted, i)
  {
    if j < i {
      SameGroup(sorted, j, i - 1);
    }
  }

  ghost predicate Served(sorted: seq<Srv>, draws: nat -> seq<real>, i: nat, ret: seq<Srv>)
    requires i <= |sorted| && EnoughDraws(draws, |sorted|)
  {
    forall j {:trigger AsDrawn(sorted, draws, j, ret)} :: 0 <= j < i ==> AsDrawn(sorted, draws, j, ret)
  }

  lemma LastServed(sorted: seq<Srv>, draws: nat -> seq<real>, i: nat, ret: seq<Srv>, shuffled: seq<Srv>)
    requires ByPriority(sorted) && 0 < i <= |sorted| && EnoughDraws(draws, |sorted|)
    requires i < |sorted| ==> sorted[i - 1].priority < sorted[i].priority
    requires forall r <- ret :: r.priority < sorted[i - 1].priority
    requires AllOf(shuffled, sorted[i - 1].priority)
    requires var drawn := DrawsOf(draws, GroupOf(sorted, i - 1), |sorted|);
      shuffled == Shuffle(Of(sorted[..i], sorted[i - 1].priority), drawn)
    ensures AsDrawn(sorted, draws, i - 1, ret + shuffled)
  {
    var p := sorted[i - 1].priority;
    OfRest(sorted, i);
    OfConcat(ret, shuffled, p);
    OfGroup(shuffled, p, p);
    OfNone(ret, p);
    assert [] + shuffled == shuffled;
  }

  lemma StillServed(sorted: seq<Srv>, draws: nat -> seq<real>, j: nat, ret: seq<Srv>, shuffled: seq<Srv>, last: nat)
    requires j < |sorted| && EnoughDraws(draws, |sorted|) && AsDrawn(sorted, draws, j, ret)
    requires AllOf(shuffled, last) && sorted[j].priority != last
    ensures AsDrawn(sorted, draws, j, ret + shuffled)
  {
    var p := sorted[j].priority;
    OfConcat(ret, shuffled, p);
    OfGroup(shuffled, last, p);
    assert Of(ret, p) + [] == Of(ret, p);
  }

  /** Once the group of record i - 1 is complete and put out, its priority is served too. */
  lemma GroupServed(sorted: seq<Srv>, draws: nat -> seq<real>, i: nat, ret: seq<Srv>, tmp: seq<Srv>, shuffled: seq<Srv>)
    requires ByPriority(sorted) && 0 < i <= |sorted| && EnoughDraws(draws, |sorted|)
    requires Grouped(sorted, i, ret, tmp) && ServedBefore(sorted, draws, i, ret)
    requires i < |sorted| ==> sorted[i - 1].priority < sorted[i].priority
    requires shuffled == Shuffle(tmp, DrawsOf(draws, GroupOf(sorted, i - 1), |sorted|))
    requires multiset(shuffled) == multiset(tmp)
    ensures Served(sorted, draws, i, ret + shuffled)
  {
    AppendGroup(ret, tmp, shuffled, sorted[i - 1].priority);
    LastServed(sorted, draws, i, ret, shuffled);
    forall j | 0 <= j < i ensures AsDrawn(sorted, draws, j, ret + shuffled) {
      OneServed(sorted, draws, i, j, ret, shuffled);
    }
  }

  lemma OneServed(sorted: seq<Srv>, draws: nat -> seq<real>, i: nat, j: nat, ret: seq<Srv>, shuffled: seq<Srv>)
    requires ByPriority(sorted) && j < i <= |sorted| && EnoughDraws(draws, |sorted|)
    requires ServedBefore(sorted, draws, i, ret) && AllOf(shuffled, sorted[i - 1].priority)
    requires AsDrawn(sorted, draws, i - 1, ret + shuffled)
    ensures AsDrawn(sorted, draws, j, ret + shuffled)
  {
    if sorted[j].priority == sorted[i - 1].priority {
      SameGroup(sorted, j, i - 1);
    } else {
      assert AsDrawn(sorted, draws, j, ret);
      StillServed(sorted, draws, j, ret, shuffled, sorted[i - 1].priority);
    }
  }

  lemma OfRest(sorted: seq<Srv>, i: nat)
    requires ByPriority(sorted) && 0 < i <= |sorted|
    requires i < |sorted| ==> sorted[i - 1].priority < sorted[i].priority
    ensures Of(sorted, sorted[i - 1].priority) == Of(sorted[..i], sorted[i - 1].priority)
  {
    var p := sorted[i - 1].priority;
    assert sorted == sorted[..i] + sorted[i..];
    OfConcat(sorted[..i], sorted[i..], p);
    OfNone(sorted[i..], p);
  }

  /** The invariant of the group loop. */
  ghost predicate Reordering(sorted: seq<Srv>, draws: nat -> seq<real>, i: nat, ret: seq<Srv>, tmp: seq<Srv>,
                             group: nat)
    requires i <= |sorted| && EnoughDraws(draws, |sorted|)
  {
    && |tmp| <= i && Grouped(sorted, i, ret, tmp) && ServedBefore(sorted, draws, i, ret)
    && group == if i == 0 then 0 else GroupOf(sorted, i - 1)
  }

  lemma NextInGroup(sorted: seq<Srv>, draws: nat -> seq<real>, i: nat, ret: seq<Srv>, tmp: seq<Srv>, group: nat)
    requires i < |sorted| && EnoughDraws(draws, |sorted|) && Reordering(sorted, draws, i, ret, tmp, group)
    requires tmp == [] || sorted[i].priority == tmp[0].priority
    ensures Reordering(sorted, draws, i + 1, ret, tmp + [sorted[i]], group)
  {
    GroupGrows(sorted, i, ret, tmp);
  }

  lemma ServedSoFar(sorted: seq<Srv>, draws: nat -> seq<real>, i: nat, ret: seq<Srv>)
    requires i < |sorted| && EnoughDraws(draws, |sorted|) && Served(sorted, draws, i, ret)
    ensures ServedBefore(sorted, draws, i + 1, ret)
  {
  }

  lemma NextGroup(sorted: seq<Srv>, draws: nat -> seq<real>, i: nat, ret: seq<Srv>, tmp: seq<Srv>, group: nat,
                  shuffled: seq<Srv>)
    requires ByPriority(sorted) && i < |sorted| && EnoughDraws(draws, |sorted|)
    requires Reordering(sorted, draws, i, ret, tmp, group)
    requires tmp != [] && sorted[i].priority != tmp[0].priority
    requires shuffled == Shuffle(tmp, DrawsOf(draws, group, |sorted|)) && multiset(shuffled) == multiset(tmp)
    ensures Reordering(sorted, draws, i + 1, ret + shuffled, [sorted[i]], group + 1)
  {
    GroupCloses(sorted, i, ret, tmp, shuffled);
    assert ServedBefore(sorted, draws, i + 1, ret + shuffled) by {
      GroupServed(sorted, draws, i, ret, tmp, shuffled);
      ServedSoFar(sorted, draws, i, ret + shuffled);
    }
    assert GroupOf(sorted, i) == GroupOf(sorted, i - 1) + 1;
  }

  lemma LastGroup(sorted: seq<Srv>, draws: nat -> seq<real>, ret: seq<Srv>, tmp: seq<Srv>, group: nat,
                  shuffled: seq<Srv>)
    requires ByPriority(sorted) && EnoughDraws(draws, |sorted|) && Reordering(sorted, draws, |sorted|, ret, tmp, group)
    requires tmp != [] && shuffled == Shuffle(tmp, DrawsOf(draws, group, |sorted|))
    requires multiset(shuffled) == multiset(tmp)
    ensures multiset(ret + shuffled) == multiset(sorted) && ByPriority(ret + shuffled)
    ensures Served(sorted, draws, |sorted|, ret + shuffled)
  {
    assert sorted[..|sorted|] == sorted;
    AppendGroup(ret, tmp, shuffled, sorted[|sorted| - 1].priority);
    GroupServed(sorted, draws, |sorted|, ret, tmp, shuffled);
  }

  /** reorder_srv, with the outcome of a sort that puts smaller priorities first: a permutation of the
      records with priorities non-decreasing, and each priority in the order drawn for it. `draws(k)` are
      the draws of group k. */
  method ReorderSrv(records: seq<Srv>, sorted: seq<Srv>, draws: nat -> seq<real>) returns (ret: seq<Srv>)
    requires multiset(sorted) == multiset(records) && ByPriority(sorted) && EnoughDraws(draws, |sorted|)
    ensures multiset(ret) == multiset(records) && ByPriority(ret)
    ensures Served(sorted, draws, |sorted|, ret)
  {
    ret := [];
    var tmp: seq<Srv> := [];
    var group: nat := 0;
    for i := 0 to |sorted|
      invariant Reordering(sorted, draws, i, ret, tmp, group)
    {
      if tmp == [] || sorted[i].priority == tmp[0].priority {
        NextInGroup(sorted, draws, i, ret, tmp, group);
        tmp := tmp + [sorted[i]];
        continue;
      }
      var shuffled := ShuffleGroup(tmp, DrawsOf(draws, group, |sorted|));
      NextGroup(sorted, draws, i, ret, tmp, group, shuffled);
      group := group + 1;
      ret := ret + shuffled;
      tmp := [sorted[i]];
    }
    if tmp != [] {
      var shuffled := ShuffleGroup(tmp, DrawsOf(draws, group, |sorted|));
      LastGroup(sorted, draws, ret, tmp, group, shuffled);
      ret := ret + shuffled;
    }
  }
}
