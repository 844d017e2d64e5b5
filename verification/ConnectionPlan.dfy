/** What a connection search comes to in a given network: which addresses are tried, and which one it is
    connected to (pyxmpp2/transport.py). */
module ConnectionPlan {
  import opened Text
  import opened Transport

  /** A network: the SRV records of the service, the addresses of each host, and of each address whether it can
      be connected to and whether connect() would block at first. */
  datatype Network = Network(srv: seq<Endpoint>, hosts: string -> seq<string>, up: Endpoint -> bool,
                             slow: Endpoint -> bool)

  // ---- The plan, told without the transport

  function At(answer: seq<string>, port: nat): seq<Endpoint> {
    if answer == [] then [] else [Endpoint(answer[0], port)] + At(answer[1..], port)
  }

  /** All addresses of the targets, in order, with the targets' ports. */
  function AddressesOf(w: Network, targets: seq<Endpoint>): seq<Endpoint> {
    if targets == [] then [] else At(w.hosts(targets[0].host), targets[0].port) + AddressesOf(w, targets[1..])
  }

  /** The targets of a service: none if there is none by the answer, the name itself if there is no answer and
      a port is given. */
  function ServiceTargets(w: Network, name: string, port: nat): seq<Endpoint> {
    if w.srv == [Endpoint(".", 0)] then []
    else if w.srv != [] then w.srv
    else if port != 0 then [Endpoint(name, port)] else []
  }

  /** The addresses to try: the address that the name is, or those of the service, or those of the name. None
      for a call that raises a ValueError. */
  function Plan(w: Network, name: string, port: nat, service: Option<string>,
                literal: Option<Endpoint>): Option<seq<Endpoint>> {
    if literal.Some? then (if port == 0 then None else Some([literal.value]))
    else if service.Some? then Some(AddressesOf(w, ServiceTargets(w, name, port)))
    else if port != 0 then Some(AddressesOf(w, [Endpoint(name, port)]))
    else None
  }

  /** Position of the first address that is up, or the length. */
  function FirstUp(w: Network, addrs: seq<Endpoint>): (i: nat)
    ensures i <= |addrs| && (i < |addrs| ==> w.up(addrs[i])) && forall j :: 0 <= j < i ==> !w.up(addrs[j])
  {
    if addrs == [] || w.up(addrs[0]) then 0 else
      var i := FirstUp(w, addrs[1..]);
      assert forall j :: 1 <= j < i + 1 ==> addrs[j] == addrs[1..][j - 1];
      1 + i
  }

  // ---- The main loop in that network

  function Dial(w: Network, a: Endpoint): Outcome {
    if w.slow(a) then Blocking else if w.up(a) then Done else Failed
  }

  /** What happens next: a blocked attempt is resumed when the socket is writable, and else the transport is
      prepared. */
  function Next(w: Network, s: ReadySearch): Input {
    if s.phase == Connecting then
      Writable(if s.tried != [] && w.up(s.tried[|s.tried| - 1]) then IsConnected else Failed)
    else
      Prepare(w.srv, if s.nameports != [] then w.hosts(s.nameports[0].host) else [],
              if s.addrs != [] then Dial(w, s.addrs[0]) else Failed)
  }

  function Driven(w: Network, s: ReadySearch, n: nat): ReadySearch
    decreases n
  {
    if n == 0 then s else Driven(w, Step(s, Next(w, s)), n - 1)
  }

  // ---- The loop carries out the plan

  lemma {:induction false} AtIsWithPort(answer: seq<string>, port: nat)
    ensures WithPort(answer, port) == At(answer, port)
  {
    if answer != [] {
      AtIsWithPort(answer[1..], port);
      var found := WithPort(answer, port);
      assert found == [Endpoint(answer[0], port)] + WithPort(answer[1..], port);
    }
  }

  /** Between attempts: the next address or name is there, and no job is queued. */
  predicate Searching(s: Search) {
    && Ready(s) && s.jobs == 0
    && (s.phase == Connect || (s.phase == ResolveHostname && s.addrs == []))
  }

  function Left(w: Network, s: Search): seq<Endpoint> {
    s.addrs + AddressesOf(w, s.nameports)
  }

  /** How the search ends, from a state with these addresses left. */
  predicate EndsWell(w: Network, s: Search, left: seq<Endpoint>, t: Search) {
    var i := FirstUp(w, left);
    if i < |left| then t.phase == Connected && t.tried == s.tried + left[..i + 1] && t.announced == s.announced + 1
    else t.phase == Aborted && t.tried == s.tried + left && t.announced == s.announced
  }

  lemma DrivenOnce(w: Network, s: Search, n: nat)
    requires Ready(s)
    ensures Driven(w, s, n + 1) == Driven(w, Step(s, Next(w, s)), n)
  {
  }

  /** The search after an attempt at the first address, which is done, or has failed at once or later. */
  function Attempted(w: Network, s: Search): ReadySearch
    requires Searching(s) && s.phase == Connect
  {
    var t := Step(s, Next(w, s));
    if t.phase == Connecting then Step(t, Next(w, t)) else t
  }

  lemma AttemptIs(w: Network, s: Search)
    requires Searching(s) && s.phase == Connect
    ensures var t := Attempted(w, s);
      && t.tried == s.tried + [s.addrs[0]] && t.addrs == s.addrs[1..] && t.nameports == s.nameports
      && (w.up(s.addrs[0]) ==> t.phase == Connected && t.announced == s.announced + 1)
      && (!w.up(s.addrs[0]) ==>
            && t.announced == s.announced
            && (if t.addrs == [] && t.nameports == [] then t.phase == Aborted else Searching(t)))
  {
    if w.slow(s.addrs[0]) {
      SlowAttempt(w, s);
    }
  }

  lemma SlowAttempt(w: Network, s: Search)
    requires Searching(s) && s.phase == Connect && w.slow(s.addrs[0])
    ensures var t := Step(s, Next(w, s));
      && t == s.(phase := Connecting, addrs := s.addrs[1..], socket := true, jobs := 1, tried := s.tried + [s.addrs[0]])
      && Next(w, t) == Writable(if w.up(s.addrs[0]) then IsConnected else Failed)
  {
  }

  lemma AttemptDriven(w: Network, s: Search) returns (n: nat)
    requires Searching(s) && s.phase == Connect
    ensures 0 < n && forall m: nat :: Driven(w, s, n + m) == Driven(w, Attempted(w, s), m)
  {
    var t := Step(s, Next(w, s));
    n := if t.phase == Connecting then 2 else 1;
    forall m: nat ensures Driven(w, s, n + m) == Driven(w, Attempted(w, s), m) {
      DrivenOnce(w, s, n - 1 + m);
    }
  }

  lemma NoneUpYet(w: Network, s: Search, t: Search, left: seq<Endpoint>, u: Search)
    requires left != [] && !w.up(left[0]) && t.tried == s.tried + [left[0]] && t.announced == s.announced
    requires EndsWell(w, t, left[1..], u)
    ensures EndsWell(w, s, left, u)
  {
    var rest := left[1..];
    var i := FirstUp(w, rest);
    assert FirstUp(w, left) == i + 1;
    assert [left[0]] + rest == left;
    if i < |rest| {
      assert left[..i + 2] == [left[0]] + rest[..i + 1];
      assert (s.tried + [left[0]]) + rest[..i + 1] == s.tried + ([left[0]] + rest[..i + 1]);
    } else {
      assert (s.tried + [left[0]]) + rest == s.tried + ([left[0]] + rest);
    }
  }

  lemma NamesLeft(w: Network, s: Search)
    requires Searching(s) && s.phase == ResolveHostname
    ensures var t := Step(s, Next(w, s));
      && t.tried == s.tried && t.announced == s.announced && Left(w, t) == Left(w, s)
      && |t.nameports| < |s.nameports|
      && if t.addrs == [] && t.nameports == [] then t.phase == Aborted else Searching(t)
  {
    var answer, target := w.hosts(s.nameports[0].host), s.nameports[0];
    AtIsWithPort(answer, target.port);
    var t := Step(s, Next(w, s));
    assert Left(w, s) == At(answer, target.port) + AddressesOf(w, s.nameports[1..]);
    assert answer == [] ==> At(answer, target.port) == [] && t.addrs == [];
  }

  lemma NothingLeftEnds(w: Network, s: Search, t: Search)
    requires t.phase == Aborted && t.tried == s.tried && t.announced == s.announced
    ensures EndsWell(w, s, [], t)
  {
    assert s.tried + [] == s.tried;
  }

  /** A successful attempt at the first address. */
  lemma FirstIsUp(w: Network, s: Search, left: seq<Endpoint>, t: Search)
    requires left != [] && w.up(left[0])
    requires t.phase == Connected && t.tried == s.tried + [left[0]] && t.announced == s.announced + 1
    ensures EndsWell(w, s, left, t)
  {
    assert FirstUp(w, left) == 0 && left[..1] == [left[0]];
  }

  lemma {:induction false} SearchCarriedOut(w: Network, s: Search) returns (n: nat)
    requires Searching(s)
    ensures EndsWell(w, s, Left(w, s), Driven(w, s, n))
    decreases |s.nameports|, |s.addrs|, 1
  {
    if s.phase == Connect {
      n := AttemptsCarriedOut(w, s);
    } else {
      n := LookupsCarriedOut(w, s);
    }
  }

  lemma {:induction false} AttemptsCarriedOut(w: Network, s: Search) returns (n: nat)
    requires Searching(s) && s.phase == Connect
    ensures EndsWell(w, s, Left(w, s), Driven(w, s, n))
    decreases |s.nameports|, |s.addrs|, 0
  {
    var first := AttemptDriven(w, s);
    AttemptIs(w, s);
    LeftAfter(w, s);
    var t := Attempted(w, s);
    var m: nat := 0;
    if w.up(s.addrs[0]) {
      FirstIsUp(w, s, Left(w, s), t);
      assert Driven(w, t, m) == t;
    } else {
      m := RestCarriedOut(w, t);
      NoneUpYet(w, s, t, Left(w, s), Driven(w, t, m));
    }
    n := first + m;
    assert Driven(w, s, first + m) == Driven(w, t, m);
  }

  lemma {:induction false} LookupsCarriedOut(w: Network, s: Search) returns (n: nat)
    requires Searching(s) && s.phase == ResolveHostname
    ensures EndsWell(w, s, Left(w, s), Driven(w, s, n))
    decreases |s.nameports|, |s.addrs|, 0
  {
    NamesLeft(w, s);
    var t := Step(s, Next(w, s));
    var m := RestCarriedOut(w, t);
    SameEnd(w, s, t, Left(w, s), Driven(w, t, m));
    n := m + 1;
    DrivenOnce(w, s, m);
  }

  /** The same once nothing may be left. */
  lemma {:induction false} RestCarriedOut(w: Network, t: Search) returns (m: nat)
    requires Searching(t) || (t.phase == Aborted && Left(w, t) == [])
    ensures EndsWell(w, t, Left(w, t), Driven(w, t, m))
    decreases |t.nameports|, |t.addrs|, 2
  {
    m := 0;
    if t.phase == Aborted {
      NothingLeftEnds(w, t, t);
    } else {
      m := SearchCarriedOut(w, t);
    }
  }

  lemma LeftAfter(w: Network, s: Search)
    requires Searching(s) && s.phase == Connect
    ensures Left(w, s) != [] && Left(w, s)[0] == s.addrs[0] && Left(w, s)[1..] == Left(w, Attempted(w, s))
  {
    AttemptIs(w, s);
  }

  lemma SameEnd(w: Network, s: Search, t: Search, left: seq<Endpoint>, u: Search)
    requires t.tried == s.tried && t.announced == s.announced && EndsWell(w, t, left, u)
    ensures EndsWell(w, s, left, u)
  {
  }

  lemma BeginsWith(w: Network, name: string, port: nat, service: Option<string>, literal: Option<Endpoint>)
    requires literal.None? && service.Some?
    ensures var s := Start(name, port, service, literal); var t := Step(s, Next(w, s));
      && t.tried == [] && t.announced == 0 && t.jobs == 0 && t.addrs == []
      && t.nameports == ServiceTargets(w, name, port)
      && if t.nameports == [] then t.phase == Aborted else Searching(t)
  {
  }

  lemma OneStepFirst(w: Network, s: Search, t: Search) returns (n: nat)
    requires Ready(s) && t == Step(s, Next(w, s)) && t.tried == s.tried && t.announced == s.announced
    requires Searching(t) || (t.phase == Aborted && Left(w, t) == [])
    ensures EndsWell(w, s, Left(w, t), Driven(w, s, n))
  {
    var m := RestCarriedOut(w, t);
    SameEnd(w, s, t, Left(w, t), Driven(w, t, m));
    n := m + 1;
    DrivenOnce(w, s, m);
  }

  lemma ServiceCarriedOut(w: Network, name: string, port: nat, service: Option<string>, literal: Option<Endpoint>)
    returns (n: nat)
    requires literal.None? && service.Some?
    ensures var s := Start(name, port, service, literal);
      EndsWell(w, s, AddressesOf(w, ServiceTargets(w, name, port)), Driven(w, s, n))
  {
    BeginsWith(w, name, port, service, literal);
    var s := Start(name, port, service, literal);
    var t := Step(s, Next(w, s));
    assert Left(w, t) == AddressesOf(w, ServiceTargets(w, name, port));
    n := OneStepFirst(w, s, t);
  }

  /** A search in a network tries the addresses of its plan in order, up to the first that is up, and is
      connected to that - or is given up after the last. The stream is told once, or not at all. */
  lemma PlanCarriedOut(w: Network, name: string, port: nat, service: Option<string>, literal: Option<Endpoint>)
    returns (n: nat)
    ensures var plan, s := Plan(w, name, port, service, literal), Start(name, port, service, literal);
      match plan
      case None => s.phase == Idle
      case Some(addrs) =>
        var t, i := Driven(w, s, n), FirstUp(w, addrs);
        if i < |addrs| then t.phase == Connected && t.tried == addrs[..i + 1] && t.announced == 1
        else t.phase == Aborted && t.tried == addrs && t.announced == 0
  {
    n := 0;
    var s := Start(name, port, service, literal);
    if literal.None? && service.Some? {
      n := ServiceCarriedOut(w, name, port, service, literal);
    } else if port != 0 {
      n := SearchCarriedOut(w, s);
      assert literal.Some? ==> Left(w, s) == [literal.value];
      assert literal.None? ==> Left(w, s) == AddressesOf(w, [Endpoint(name, port)]);
    }
  }
}
