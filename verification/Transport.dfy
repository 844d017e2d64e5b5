/** The search for an address to connect to (pyxmpp2/transport.py), with a resolver that answers at
    once. Answers of the resolver and outcomes of connect() are inputs. */
module Transport {
  import opened Text

  /** A host name or an address, with a port; no port is 0. */
  datatype Endpoint = Endpoint(host: string, port: nat)

  datatype Phase = Idle | ResolveSrv | ResolveHostname | Connect | Connecting | Connected | Aborted

  datatype Error = ValueError | DNSError | SocketError | PyXMPPIOError | AttributeError

  /** What a connect() on the socket may report. */
  datatype Outcome = Done | IsConnected | Blocking | Failed

  datatype Prepared = HandlerReady | PrepareAgain(now: bool) | Raised(error: Error)

  datatype Lookup = Lookup(target: Endpoint, answer: seq<string>)

  /** The fields of the transport, and its history: the targets of the search, the lookups made, the
      addresses given to connect(), and how often the stream was told of a connection. */
  datatype Search = Search(phase: Phase, name: string, port: nat, nameports: seq<Endpoint>, addrs: seq<Endpoint>,
                           socket: bool, jobs: nat, hup: bool,
                           targets: seq<Endpoint>, lookups: seq<Lookup>, tried: seq<Endpoint>, announced: nat)

  const NEW := Search(Idle, "", 0, [], [], false, 0, false, [], [], [], 0)

  // ---- The steps, as functions of the fields

  /** _connect: `literal` is the address that `name` is, if it is one. */
  function Begin(s0: Search, name: string, port: nat, service: Option<string>, literal: Option<Endpoint>): Search {
    var s := s0.(name := name, port := port);
    if literal.Some? then
      if port == 0 then s else s.(phase := Connect, addrs := [literal.value])
    else if service.Some? then s.(phase := ResolveSrv)
    else if port != 0 then
      s.(phase := ResolveHostname, nameports := [Endpoint(name, port)], targets := [Endpoint(name, port)])
    else s
  }

  /** A new transport told to connect. */
  function Start(name: string, port: nat, service: Option<string>, literal: Option<Endpoint>): Search {
    Begin(NEW, name, port, service, literal)
  }

  const NO_SERVICE := [Endpoint(".", 0)]

  function GotSrv(s: Search, found: seq<Endpoint>): Search {
    if found == NO_SERVICE || (found == [] && s.port == 0) then s.(phase := Aborted, nameports := [], targets := [])
    else
      var targets := if found == [] then [Endpoint(s.name, s.port)] else found;
      s.(phase := ResolveHostname, nameports := targets, targets := targets)
  }

  function WithPort(answer: seq<string>, port: nat): (addrs: seq<Endpoint>)
    ensures |addrs| == |answer| && forall i :: 0 <= i < |answer| ==> addrs[i] == Endpoint(answer[i], port)
  {
    if answer == [] then [] else [Endpoint(answer[0], port)] + WithPort(answer[1..], port)
  }

  /** The first name left is taken from the list and looked up. */
  function GotAddresses(s: Search, answer: seq<string>): Search
    requires s.nameports != []
  {
    var target := s.nameports[0];
    var t := s.(nameports := s.nameports[1..], lookups := s.lookups + [Lookup(target, answer)]);
    if answer != [] then t.(phase := Connect, addrs := WithPort(answer, target.port))
    else if t.nameports != [] then t.(phase := ResolveHostname)
    else t.(phase := Aborted, addrs := [])
  }

  function Retry(s: Search): Search
    requires s.addrs != [] || s.nameports != []
  {
    s.(phase := if s.addrs != [] then Connect else ResolveHostname)
  }

  function Announce(s: Search): Search {
    s.(phase := Connected, announced := s.announced + 1)
  }

  function StartConnect(s: Search, outcome: Outcome): Search
    requires s.addrs != []
  {
    var t := s.(addrs := s.addrs[1..], socket := true, tried := s.tried + [s.addrs[0]]);
    match outcome
    case Done => Announce(t)
    case Blocking => t.(phase := Connecting, jobs := t.jobs + 1)
    case _ => if t.addrs != [] || t.nameports != [] then Retry(t) else t.(phase := Aborted, socket := false, jobs := 0)
  }

  function ContinueConnect(s: Search, outcome: Outcome): Search {
    match outcome
    case Blocking => s
    case Failed => if s.addrs != [] || s.nameports != [] then Retry(s) else s.(phase := Aborted, socket := false)
    case _ => Announce(s)
  }

  function Write(s: Search, outcome: Outcome): Search {
    if s.jobs == 0 then s
    else if !s.socket then s.(jobs := s.jobs - 1)
    else ContinueConnect(s.(jobs := s.jobs - 1), outcome)
  }

  /** While an address is left, a hang-up or an error during a connection attempt moves on to it. */
  predicate MovesOn(s: Search) {
    s.phase == Connecting && s.addrs != []
  }

  function Hup(s: Search): Search {
    if MovesOn(s) then s.(phase := Connect, hup := false) else s.(hup := true)
  }

  function Err(s: Search): Search {
    if MovesOn(s) then s.(phase := Connect, hup := false)
    else if s.socket then s.(phase := Aborted, socket := false, jobs := 0)
    else s
  }

  /** What the main loop may do next, with the answers and outcomes that meets. */
  datatype Input =
    | Prepare(srv: seq<Endpoint>, hosts: seq<string>, dial: Outcome)
    | Writable(resumed: Outcome)
    | HangUp
    | SocketErr

  /** The lists that the next step takes an element from have one. */
  predicate Ready(s: Search) {
    && (s.phase == Connect ==> s.addrs != [])
    && (s.phase == ResolveHostname ==> s.nameports != [])
  }

  type ReadySearch = s: Search | Ready(s) witness NEW

  function Step(s: ReadySearch, input: Input): ReadySearch {
    match input
    case Prepare(srv, hosts, dial) => (
      match s.phase
      case ResolveSrv => GotSrv(s, srv)
      case ResolveHostname => GotAddresses(s, hosts)
      case Connect => StartConnect(s, dial)
      case _ => s)
    case Writable(resumed) => Write(s, resumed)
    case HangUp => Hup(s)
    case SocketErr => Err(s)
  }

  function Run(s: ReadySearch, inputs: seq<Input>): ReadySearch
    decreases |inputs|
  {
    if inputs == [] then s else Run(Step(s, inputs[0]), inputs[1..])
  }

  // ---- Candidates are tried in order

  function Asked(lookups: seq<Lookup>): seq<Endpoint> {
    if lookups == [] then [] else Asked(lookups[..|lookups| - 1]) + [lookups[|lookups| - 1].target]
  }

  /** All addresses found, in the order they were found. */
  function Found(lookups: seq<Lookup>): seq<Endpoint> {
    if lookups == [] then [] else
      var last := lookups[|lookups| - 1];
      Found(lookups[..|lookups| - 1]) + WithPort(last.answer, last.target.port)
  }

  /** No address is lost, repeated or taken out of order. */
  ghost predicate AddressesInOrder(s: Search, literal: seq<Endpoint>) {
    literal + Found(s.lookups) == s.tried + s.addrs
  }

  /** Nor is a name. */
  ghost predicate NamesInOrder(s: Search) {
    Asked(s.lookups) + s.nameports == s.targets
  }

  ghost predicate PhaseOk(s: Search) {
    && Ready(s)
    && (s.phase == ResolveSrv ==> s.nameports == [] && s.lookups == [] && s.addrs == [] && !s.socket)
    && (s.phase == ResolveHostname ==> s.addrs == [])
  }

  ghost predicate InOrder(s: Search, literal: seq<Endpoint>) {
    PhaseOk(s) && AddressesInOrder(s, literal) && NamesInOrder(s)
  }

  predicate NothingLeft(s: Search) {
    s.nameports == [] && s.addrs == []
  }

  lemma TakeFirst<T>(before: seq<T>, left: seq<T>)
    requires left != []
    ensures before + [left[0]] + left[1..] == before + left
  {
  }

  lemma OneMoreLookup(lookups: seq<Lookup>, l: Lookup)
    ensures Asked(lookups + [l]) == Asked(lookups) + [l.target]
    ensures Found(lookups + [l]) == Found(lookups) + WithPort(l.answer, l.target.port)
  {
    assert (lookups + [l])[..|lookups|] == lookups;
  }

  lemma LookedUpFields(s: Search, answer: seq<string>)
    requires s.nameports != [] && s.addrs == []
    ensures var t := GotAddresses(s, answer); var target := s.nameports[0];
      && t.lookups == s.lookups + [Lookup(target, answer)] && t.addrs == WithPort(answer, target.port)
      && t.tried == s.tried && t.nameports == s.nameports[1..] && t.targets == s.targets
  {
  }

  lemma LookupKeepsNames(s: Search, answer: seq<string>)
    requires s.nameports != [] && s.addrs == [] && NamesInOrder(s)
    ensures NamesInOrder(GotAddresses(s, answer))
  {
    LookedUpFields(s, answer);
    OneMoreLookup(s.lookups, Lookup(s.nameports[0], answer));
    TakeFirst(Asked(s.lookups), s.nameports);
  }

  lemma LookupKeepsAddresses(s: Search, answer: seq<string>, literal: seq<Endpoint>)
    requires s.nameports != [] && s.addrs == [] && AddressesInOrder(s, literal)
    ensures AddressesInOrder(GotAddresses(s, answer), literal)
  {
    LookedUpFields(s, answer);
    OneMoreLookup(s.lookups, Lookup(s.nameports[0], answer));
    FoundMore(literal, Found(s.lookups), WithPort(answer, s.nameports[0].port), s.tried);
  }

  lemma FoundMore(literal: seq<Endpoint>, found: seq<Endpoint>, more: seq<Endpoint>, tried: seq<Endpoint>)
    requires literal + found == tried + []
    ensures literal + (found + more) == tried + more
  {
    assert tried + [] == tried;
    assert literal + (found + more) == (literal + found) + more;
  }

  lemma PrepareKeepsAddresses(s: Search, input: Input, literal: seq<Endpoint>)
    requires InOrder(s, literal) && input.Prepare?
    ensures AddressesInOrder(Step(s, input), literal)
  {
    match s.phase
    case ResolveHostname => LookupKeepsAddresses(s, input.hosts, literal);
    case Connect => TakeFirst(s.tried, s.addrs);
    case _ =>
  }

  lemma PrepareKeepsNames(s: Search, input: Input, literal: seq<Endpoint>)
    requires InOrder(s, literal) && input.Prepare?
    ensures NamesInOrder(Step(s, input))
  {
    match s.phase
    case ResolveHostname => LookupKeepsNames(s, input.hosts);
    case ResolveSrv =>
      var t := GotSrv(s, input.srv);
      assert Asked([]) + t.nameports == t.targets;
    case _ =>
  }

  lemma StepKeepsPhase(s: Search, input: Input)
    requires PhaseOk(s)
    ensures PhaseOk(Step(s, input))
  {
  }

  lemma StepKeepsOrder(s: Search, input: Input, literal: seq<Endpoint>)
    requires InOrder(s, literal)
    ensures InOrder(Step(s, input), literal)
  {
    StepKeepsPhase(s, input);
    if input.Prepare? {
      PrepareKeepsAddresses(s, input, literal);
      PrepareKeepsNames(s, input, literal);
    } else {
      OthersKeepLists(s, input);
    }
  }

  /** Only prepare() looks names up or tries addresses. */
  lemma OthersKeepLists(s: Search, input: Input)
    requires Ready(s) && !input.Prepare?
    ensures var t := Step(s, input);
      && t.lookups == s.lookups && t.tried == s.tried && t.addrs == s.addrs && t.nameports == s.nameports
      && t.targets == s.targets
  {
  }

  lemma StepGivesUpLast(s: Search, input: Input)
    requires PhaseOk(s) && input != SocketErr && (s.phase == Aborted ==> NothingLeft(s))
    ensures Step(s, input).phase == Aborted ==> NothingLeft(Step(s, input))
  {
  }

  lemma {:induction false} RunKeepsOrder(s: Search, inputs: seq<Input>, literal: seq<Endpoint>)
    requires InOrder(s, literal)
    ensures InOrder(Run(s, inputs), literal)
    ensures SocketErr !in inputs && (s.phase == Aborted ==> NothingLeft(s)) && Run(s, inputs).phase == Aborted ==>
      NothingLeft(Run(s, inputs))
    decreases |inputs|
  {
    if inputs != [] {
      StepKeepsOrder(s, inputs[0], literal);
      if inputs[0] != SocketErr && (s.phase == Aborted ==> NothingLeft(s)) {
        StepGivesUpLast(s, inputs[0]);
      }
      RunKeepsOrder(Step(s, inputs[0]), inputs[1..], literal);
    }
  }

  /** Over any run, the addresses given to connect() are a prefix of those found, which come from a prefix
      of the targets; the rest of either list is still to be used. Unless the socket reports an error, the
      search is given up only when every target was looked up and every address tried. */
  lemma CandidatesInOrder(name: string, port: nat, service: Option<string>, literal: Option<Endpoint>,
                          inputs: seq<Input>)
    ensures var start := Start(name, port, service, literal); var s := Run(start, inputs);
      && s.tried + s.addrs == start.addrs + Found(s.lookups)
      && Asked(s.lookups) + s.nameports == s.targets
      && (s.phase == Aborted && SocketErr !in inputs ==>
            s.tried == start.addrs + Found(s.lookups) && Asked(s.lookups) == s.targets)
  {
    var start := Start(name, port, service, literal);
    RunKeepsOrder(start, inputs, start.addrs);
    var s := Run(start, inputs);
    if NothingLeft(s) {
      assert s.tried + s.addrs == s.tried && Asked(s.lookups) + s.nameports == Asked(s.lookups);
    }
  }

  /** A step gives up with candidates left just when the socket reports an error and no address of the
      host in use is left, or no attempt is under way: names left do not count. */
  lemma GivesUpEarlyIff(s: Search, input: Input)
    requires PhaseOk(s) && s.phase != Aborted
    ensures Step(s, input).phase == Aborted && !NothingLeft(Step(s, input)) <==>
      input == SocketErr && s.socket && !MovesOn(s) && !NothingLeft(s)
  {
  }

  const TWO_HOSTS := [Endpoint("a", 5222), Endpoint("b", 5222)]

  /** Two hosts are found, the first has one address, and the connection to that is not there yet. */
  const FIRST_ATTEMPT: seq<Input> :=
    [Prepare(TWO_HOSTS, [], Done), Prepare([], ["192.0.2.1"], Done), Prepare([], [], Blocking)]

  lemma FirstAttempt() returns (s: Search)
    ensures Ready(s) && s == Run(Start("example.org", 0, Some("xmpp-client"), None), FIRST_ATTEMPT)
    ensures s.phase == Connecting && s.socket && s.jobs == 1 && s.addrs == []
    ensures s.nameports == [Endpoint("b", 5222)] && s.tried == [Endpoint("192.0.2.1", 5222)]
  {
    var s0 := Start("example.org", 0, Some("xmpp-client"), None);
    var i0, i1, i2 := FIRST_ATTEMPT[0], FIRST_ATTEMPT[1], FIRST_ATTEMPT[2];
    assert |TWO_HOSTS| != |NO_SERVICE|;
    var s1 := Step(s0, i0);
    assert s1 == s0.(phase := ResolveHostname, nameports := TWO_HOSTS, targets := TWO_HOSTS);
    var s2 := Step(s1, i1);
    assert s2.phase == Connect && s2.tried == [] && s2.jobs == 0;
    assert s2.nameports == [TWO_HOSTS[1]] && s2.addrs == [Endpoint("192.0.2.1", 5222)];
    s := Step(s2, i2);
    RunCons(s2, i2, []);
    RunCons(s1, i1, [i2]);
    RunCons(s0, i0, [i1, i2]);
    assert [i2] + [] == [i2] && [i1] + [i2] == [i1, i2] && [i0] + [i1, i2] == FIRST_ATTEMPT;
  }

  /** An error then ends the search: the second host is not tried. */
  lemma SecondHostNotTried()
    ensures var s := Run(Start("example.org", 0, Some("xmpp-client"), None), FIRST_ATTEMPT + [SocketErr]);
      s.phase == Aborted && s.nameports == [Endpoint("b", 5222)] && s.tried == [Endpoint("192.0.2.1", 5222)]
  {
    var s := FirstAttempt();
    RunSnoc(Start("example.org", 0, Some("xmpp-client"), None), FIRST_ATTEMPT, SocketErr);
  }

  lemma RunCons(s: Search, input: Input, inputs: seq<Input>)
    requires Ready(s)
    ensures Run(s, [input] + inputs) == Run(Step(s, input), inputs)
  {
    assert ([input] + inputs)[1..] == inputs;
  }

  lemma {:induction false} RunSnoc(s: Search, inputs: seq<Input>, input: Input)
    requires Ready(s)
    ensures Run(s, inputs + [input]) == Step(Run(s, inputs), input)
    decreases |inputs|
  {
    if inputs == [] {
      RunCons(s, input, []);
    } else {
      RunSnoc(Step(s, inputs[0]), inputs[1..], input);
      RunCons(s, inputs[0], inputs[1..] + [input]);
      assert [inputs[0]] + (inputs[1..] + [input]) == inputs + [input];
    }
  }

  // ---- When an attempt stalls

  /** A connection attempt with no job that would continue it and no address to move on to. */
  predicate Stalled(s: Search) {
    s.phase == Connecting && s.jobs == 0 && s.addrs == []
  }

  predicate NoSocketErr(inputs: seq<Input>) {
    forall input <- inputs :: !input.SocketErr?
  }

  /** From the start on, there is a socket while connecting. */
  lemma {:induction false} SocketWhileConnecting(s: Search, inputs: seq<Input>)
    requires Ready(s) && (s.phase == Connecting ==> s.socket)
    ensures Run(s, inputs).phase == Connecting ==> Run(s, inputs).socket
    decreases |inputs|
  {
    if inputs != [] {
      SocketWhileConnecting(Step(s, inputs[0]), inputs[1..]);
    }
  }

  lemma {:induction false} StalledStays(s: Search, inputs: seq<Input>)
    requires Ready(s) && Stalled(s) && NoSocketErr(inputs)
    ensures Stalled(Run(s, inputs)) && Run(s, inputs).nameports == s.nameports
    decreases |inputs|
  {
    if inputs != [] {
      assert inputs[0] in inputs && forall input <- inputs[1..] :: input in inputs;
      StalledStays(Step(s, inputs[0]), inputs[1..]);
    }
  }

  /** At any point of a search: an attempt under way can end without a socket error if and only if it is
      not stalled, whatever names are left. */
  lemma StallsIff(name: string, port: nat, service: Option<string>, literal: Option<Endpoint>, before: seq<Input>)
    requires Run(Start(name, port, service, literal), before).phase == Connecting
    ensures var s := Run(Start(name, port, service, literal), before);
      Stalled(s) <==> forall inputs :: NoSocketErr(inputs) ==> Run(s, inputs).phase == Connecting
  {
    var s := Run(Start(name, port, service, literal), before);
    SocketWhileConnecting(Start(name, port, service, literal), before);
    if Stalled(s) {
      forall inputs | NoSocketErr(inputs) ensures Run(s, inputs).phase == Connecting {
        StalledStays(s, inputs);
      }
    } else {
      var input := if s.addrs != [] then HangUp else Writable(Done);
      RunCons(s, input, []);
      assert [input] + [] == [input];
      assert NoSocketErr([input]) && Run(s, [input]).phase != Connecting;
    }
  }

  /** An attempt stalls in exactly one way: its last job is taken, connect() reports again that it would
      block, and no address is left. The job is not put back. */
  lemma StallBegins(s: Search, input: Input)
    requires Ready(s) && (s.phase == Connecting ==> s.socket) && !Stalled(s)
    ensures Stalled(Step(s, input))
       <==> s.phase == Connecting && s.jobs == 1 && s.addrs == [] && input == Writable(Blocking)
  {
  }

  /** After the attempt above that leaves the second host untried for good. */
  lemma SecondHostNotReached(inputs: seq<Input>)
    requires NoSocketErr(inputs)
    ensures var start := Start("example.org", 0, Some("xmpp-client"), None);
      var s := Run(Run(start, FIRST_ATTEMPT + [Writable(Blocking)]), inputs);
      s.phase == Connecting && s.nameports == [Endpoint("b", 5222)]
  {
    var s := FirstAttempt();
    RunSnoc(Start("example.org", 0, Some("xmpp-client"), None), FIRST_ATTEMPT, Writable(Blocking));
    StalledStays(Step(s, Writable(Blocking)), inputs);
  }

  // ---- The search ends

  predicate Searching(s: Search) {
    s.phase in {ResolveSrv, ResolveHostname, Connect}
  }

  predicate Works(s: Search, input: Input) {
    input.Prepare? && Searching(s)
  }

  function PhaseRank(s: Search): nat {
    if s.phase == ResolveSrv then 1 else 0
  }

  predicate Smaller(t: Search, s: Search) {
    || PhaseRank(t) < PhaseRank(s)
    || (PhaseRank(t) == PhaseRank(s)
        && (|t.nameports| < |s.nameports| || (|t.nameports| == |s.nameports| && |t.addrs| < |s.addrs|)))
  }

  predicate SameSize(t: Search, s: Search) {
    PhaseRank(t) == PhaseRank(s) && |t.nameports| == |s.nameports| && |t.addrs| == |s.addrs|
  }

  /** The state a machine is in after inputs i to j of an endless schedule. */
  function Iterate<S, I>(step: (S, I) -> S, s: S, inputs: nat -> I, i: nat, j: nat): S
    requires i <= j
    decreases j - i
  {
    if i == j then s else step(Iterate(step, s, inputs, i, j - 1), inputs(j - 1))
  }

  lemma {:induction false} IterateOn<S, I>(step: (S, I) -> S, s: S, inputs: nat -> I, i: nat, j: nat, k: nat)
    requires i <= j <= k
    ensures Iterate(step, s, inputs, i, k) == Iterate(step, Iterate(step, s, inputs, i, j), inputs, j, k)
    decreases k - j
  {
    if j < k {
      IterateOn(step, s, inputs, i, j, k - 1);
    }
  }

  function After(s: ReadySearch, inputs: nat -> Input, i: nat, j: nat): ReadySearch
    requires i <= j
  {
    Iterate<ReadySearch, Input>(Step, s, inputs, i, j)
  }

  lemma StepShrinks(s: Search, input: Input)
    requires Ready(s)
    ensures Smaller(Step(s, input), s) || (SameSize(Step(s, input), s) && !Works(s, input))
    ensures s.phase != Idle ==> Step(s, input).phase != Idle
  {
  }

  lemma {:induction false} RunShrinks(s: Search, inputs: nat -> Input, i: nat, j: nat)
    requires Ready(s) && i <= j
    ensures Smaller(After(s, inputs, i, j), s) || SameSize(After(s, inputs, i, j), s)
    ensures s.phase != Idle ==> After(s, inputs, i, j).phase != Idle
    decreases j - i
  {
    if i < j {
      RunShrinks(s, inputs, i, j - 1);
      AfterShrinks(s, inputs, i, j);
      SmallerStill(After(s, inputs, i, j), After(s, inputs, i, j - 1), s);
    }
  }

  lemma {:induction false} AfterShrinks(s: Search, inputs: nat -> Input, i: nat, j: nat)
    requires Ready(s) && i < j
    ensures var t, u := After(s, inputs, i, j - 1), After(s, inputs, i, j);
      (Smaller(u, t) || SameSize(u, t)) && (t.phase != Idle ==> u.phase != Idle)
  {
    StepShrinks(After(s, inputs, i, j - 1), inputs(j - 1));
  }

  lemma SmallerStill(u: Search, t: Search, s: Search)
    requires (Smaller(u, t) || SameSize(u, t)) && (Smaller(t, s) || SameSize(t, s))
    ensures Smaller(u, s) || SameSize(u, s)
  {
  }

  ghost predicate RestsFrom(s: Search, inputs: nat -> Input, i: nat, n: nat)
    requires Ready(s) && i <= n
  {
    forall k: nat :: k >= n ==> !Works(After(s, inputs, i, k), inputs(k))
  }

  lemma WorkShrinks(s: Search, inputs: nat -> Input, i: nat, k: nat)
    requires Ready(s) && i <= k && Works(After(s, inputs, i, k), inputs(k))
    ensures Smaller(After(s, inputs, i, k + 1), s)
  {
    RunShrinks(s, inputs, i, k);
    StepShrinks(After(s, inputs, i, k), inputs(k));
  }

  lemma RestsLater(s: Search, inputs: nat -> Input, i: nat, k: nat, n: nat)
    requires Ready(s) && i <= k <= n && RestsFrom(After(s, inputs, i, k), inputs, k, n)
    ensures RestsFrom(s, inputs, i, n)
  {
    forall j: nat | j >= n ensures !Works(After(s, inputs, i, j), inputs(j)) {
      IterateOn<ReadySearch, Input>(Step, s, inputs, i, k, j);
      assert !Works(After(After(s, inputs, i, k), inputs, k, j), inputs(j));
    }
  }

  lemma SomeWork(s: Search, inputs: nat -> Input, i: nat) returns (k: nat, t: Search)
    requires Ready(s) && !RestsFrom(s, inputs, i, i)
    ensures i < k && t == After(s, inputs, i, k) && Smaller(t, s)
  {
    var j: nat :| j >= i && Works(After(s, inputs, i, j), inputs(j));
    WorkShrinks(s, inputs, i, j);
    k, t := j + 1, After(s, inputs, i, j + 1);
  }

  lemma {:induction false} WorkEnds(s: Search, inputs: nat -> Input, i: nat) returns (n: nat)
    requires Ready(s)
    ensures i <= n && RestsFrom(s, inputs, i, n)
    decreases PhaseRank(s), |s.nameports|, |s.addrs|
  {
    n := i;
    if !RestsFrom(s, inputs, i, i) {
      var k, t := SomeWork(s, inputs, i);
      n := WorkEnds(t, inputs, k);
      RestsLater(s, inputs, i, k, n);
    }
  }

  ghost predicate SettledFrom(s: Search, inputs: nat -> Input, n: nat)
    requires Ready(s)
  {
    forall k: nat :: k >= n && inputs(k).Prepare? ==> After(s, inputs, 0, k).phase in {Connecting, Connected, Aborted}
  }

  /** Whatever the answers, the outcomes and the order of events: from some point on, prepare() finds
      nothing to do any more, since an attempt is under way, has succeeded or the search was given up. */
  lemma SearchEnds(s: Search, inputs: nat -> Input)
    requires Ready(s) && s.phase != Idle
    ensures exists n: nat :: SettledFrom(s, inputs, n)
  {
    var n := WorkEnds(s, inputs, 0);
    forall k: nat | k >= n && inputs(k).Prepare?
      ensures After(s, inputs, 0, k).phase in {Connecting, Connected, Aborted}
    {
      RunShrinks(s, inputs, 0, k);
      assert !Works(After(s, inputs, 0, k), inputs(k));
    }
    assert SettledFrom(s, inputs, n);
  }

  // ---- How often the stream is told of a connection

  /** Moving on to the next address leaves the job of the attempt before in the write queue. */
  predicate LeavesJob(s: Search, input: Input) {
    MovesOn(s) && s.jobs > 0 && (input.HangUp? || input.SocketErr?)
  }

  predicate Tidy(s: Search, inputs: seq<Input>)
    requires Ready(s)
    decreases |inputs|
  {
    inputs == [] || (!LeavesJob(s, inputs[0]) && Tidy(Step(s, inputs[0]), inputs[1..]))
  }

  predicate AtMostOnce(s: Search) {
    && s.jobs <= (if s.phase == Connecting then 1 else 0)
    && s.announced <= (if s.phase in {Connected, Aborted} then 1 else 0)
  }

  lemma {:induction false} TidyAnnouncesOnce(s: Search, inputs: seq<Input>)
    requires Ready(s) && AtMostOnce(s) && Tidy(s, inputs)
    ensures AtMostOnce(Run(s, inputs))
    decreases |inputs|
  {
    if inputs != [] {
      assert AtMostOnce(Step(s, inputs[0]));
      TidyAnnouncesOnce(Step(s, inputs[0]), inputs[1..]);
    }
  }

  /** Once a job is left behind, the next address may answer at once and the old job announces it again. */
  const AGAIN := [Prepare([], [], Done), Writable(IsConnected)]

  lemma LeftJobAnnouncesTwice(s: Search, input: Input)
    requires Ready(s) && LeavesJob(s, input)
    ensures Run(s, [input] + AGAIN).announced == s.announced + 2
  {
    var t := Step(s, input);
    assert ([input] + AGAIN)[1..] == AGAIN && AGAIN[1..] == [AGAIN[1]];
    var u := Step(t, AGAIN[0]);
    assert u.jobs > 0 && u.socket;
    assert Run(u, [AGAIN[1]]) == Step(u, AGAIN[1]);
  }

  lemma {:induction false} UntidyAnnouncesTwice(s: Search, inputs: seq<Input>)
    requires Ready(s) && !Tidy(s, inputs)
    ensures exists k: nat :: k <= |inputs| && Run(s, inputs[..k] + AGAIN).announced >= 2
    decreases |inputs|
  {
    if LeavesJob(s, inputs[0]) {
      LeftJobAnnouncesTwice(s, inputs[0]);
      assert inputs[..1] == [inputs[0]];
    } else {
      UntidyAnnouncesTwice(Step(s, inputs[0]), inputs[1..]);
      var k: nat :| k <= |inputs[1..]| && Run(Step(s, inputs[0]), inputs[1..][..k] + AGAIN).announced >= 2;
      assert (inputs[..k + 1] + AGAIN)[1..] == inputs[1..][..k] + AGAIN;
    }
  }

  lemma {:induction false} TidyConcat(s: Search, a: seq<Input>, b: seq<Input>)
    requires Ready(s) && Tidy(s, a) && Tidy(Run(s, a), b)
    ensures Run(s, a + b) == Run(Run(s, a), b) && Tidy(s, a + b)
    decreases |a|
  {
    if a == [] {
      assert a + b == b;
    } else {
      assert (a + b)[0] == a[0] && (a + b)[1..] == a[1..] + b;
      TidyConcat(Step(s, a[0]), a[1..], b);
    }
  }

  /** A hang-up or an error that moves the search on while the job of the attempt is still queued is
      exactly what makes a run dangerous: without one, the stream is told of one connection at most at every
      point of the run and of every continuation that does without one too; with one, there is such a
      continuation that tells it twice. */
  lemma AnnouncedOnceIff(name: string, port: nat, service: Option<string>, literal: Option<Endpoint>,
                         inputs: seq<Input>)
    ensures var start := Start(name, port, service, literal);
      Tidy(start, inputs) <==>
      forall k: nat, more :: k <= |inputs| && Tidy(Run(start, inputs[..k]), more) ==>
        Run(start, inputs[..k] + more).announced <= 1
  {
    var start := Start(name, port, service, literal);
    if Tidy(start, inputs) {
      forall k: nat, more | k <= |inputs| && Tidy(Run(start, inputs[..k]), more)
        ensures Run(start, inputs[..k] + more).announced <= 1
      {
        TidyPrefix(start, inputs, k);
        TidyConcat(start, inputs[..k], more);
        TidyAnnouncesOnce(start, inputs[..k] + more);
      }
    } else {
      UntidyAnnouncesTwice(start, inputs);
      var k: nat :| k <= |inputs| && Run(start, inputs[..k] + AGAIN).announced >= 2;
      AgainIsTidy(Run(start, inputs[..k]));
    }
  }

  lemma AgainIsTidy(s: Search)
    requires Ready(s)
    ensures Tidy(s, AGAIN)
  {
    var t := Step(s, AGAIN[0]);
    assert AGAIN[1..] == [AGAIN[1]] && [AGAIN[1]][1..] == [];
    assert Tidy(Step(t, AGAIN[1]), []);
    assert Tidy(t, [AGAIN[1]]);
  }

  lemma {:induction false} TidyPrefix(s: Search, inputs: seq<Input>, k: nat)
    requires Ready(s) && Tidy(s, inputs) && k <= |inputs|
    ensures Tidy(s, inputs[..k])
    decreases k
  {
    if k > 0 {
      TidyPrefix(Step(s, inputs[0]), inputs[1..], k - 1);
      assert inputs[..k][1..] == inputs[1..][..k - 1];
    }
  }

  // ---- The transport

  class TCPTransport {
    var state: Phase
    var dstName: string
    var dstPort: nat
    var dstNameports: seq<Endpoint>
    var dstAddrs: seq<Endpoint>
    var dstAddr: Option<Endpoint>
    var socket: bool
    var writeQueue: nat
    var hup: bool
    ghost var targets: seq<Endpoint>
    ghost var lookups: seq<Lookup>
    ghost var tried: seq<Endpoint>
    ghost var announced: nat

    ghost function Now(): Search
      reads this
    {
      Search(state, dstName, dstPort, dstNameports, dstAddrs, socket, writeQueue, hup,
             targets, lookups, tried, announced)
    }

    constructor ()
      ensures Now() == NEW
    {
      state, dstName, dstPort, dstNameports, dstAddrs, dstAddr := Idle, "", 0, [], [], None;
      socket, writeQueue, hup := false, 0, false;
      targets, lookups, tried, announced := [], [], [], 0;
    }

    /** A literal address needs a port; without one, and without a service to look up, a name does too. */
    method ConnectTo(name: string, port: nat, service: Option<string>,
                     literal: Option<Endpoint>) returns (error: Option<Error>)
      modifies this
      ensures Now() == Begin(old(Now()), name, port, service, literal)
      ensures error == None <==> port != 0 || (literal == None && service != None)
      ensures error == None ==> Searching(Now()) && (old(Ready(Now())) ==> Ready(Now()))
    {
      dstName, dstPort := name, port;
      if literal.Some? {
        if port == 0 {
          return Some(ValueError);
        }
        dstAddrs := [literal.value];
        state := Connect;
      } else if service.Some? {
        state := ResolveSrv;
      } else if port != 0 {
        dstNameports, targets := [Endpoint(name, port)], [Endpoint(name, port)];
        state := ResolveHostname;
      } else {
        return Some(ValueError);
      }
      error := None;
    }

    method GotSrvAnswer(addrs: seq<Endpoint>) returns (error: Option<Error>)
      modifies this
      ensures Now() == GotSrv(old(Now()), addrs)
      ensures error == if state == Aborted then Some(DNSError) else None
    {
      error := None;
      if addrs == [] && dstPort != 0 {
        dstNameports, targets := [Endpoint(dstName, dstPort)], [Endpoint(dstName, dstPort)];
      } else if addrs == [] || addrs == NO_SERVICE {
        dstNameports, targets := [], [];
        state := Aborted;
        return Some(DNSError);
      } else {
        dstNameports, targets := addrs, addrs;
      }
      state := ResolveHostname;
    }

    /** _resolve_hostname, with the answer of the resolver given to _got_addresses. */
    method ResolveNext(answer: seq<string>) returns (error: Option<Error>)
      requires dstNameports != []
      modifies this
      ensures Now() == GotAddresses(old(Now()), answer)
      ensures error == if answer == [] && dstNameports == [] then Some(DNSError) else None
    {
      error := None;
      var target := dstNameports[0];
      dstNameports := dstNameports[1..];
      lookups := lookups + [Lookup(target, answer)];
      if answer == [] {
        if dstNameports != [] {
          state := ResolveHostname;
        } else {
          dstAddrs := [];
          state := Aborted;
          error := Some(DNSError);
        }
        return;
      }
      dstAddrs := WithPort(answer, target.port);
      state := Connect;
    }

    method BeginConnect(outcome: Outcome) returns (error: Option<Error>)
      requires dstAddrs != []
      modifies this
      ensures Now() == StartConnect(old(Now()), outcome) && dstAddr == Some(old(dstAddrs)[0])
      ensures error == if state == Aborted then Some(SocketError) else None
    {
      error := None;
      dstAddr := Some(dstAddrs[0]);
      dstAddrs := dstAddrs[1..];
      tried := tried + [dstAddr.value];
      socket := true;
      if outcome == Done {
        HasConnected();
      } else if outcome == Blocking {
        state := Connecting;
        writeQueue := writeQueue + 1;
      } else if dstAddrs != [] {
        state := Connect;
      } else if dstNameports != [] {
        state := ResolveHostname;
      } else {
        socket := false;
        state := Aborted;
        writeQueue := 0;
        error := Some(SocketError);
      }
    }

    method HasConnected()
      modifies `state, `announced
      ensures Now() == Announce(old(Now()))
    {
      announced := announced + 1;
      state := Connected;
    }

    method ContinueConnecting(outcome: Outcome) returns (error: Option<Error>)
      modifies `state, `announced, `socket
      ensures Now() == ContinueConnect(old(Now()), outcome)
      ensures error == if outcome == Failed && NothingLeft(old(Now())) then Some(SocketError) else None
    {
      error := None;
      if outcome == Blocking {
        return;
      } else if outcome == Failed {
        if dstAddrs != [] {
          state := Connect;
        } else if dstNameports != [] {
          state := ResolveHostname;
        } else {
          socket := false;
          state := Aborted;
          error := Some(SocketError);
        }
        return;
      }
      HasConnected();
    }

    /** prepare: the next step of the search, if there is one to make. */
    method PrepareNext(srv: seq<Endpoint>, hosts: seq<string>, dial: Outcome) returns (result: Prepared)
      requires Ready(Now())
      modifies this
      ensures Now() == Step(old(Now()), Prepare(srv, hosts, dial))
      ensures result.HandlerReady? <==> old(state) in {Connected, Aborted}
      ensures result.Raised? <==> Searching(old(Now())) && state == Aborted
      ensures result.PrepareAgain? ==> (result.now <==> old(state) in {ResolveSrv, ResolveHostname})
    {
      var error := None;
      if state in {Connected, Aborted} {
        return HandlerReady;
      } else if state == Connect {
        error := BeginConnect(dial);
        result := PrepareAgain(false);
      } else if state == ResolveHostname {
        error := ResolveNext(hosts);
        result := PrepareAgain(true);
      } else if state == ResolveSrv {
        error := GotSrvAnswer(srv);
        result := PrepareAgain(true);
      } else {
        result := PrepareAgain(false);
      }
      if error.Some? {
        result := Raised(error.value);
      }
    }

    /** handle_write, for a queue that holds nothing but connection jobs. */
    method HandleWrite(resumed: Outcome) returns (error: Option<Error>)
      modifies this
      ensures Now() == Write(old(Now()), resumed)
      ensures error == Some(AttributeError) <==> old(writeQueue) > 0 && !old(socket)
    {
      error := None;
      if writeQueue == 0 {
        return;
      }
      writeQueue := writeQueue - 1;
      if !socket {
        return Some(AttributeError);
      }
      error := ContinueConnecting(resumed);
    }

    method HandleHup()
      modifies `state, `hup
      ensures Now() == Hup(old(Now()))
    {
      if state == Connecting && dstAddrs != [] {
        hup := false;
        state := Connect;
        return;
      }
      hup := true;
    }

    method HandleErr() returns (error: Option<Error>)
      modifies this
      ensures Now() == Err(old(Now()))
      ensures error == if MovesOn(old(Now())) then None
                       else if old(socket) then Some(PyXMPPIOError) else Some(AttributeError)
    {
      if state == Connecting && dstAddrs != [] {
        hup := false;
        state := Connect;
        return None;
      }
      if !socket {
        return Some(AttributeError);
      }
      socket := false;
      state := Aborted;
      writeQueue := 0;
      error := Some(PyXMPPIOError);
    }
  }
}
