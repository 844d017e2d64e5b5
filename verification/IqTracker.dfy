/** IQ response handlers: registration, answers, expiry and clearing (pyxmpp2/stanzaprocessor.py over
    pyxmpp2/expdict.py). */
module IqTracker {
  import opened Text
  import opened Jid
  import opened ExpDict

  /** A call of set_response_handlers. `serial` tells registrations apart and `due` is the deadline it gets;
      the code keeps neither with the handlers. */
  datatype Registration = Registration(serial: nat, due: real, id: string, to: Option<string>,
                                       onResult: bool, onError: bool, onTimeout: bool)

  datatype Stanza = Stanza(id: string, from_: Option<JID>, isResult: bool)

  /** A handler run: the registration it belongs to and what set it off, with the reading of the clock. */
  datatype Cause = Answer(stanza: Stanza, me: Option<JID>, peer: Option<JID>, at: real) | Timeout(at: real)
  datatype HandlerRun = HandlerRun(reg: Registration, cause: Cause)

  type Key = (string, Option<string>)
  type Handlers = Dict<Key, Registration, Registration>

  /** `sameDomain` is are_domains_equal. */
  datatype Processor = Processor(handlers: Handlers, me: Option<JID>, peer: Option<JID>, next: nat,
                                 log: seq<HandlerRun>,
                                 sameDomain: (string, string) -> bool)

  function KeyOf(r: Registration): Key {
    (r.id, r.to)
  }

  function Sender(s: Stanza): Option<string> {
    if s.from_.Some? then Some(AsUnicode(s.from_.value)) else None
  }

  /** Senders that may answer a request that was sent to no one in particular. */
  predicate MayAnswerForUs(p: Processor, from_: Option<JID>) {
    || SameJid(p.sameDomain, from_, p.peer) || SameJid(p.sameDomain, from_, p.me)
    || (p.me.Some? && SameJid(p.sameDomain, from_, Some(BareJid(p.me.value))))
  }

  function TimeoutRuns(fired: seq<Fired<Key, Registration, Registration>>): (runs: seq<HandlerRun>)
    ensures |runs| == |fired|
    ensures forall i :: 0 <= i < |fired| ==> runs[i] == HandlerRun(fired[i].callback, Timeout(fired[i].at))
  {
    seq(|fired|, i requires 0 <= i < |fired| => HandlerRun(fired[i].callback, Timeout(fired[i].at)))
  }

  /** _set_response_handlers */
  function Register(p: Processor, r: Registration, timeout: real, dflt: real, now: real): Processor {
    var reg := r.(serial := p.next, due := now + (if timeout == 0.0 then dflt else timeout));
    p.(handlers := p.handlers.Set(KeyOf(reg), reg, timeout, if reg.onTimeout then Some(reg) else None, dflt, now),
       next := p.next + 1)
  }

  /** Whether the registration has a handler for the stanza's type. */
  predicate Handles(r: Registration, s: Stanza) {
    if s.isResult then r.onResult else r.onError
  }

  /** A registration popped, and the reading of the clock before it. */
  datatype Taken = Taken(reg: Registration, at: real)

  function TakenAt(r: Option<Registration>, at: real): Option<Taken> {
    if r.Some? then Some(Taken(r.value, at)) else None
  }

  /** Popping the registration a stanza answers: first by its sender, then, if that sender may answer
      for us, the one that was sent to no one. */
  function TakeRegistration(p: Processor, s: Stanza, now: real, later: real):
    (t: (Handlers, Option<Taken>, seq<Fired<Key, Registration, Registration>>))
    requires p.handlers.Valid()
    ensures t.0.Valid()
  {
    var (d1, r1, fired1) := p.handlers.Pop((s.id, Sender(s)), now);
    if r1.Some? || !MayAnswerForUs(p, s.from_) then (d1, TakenAt(r1, now), fired1) else
      var (d2, r2, fired2) := d1.Pop((s.id, None), later);
      (d2, TakenAt(r2, later), fired1 + fired2)
  }

  /** The handler run by a stanza, if the registration it answers has one for its type. */
  function AnswerRuns(p: Processor, s: Stanza, r: Option<Taken>): seq<HandlerRun> {
    if r.Some? && Handles(r.value.reg, s) then [HandlerRun(r.value.reg, Answer(s, p.me, p.peer, r.value.at))] else []
  }

  /** _process_iq_response: the new state and whether the stanza was handled. */
  function ProcessResponse(p: Processor, s: Stanza, now: real, later: real): (r: (Processor, bool))
    requires p.handlers.Valid()
    ensures r.0.handlers.Valid()
  {
    var (d, r, fired) := TakeRegistration(p, s, now, later);
    var answered := AnswerRuns(p, s, r);
    (p.(handlers := d, log := p.log + TimeoutRuns(fired) + answered), answered != [])
  }

  // ---- What holds of every run

  /** The registration an entry of the table belongs to, and its callback. */
  ghost predicate Filed(p: Processor) {
    && p.handlers.Valid()
    && (forall k :: k in p.handlers.items ==>
          && KeyOf(p.handlers.items[k]) == k && p.handlers.items[k].serial < p.next
          && p.handlers.timeouts[k].at == p.handlers.items[k].due
          && p.handlers.timeouts[k].callback
               == (if p.handlers.items[k].onTimeout then Some(p.handlers.items[k]) else None))
    && forall k, m :: k in p.handlers.items && m in p.handlers.items && k != m ==>
         p.handlers.items[k].serial != p.handlers.items[m].serial
  }

  /** The stanza comes from the address the request went to. */
  predicate FromRegistered(to: Option<string>, from_: Option<JID>) {
    match (to, from_)
    case (None, None) => true
    case (Some(address), Some(jid)) => address == AsUnicode(jid)
    case _ => false
  }

  predicate SameAddress(sameDomain: (string, string) -> bool, a: Option<JID>, b: Option<JID>) {
    match (a, b)
    case (None, None) => true
    case (Some(x), Some(y)) => x.local == y.local && x.resource == y.resource && sameDomain(x.domain, y.domain)
    case _ => false
  }

  /** The sender is the peer, or we ourselves, with our resource or without one. */
  predicate Allowed(sameDomain: (string, string) -> bool, me: Option<JID>, peer: Option<JID>, from_: Option<JID>) {
    || SameAddress(sameDomain, from_, peer) || SameAddress(sameDomain, from_, me)
    || (me.Some? && from_.Some? && from_.value.local == me.value.local && from_.value.resource == None
        && sameDomain(from_.value.domain, me.value.domain))
  }

  lemma SendersAre(p: Processor, s: Stanza, to: Option<string>)
    ensures to == Sender(s) <==> FromRegistered(to, s.from_)
    ensures MayAnswerForUs(p, s.from_) <==> Allowed(p.sameDomain, p.me, p.peer, s.from_)
  {
  }

  /** A handler run was right: a timeout handler when the deadline had come; another one before it, for an
      answer with the registered id, from the registered address, or for a request without one from an
      allowed sender, and of the type the handler was given for. */
  predicate Justified(p: Processor, run: HandlerRun) {
    match run.cause
    case Timeout(at) => run.reg.onTimeout && run.reg.due <= at
    case Answer(s, me, peer, at) =>
      && run.reg.due > at && s.id == run.reg.id && (if s.isResult then run.reg.onResult else run.reg.onError)
      && (FromRegistered(run.reg.to, s.from_)
          || (run.reg.to == None && Allowed(p.sameDomain, me, peer, s.from_)))
  }

  ghost predicate RunsOnce(log: seq<HandlerRun>) {
    forall i, j :: 0 <= i < j < |log| ==> log[i].reg.serial != log[j].reg.serial
  }

  /** A run is over for its registration: it is in the table no more. */
  ghost predicate Settled(p: Processor, log: seq<HandlerRun>) {
    forall i :: 0 <= i < |log| ==>
      log[i].reg.serial < p.next
      && forall k :: k in p.handlers.items ==> p.handlers.items[k].serial != log[i].reg.serial
  }

  ghost predicate InOrder(p: Processor) {
    && Filed(p)
    && RunsOnce(p.log) && Settled(p, p.log)
    && forall run <- p.log :: Justified(p, run)
  }

  /** A dictionary with fewer entries. */
  ghost predicate Fewer(d: Handlers, d1: Handlers) {
    && d.Valid() && d1.Valid()
    && (forall k :: k in d1.items ==> k in d.items && d1.items[k] == d.items[k] && d1.timeouts[k] == d.timeouts[k])
  }

  /** The runs of one step: of registrations that were in the table and have left it, each once. */
  ghost predicate Fresh(p: Processor, d1: Handlers, runs: seq<HandlerRun>) {
    && RunsOnce(runs)
    && forall i :: 0 <= i < |runs| ==>
         && KeyOf(runs[i].reg) in p.handlers.items && p.handlers.items[KeyOf(runs[i].reg)] == runs[i].reg
         && KeyOf(runs[i].reg) !in d1.items
         && Justified(p, runs[i])
  }

  /** Letting go of entries and running handlers of those let go keeps everything in order. */
  lemma StepKeepsInOrder(p: Processor, d1: Handlers, runs: seq<HandlerRun>)
    requires InOrder(p) && Fewer(p.handlers, d1) && Fresh(p, d1, runs)
    ensures InOrder(p.(handlers := d1, log := p.log + runs))
  {
    var p1 := p.(handlers := d1, log := p.log + runs);
    forall i, j | 0 <= i < j < |p1.log|
      ensures p1.log[i].reg.serial != p1.log[j].reg.serial
    {
      if i < |p.log| && j >= |p.log| {
        assert p1.log[j] == runs[j - |p.log|];
      }
    }
    forall i | 0 <= i < |p1.log|
      ensures p1.log[i].reg.serial < p1.next && Justified(p1, p1.log[i])
      ensures forall k :: k in d1.items ==> d1.items[k].serial != p1.log[i].reg.serial
    {
      if i < |p.log| {
        assert p1.log[i] == p.log[i] && p.log[i] in p.log;
      } else {
        assert p1.log[i] == runs[i - |p.log|];
      }
    }
  }

  lemma RegisterKeepsInOrder(p: Processor, r: Registration, timeout: real, dflt: real, now: real)
    requires InOrder(p)
    ensures InOrder(Register(p, r, timeout, dflt, now))
  {
  }

  lemma RegisterKeeps(p: Processor, r: Registration, timeout: real, dflt: real, now: real)
    ensures InOrder(p) ==> InOrder(Register(p, r, timeout, dflt, now))
  {
    if InOrder(p) {
      RegisterKeepsInOrder(p, r, timeout, dflt, now);
    }
  }

  /** One pop from the table. */
  lemma PopIsFresh(p: Processor, key: Key, now: real)
    requires Filed(p)
    ensures var (d, r, fired) := p.handlers.Pop(key, now);
      && Fewer(p.handlers, d) && Fresh(p, d, TimeoutRuns(fired))
      && (r.Some? ==>
            && fired == [] && key in p.handlers.items && r.value == p.handlers.items[key] && key !in d.items
            && r.value.due > now)
      && (|fired| > 0 ==> |fired| == 1 && KeyOf(fired[0].callback) == key)
      && (r.None? ==> forall k :: k in p.handlers.items && k != key ==> k in d.items)
  {
  }

  /** A second pop from what the first one left. */
  lemma FreshTwice(p: Processor, d1: Handlers, d2: Handlers, runs1: seq<HandlerRun>, runs2: seq<HandlerRun>)
    requires Filed(p) && Fewer(p.handlers, d1) && Fewer(d1, d2)
    requires Fresh(p, d1, runs1) && Fresh(p.(handlers := d1), d2, runs2)
    ensures Fewer(p.handlers, d2) && Fresh(p, d2, runs1 + runs2)
  {
    var runs := runs1 + runs2;
    forall i | 0 <= i < |runs|
      ensures KeyOf(runs[i].reg) in p.handlers.items && p.handlers.items[KeyOf(runs[i].reg)] == runs[i].reg
      ensures KeyOf(runs[i].reg) !in d2.items && Justified(p, runs[i])
      ensures i >= |runs1| ==> KeyOf(runs[i].reg) in d1.items
    {
      if i < |runs1| {
        assert runs[i] == runs1[i];
      } else {
        assert runs[i] == runs2[i - |runs1|];
        assert Justified(p.(handlers := d1), runs[i]) == Justified(p, runs[i]);
      }
    }
  }

  /** A second pop, by the same id with no address, from what the first one left. */
  lemma SecondPopIsFresh(p: Processor, d1: Handlers, fired1: seq<Fired<Key, Registration, Registration>>,
                         id: string, later: real)
    requires Filed(p) && Fewer(p.handlers, d1) && Fresh(p, d1, TimeoutRuns(fired1))
    ensures var (d2, r2, fired2) := d1.Pop((id, None), later); var fired := fired1 + fired2;
      && Fewer(p.handlers, d2) && Fresh(p, d2, TimeoutRuns(fired))
      && (r2.Some? ==>
            && KeyOf(r2.value) == (id, None) && (id, None) in d1.items && d1.items[(id, None)] == r2.value
            && (id, None) !in d2.items && r2.value.due > later
            && forall i :: 0 <= i < |fired| ==> fired[i].callback.serial != r2.value.serial)
  {
    PopIsFresh(p.(handlers := d1), (id, None), later);
    var (d2, r2, fired2) := d1.Pop((id, None), later);
    assert TimeoutRuns(fired1 + fired2) == TimeoutRuns(fired1) + TimeoutRuns(fired2);
    FreshTwice(p, d1, d2, TimeoutRuns(fired1), TimeoutRuns(fired2));
    forall i | 0 <= i < |fired1| && r2.Some? ensures fired1[i].callback.serial != r2.value.serial {
      assert TimeoutRuns(fired1)[i].reg == fired1[i].callback;
    }
  }

  lemma TakeIsFresh(p: Processor, s: Stanza, now: real, later: real)
    requires Filed(p)
    ensures var (d, r, fired) := TakeRegistration(p, s, now, later);
      && Fewer(p.handlers, d) && Fresh(p, d, TimeoutRuns(fired))
      && (r.Some? ==>
            && var reg := r.value.reg;
            && reg.id == s.id && KeyOf(reg) in p.handlers.items && KeyOf(reg) !in d.items
            && p.handlers.items[KeyOf(reg)] == reg && reg.due > r.value.at
            && (reg.to == Sender(s) || (reg.to == None && MayAnswerForUs(p, s.from_)))
            && forall i :: 0 <= i < |fired| ==> fired[i].callback.serial != reg.serial)
  {
    var key1: Key := (s.id, Sender(s));
    PopIsFresh(p, key1, now);
    var (d1, r1, fired1) := p.handlers.Pop(key1, now);
    if r1.None? && MayAnswerForUs(p, s.from_) {
      SecondPopIsFresh(p, d1, fired1, s.id, later);
    }
  }

  lemma ResponseKeepsInOrder(p: Processor, s: Stanza, now: real, later: real)
    requires InOrder(p)
    ensures InOrder(ProcessResponse(p, s, now, later).0)
  {
    TakeIsFresh(p, s, now, later);
    var (d, r, fired) := TakeRegistration(p, s, now, later);
    if r.Some? { SendersAre(p, s, r.value.reg.to); }
    var answer := AnswerRuns(p, s, r);
    var runs := TimeoutRuns(fired) + answer;
    assert p.log + TimeoutRuns(fired) + answer == p.log + runs;
    StepKeepsInOrder(p, d, runs);
  }

  lemma ResponseKeeps(p: Processor, s: Stanza, now: real, later: real)
    requires p.handlers.Valid()
    ensures InOrder(p) ==> InOrder(ProcessResponse(p, s, now, later).0)
  {
    if InOrder(p) {
      ResponseKeepsInOrder(p, s, now, later);
    }
  }

  function Expired(p: Processor, order: seq<Key>, clock: Key -> real): (r: Processor)
    requires p.handlers.Valid() && Distinct(order) && forall k <- order :: k in p.handlers.timeouts
    ensures r.handlers.Valid()
  {
    var (d, fired) := ExpireAll(p.handlers, order, clock);
    p.(handlers := d, log := p.log + TimeoutRuns(fired))
  }

  lemma TimeoutIsJustified(p: Processor, fired: Fired<Key, Registration, Registration>, at: real)
    requires Filed(p) && fired.key in p.handlers.timeouts && p.handlers.Expired(fired.key, at)
    requires p.handlers.Callbacks(fired.key, at) == [fired]
    ensures KeyOf(fired.callback) == fired.key && p.handlers.items[fired.key] == fired.callback
    ensures Justified(p, HandlerRun(fired.callback, Timeout(fired.at)))
  {
    assert p.handlers.timeouts[fired.key].callback.Some?;
    assert [fired][0] == fired;
  }

  lemma ExpiryKeepsInOrder(p: Processor, order: seq<Key>, clock: Key -> real)
    requires InOrder(p) && Distinct(order) && forall k <- order :: k in p.handlers.timeouts
    ensures InOrder(Expired(p, order, clock))
  {
    var (d, fired) := ExpireAll(p.handlers, order, clock);
    ExpireAllFires(p.handlers, order, clock);
    var runs := TimeoutRuns(fired);
    forall i | 0 <= i < |runs|
      ensures KeyOf(runs[i].reg) == fired[i].key && KeyOf(runs[i].reg) in p.handlers.items
      ensures p.handlers.items[KeyOf(runs[i].reg)] == runs[i].reg && KeyOf(runs[i].reg) !in d.items
      ensures Justified(p, runs[i])
    {
      FiredAt(p.handlers, order, clock, i);
      assert fired[i].key in order && fired[i].key in p.handlers.timeouts;
      TimeoutIsJustified(p, fired[i], clock(fired[i].key));
    }
    StepKeepsInOrder(p, d, runs);
  }

  /** What can happen to a processor. An expiry goes through the table in some order. */
  datatype Op =
    | Add(reg: Registration, timeout: real, dflt: real, at: real)
    | Receive(stanza: Stanza, now: real, later: real)
    | Tick(order: seq<Key>, clock: Key -> real)
    | Clear
    | Identify(me: Option<JID>, peer: Option<JID>)

  predicate Covers(order: seq<Key>, d: Handlers) {
    Distinct(order) && (forall k <- order :: k in d.timeouts) && forall k <- d.timeouts :: k in order
  }

  function Happen(p: Processor, op: Op): (r: Processor)
    requires p.handlers.Valid()
    ensures r.handlers.Valid()
  {
    match op
    case Add(reg, timeout, dflt, at) => Register(p, reg, timeout, dflt, at)
    case Receive(stanza, now, later) => ProcessResponse(p, stanza, now, later).0
    case Tick(order, clock) =>
      if Covers(order, p.handlers) then Expired(p, order, clock) else p
    case Clear => p.(handlers := Dict(map[], map[]))
    case Identify(me, peer) => p.(me := me, peer := peer)
  }

  lemma HappenKeepsInOrder(p: Processor, op: Op)
    requires InOrder(p)
    ensures InOrder(Happen(p, op))
  {
    match op
    case Add(reg, timeout, dflt, at) => RegisterKeepsInOrder(p, reg, timeout, dflt, at);
    case Receive(stanza, now, later) => ResponseKeepsInOrder(p, stanza, now, later);
    case Tick(order, clock) =>
      if Covers(order, p.handlers) {
        ExpiryKeepsInOrder(p, order, clock);
      }
    case Clear =>
    case Identify(me, peer) =>
      assert forall run :: Justified(p, run) == Justified(Happen(p, op), run);
  }

  function Run(p: Processor, ops: seq<Op>): (r: Processor)
    requires p.handlers.Valid()
    ensures r.handlers.Valid()
    decreases ops
  {
    if ops == [] then p else Run(Happen(p, ops[0]), ops[1..])
  }

  lemma {:induction false} RunKeepsInOrder(p: Processor, ops: seq<Op>)
    requires InOrder(p)
    ensures InOrder(Run(p, ops))
    decreases ops
  {
    if ops != [] {
      HappenKeepsInOrder(p, ops[0]);
      RunKeepsInOrder(Happen(p, ops[0]), ops[1..]);
    }
  }

  function NewProcessor(me: Option<JID>, peer: Option<JID>, sameDomain: (string, string) -> bool): Processor {
    Processor(Dict(map[], map[]), me, peer, 0, [], sameDomain)
  }

  /** Over any run at most one handler of a registration runs - result, error or timeout - and only for
      a reason; values and deadlines always have the same keys. */
  lemma HandlersRunAtMostOnce(me: Option<JID>, peer: Option<JID>, sameDomain: (string, string) -> bool, ops: seq<Op>)
    ensures var p := Run(NewProcessor(me, peer, sameDomain), ops);
      && (forall i, j :: 0 <= i < j < |p.log| ==> p.log[i].reg.serial != p.log[j].reg.serial)
      && (forall run <- p.log :: Justified(p, run))
      && p.handlers.items.Keys == p.handlers.timeouts.Keys
  {
    RunKeepsInOrder(NewProcessor(me, peer, sameDomain), ops);
  }

  /** The runs of a timeout handler at a deadline. */
  function LateRuns(reg: Registration, at: real): seq<HandlerRun> {
    if reg.onTimeout then [HandlerRun(reg, Timeout(at))] else []
  }

  /** What is left of a key that is looked up late, or not there. */
  ghost predicate GoneBy(p: Processor, key: Key, now: real)
    requires Filed(p)
  {
    key in p.handlers.items ==> p.handlers.items[key].due <= now
  }

  function RunsFor(p: Processor, key: Key, at: real): seq<HandlerRun> {
    if key in p.handlers.items then LateRuns(p.handlers.items[key], at) else []
  }

  /** The first pop when there is nothing to hand over. */
  lemma LatePop(p: Processor, key: Key, now: real)
    requires Filed(p) && GoneBy(p, key, now)
    ensures var (d1, r1, fired1) := p.handlers.Pop(key, now);
      && r1.None? && d1 == p.handlers.Without(key) && TimeoutRuns(fired1) == RunsFor(p, key, now)
  {
    if key !in p.handlers.items {
      assert p.handlers.items - {key} == p.handlers.items && p.handlers.timeouts - {key} == p.handlers.timeouts;
    }
  }

  lemma WithoutIsFiled(p: Processor, key: Key)
    requires Filed(p)
    ensures Filed(p.(handlers := p.handlers.Without(key)))
  {
  }

  /** An answer from the registered address that comes in time runs the handler for its type and nothing
      else, and the registration is gone. */
  lemma AnswerInTime(p: Processor, s: Stanza, now: real, later: real)
    requires Filed(p) && (s.id, Sender(s)) in p.handlers.items && p.handlers.items[(s.id, Sender(s))].due > now
    ensures var key := (s.id, Sender(s)); var reg := p.handlers.items[key];
      var (p1, handled) := ProcessResponse(p, s, now, later);
      && p1.handlers == p.handlers.Without(key) && handled == Handles(reg, s)
      && p1.log == p.log + AnswerRuns(p, s, Some(Taken(reg, now)))
  {
    assert p.log + TimeoutRuns([]) == p.log;
  }

  /** One that comes late runs the timeout handler and nothing else, if the sender may not answer for us or
      there is none. The registration is gone. */
  lemma AnswerTooLate(p: Processor, s: Stanza, now: real, later: real)
    requires Filed(p) && GoneBy(p, (s.id, Sender(s)), now)
    requires !MayAnswerForUs(p, s.from_) || Sender(s) == None
    ensures var key := (s.id, Sender(s)); var (p1, handled) := ProcessResponse(p, s, now, later);
      !handled && p1.handlers == p.handlers.Without(key) && p1.log == p.log + RunsFor(p, key, now)
  {
    var key := (s.id, Sender(s));
    LatePop(p, key, now);
    var fired1 := p.handlers.Pop(key, now).2;
    assert fired1 + [] == fired1;
    assert p.log + RunsFor(p, key, now) + [] == p.log + RunsFor(p, key, now);
  }

  /** With nothing to hand over for its own address, an answer from a sender that may answer for us goes
      to the request with the same id that was sent to no one: in time it runs the handler for its type. A
      timeout handler that was due under the address runs before. Both registrations are gone. */
  lemma FallbackInTime(p: Processor, s: Stanza, now: real, later: real)
    requires Filed(p) && GoneBy(p, (s.id, Sender(s)), now) && Sender(s) != None && MayAnswerForUs(p, s.from_)
    requires (s.id, None) in p.handlers.items && p.handlers.items[(s.id, None)].due > later
    ensures var reg := p.handlers.items[(s.id, None)]; var (p1, handled) := ProcessResponse(p, s, now, later);
      && p1.handlers == p.handlers.Without((s.id, Sender(s))).Without((s.id, None)) && handled == Handles(reg, s)
      && p1.log == p.log + RunsFor(p, (s.id, Sender(s)), now) + AnswerRuns(p, s, Some(Taken(reg, later)))
  {
    var key := (s.id, Sender(s));
    LatePop(p, key, now);
    var (d1, r1, fired1) := p.handlers.Pop(key, now);
    assert fired1 + [] == fired1;
  }

  /** And late it runs the timeout handler of that request instead. */
  lemma FallbackTooLate(p: Processor, s: Stanza, now: real, later: real)
    requires Filed(p) && GoneBy(p, (s.id, Sender(s)), now) && Sender(s) != None && MayAnswerForUs(p, s.from_)
    requires GoneBy(p, (s.id, None), later)
    ensures var (p1, handled) := ProcessResponse(p, s, now, later);
      && !handled && p1.handlers == p.handlers.Without((s.id, Sender(s))).Without((s.id, None))
      && p1.log == p.log + RunsFor(p, (s.id, Sender(s)), now) + RunsFor(p, (s.id, None), later)
  {
    var key, anyone: Key := (s.id, Sender(s)), (s.id, None);
    LatePop(p, key, now);
    var (d1, r1, fired1) := p.handlers.Pop(key, now);
    var p1 := p.(handlers := d1);
    WithoutIsFiled(p, key);
    LatePop(p1, anyone, later);
    var (d2, r2, fired2) := d1.Pop(anyone, later);
    assert RunsFor(p1, anyone, later) == RunsFor(p, anyone, later);
    TwoTimeouts(p.log, fired1, fired2);
  }

  lemma TwoTimeouts(log: seq<HandlerRun>, fired1: seq<Fired<Key, Registration, Registration>>,
                    fired2: seq<Fired<Key, Registration, Registration>>)
    ensures log + TimeoutRuns(fired1 + fired2) + [] == log + TimeoutRuns(fired1) + TimeoutRuns(fired2)
  {
    assert TimeoutRuns(fired1 + fired2) == TimeoutRuns(fired1) + TimeoutRuns(fired2);
  }

  // ---- What is registered is served

  /** The registration as it is filed: with the next number, and the deadline. */
  function FiledAs(p: Processor, r: Registration, timeout: real, dflt: real, now: real): Registration {
    Registration(p.next, if timeout == 0.0 then now + dflt else now + timeout, r.id, r.to, r.onResult, r.onError,
                 r.onTimeout)
  }

  /** Registering files the handlers under the id and the address, with their deadline, and changes nothing
      else. */
  lemma RegisterFiles(p: Processor, r: Registration, timeout: real, dflt: real, now: real)
    requires p.handlers.Valid()
    ensures var p1, reg := Register(p, r, timeout, dflt, now), FiledAs(p, r, timeout, dflt, now);
      && (r.id, r.to) in p1.handlers.items && p1.handlers.items[(r.id, r.to)] == reg
      && p1.handlers.timeouts[(r.id, r.to)] == Deadline(reg.due, if r.onTimeout then Some(reg) else None)
      && (forall k: Key :: k != (r.id, r.to) ==>
            && (k in p1.handlers.items <==> k in p.handlers.items)
            && (k in p.handlers.items ==>
                  p1.handlers.items[k] == p.handlers.items[k] && p1.handlers.timeouts[k] == p.handlers.timeouts[k]))
      && p1.(handlers := p.handlers) == p.(next := p.next + 1)
  {
  }

  /** The operation leaves the entry under the key alone: it registers nothing under it, is no answer that
      takes it, does not clear the table, and no expiry that finds it due. */
  predicate LeavesAlone(p: Processor, op: Op, key: Key, due: real) {
    match op
    case Add(reg, _, _, _) => reg.id != key.0 || reg.to != key.1
    case Receive(s, _, _) =>
      s.id != key.0
      || (!FromRegistered(key.1, s.from_)
          && (key.1 != None || !Allowed(p.sameDomain, p.me, p.peer, s.from_)))
    case Tick(_, clock) => clock(key) < due
    case Clear => false
    case Identify(_, _) => true
  }

  predicate AllLeaveAlone(p: Processor, ops: seq<Op>, key: Key, due: real)
    requires p.handlers.Valid()
    decreases ops
  {
    ops == [] || (LeavesAlone(p, ops[0], key, due) && AllLeaveAlone(Happen(p, ops[0]), ops[1..], key, due))
  }

  ghost predicate Holds(p: Processor, reg: Registration) {
    Filed(p) && (reg.id, reg.to) in p.handlers.items && p.handlers.items[(reg.id, reg.to)] == reg
  }

  lemma HappenKeepsFiled(p: Processor, op: Op)
    requires Filed(p)
    ensures Filed(Happen(p, op))
  {
    match op
    case Receive(s, now, later) => TakeIsFresh(p, s, now, later);
    case _ =>
  }

  lemma LeftAlone(p: Processor, op: Op, reg: Registration)
    requires Holds(p, reg) && LeavesAlone(p, op, (reg.id, reg.to), reg.due)
    ensures Holds(Happen(p, op), reg)
  {
    HappenKeepsFiled(p, op);
    if op.Receive? {
      NotTaken(p, op.stanza, op.now, op.later, reg);
    }
  }

  lemma NotTaken(p: Processor, s: Stanza, now: real, later: real, reg: Registration)
    requires Holds(p, reg)
    requires s.id != reg.id
      || (!FromRegistered(reg.to, s.from_) && (reg.to != None || !Allowed(p.sameDomain, p.me, p.peer, s.from_)))
    ensures var d := TakeRegistration(p, s, now, later).0;
      (reg.id, reg.to) in d.items && d.items[(reg.id, reg.to)] == reg
  {
    SendersAre(p, s, reg.to);
  }

  lemma {:induction false} StaysFiled(p: Processor, ops: seq<Op>, reg: Registration)
    requires Holds(p, reg) && AllLeaveAlone(p, ops, (reg.id, reg.to), reg.due)
    ensures Holds(Run(p, ops), reg)
    decreases ops
  {
    if ops != [] {
      LeftAlone(p, ops[0], reg);
      StaysFiled(Happen(p, ops[0]), ops[1..], reg);
    }
  }

  /** The state after a registration and then a run that leaves it alone. */
  function Later(p: Processor, r: Registration, timeout: real, dflt: real, at: real, ops: seq<Op>): (p1: Processor)
    requires p.handlers.Valid()
    ensures p1.handlers.Valid()
  {
    Run(Register(p, r, timeout, dflt, at), ops)
  }

  lemma StillFiled(p: Processor, r: Registration, timeout: real, dflt: real, at: real, ops: seq<Op>)
    requires InOrder(p)
    requires AllLeaveAlone(Register(p, r, timeout, dflt, at), ops, (r.id, r.to), FiledAs(p, r, timeout, dflt, at).due)
    ensures Holds(Later(p, r, timeout, dflt, at, ops), FiledAs(p, r, timeout, dflt, at))
  {
    RegisterKeepsInOrder(p, r, timeout, dflt, at);
    RegisterFiles(p, r, timeout, dflt, at);
    StaysFiled(Register(p, r, timeout, dflt, at), ops, FiledAs(p, r, timeout, dflt, at));
  }

  /** Whoever registers a handler gets its answer: whatever else happened since, an answer in time, of a type
      there is a handler for and from the address the request went to, runs exactly that handler. */
  lemma AnswerIsServed(p: Processor, r: Registration, timeout: real, dflt: real, at: real, ops: seq<Op>, s: Stanza,
                       now: real, later: real)
    requires InOrder(p)
    requires AllLeaveAlone(Register(p, r, timeout, dflt, at), ops, (r.id, r.to), FiledAs(p, r, timeout, dflt, at).due)
    requires s.id == r.id && FromRegistered(r.to, s.from_) && (if s.isResult then r.onResult else r.onError)
    requires now < FiledAs(p, r, timeout, dflt, at).due
    ensures var p2 := Later(p, r, timeout, dflt, at, ops); var (p3, handled) := ProcessResponse(p2, s, now, later);
      && handled && (r.id, r.to) !in p3.handlers.items
      && p3.log == p2.log + [HandlerRun(FiledAs(p, r, timeout, dflt, at), Answer(s, p2.me, p2.peer, now))]
  {
    StillFiled(p, r, timeout, dflt, at, ops);
    var p2 := Later(p, r, timeout, dflt, at, ops);
    SendersAre(p2, s, r.to);
    AnswerInTime(p2, s, now, later);
  }

  /** The same for a request sent to no one, answered by the peer or by ourselves, unless a handler for that
      sender itself is there. */
  lemma AnyoneIsServed(p: Processor, r: Registration, timeout: real, dflt: real, at: real, ops: seq<Op>, s: Stanza,
                       now: real, later: real)
    requires InOrder(p) && r.to == None
    requires AllLeaveAlone(Register(p, r, timeout, dflt, at), ops, (r.id, None), FiledAs(p, r, timeout, dflt, at).due)
    requires var p2 := Later(p, r, timeout, dflt, at, ops);
      && s.from_.Some? && Allowed(p2.sameDomain, p2.me, p2.peer, s.from_)
      && (r.id, Some(AsUnicode(s.from_.value))) !in p2.handlers.items
    requires s.id == r.id && (if s.isResult then r.onResult else r.onError)
    requires later < FiledAs(p, r, timeout, dflt, at).due
    ensures var p2 := Later(p, r, timeout, dflt, at, ops); var (p3, handled) := ProcessResponse(p2, s, now, later);
      && handled && (r.id, None) !in p3.handlers.items
      && p3.log == p2.log + [HandlerRun(FiledAs(p, r, timeout, dflt, at), Answer(s, p2.me, p2.peer, later))]
  {
    StillFiled(p, r, timeout, dflt, at, ops);
    var p2 := Later(p, r, timeout, dflt, at, ops);
    SendersAre(p2, s, r.to);
    FallbackInTime(p2, s, now, later);
    assert p2.log + [] == p2.log;
  }

  /** And at an expiry when the deadline has come the timeout handler runs, if there is one. */
  lemma TimeoutIsServed(p: Processor, r: Registration, timeout: real, dflt: real, at: real, ops: seq<Op>,
                        order: seq<Key>, clock: Key -> real)
    requires InOrder(p) && r.onTimeout
    requires AllLeaveAlone(Register(p, r, timeout, dflt, at), ops, (r.id, r.to), FiledAs(p, r, timeout, dflt, at).due)
    requires Covers(order, Later(p, r, timeout, dflt, at, ops).handlers)
    requires clock((r.id, r.to)) >= FiledAs(p, r, timeout, dflt, at).due
    ensures var p2 := Later(p, r, timeout, dflt, at, ops); var p3 := Happen(p2, Tick(order, clock));
      && (r.id, r.to) !in p3.handlers.items
      && HandlerRun(FiledAs(p, r, timeout, dflt, at), Timeout(clock((r.id, r.to)))) in p3.log[|p2.log|..]
  {
    StillFiled(p, r, timeout, dflt, at, ops);
    var p2, key, reg := Later(p, r, timeout, dflt, at, ops), (r.id, r.to), FiledAs(p, r, timeout, dflt, at);
    var fired := ExpireAll(p2.handlers, order, clock).1;
    ExpireAllFires(p2.handlers, order, clock);
    assert FiredFor(fired, key);
    var i :| 0 <= i < |fired| && fired[i].key == key;
    assert fired[i] in fired && p2.handlers.Callbacks(key, clock(key))[0] == fired[i];
    var runs := TimeoutRuns(fired);
    assert runs[i] == HandlerRun(reg, Timeout(clock(key))) && runs[i] in runs;
    assert (p2.log + runs)[|p2.log|..] == runs;
  }

  // ---- The object

  class StanzaProcessor {
    const responseHandlers: ExpiringDictionary<Key, Registration, Registration>
    const sameDomain: (string, string) -> bool
    var me: Option<JID>
    var peer: Option<JID>
    /** Number of registrations made and the handler runs so far. */
    var next: nat
    var log: seq<HandlerRun>

    ghost function Now(): Processor
      reads this, responseHandlers
    {
      Processor(responseHandlers.Now(), me, peer, next, log, sameDomain)
    }

    ghost predicate Valid()
      reads this, responseHandlers
    {
      responseHandlers.Now().Valid()
    }

    constructor (me: Option<JID>, peer: Option<JID>, defaultTimeout: real, sameDomain: (string, string) -> bool)
      ensures fresh(responseHandlers) && responseHandlers.defaultTimeout == defaultTimeout
      ensures Valid() && Now() == NewProcessor(me, peer, sameDomain)
    {
      this.me, this.peer, this.sameDomain := me, peer, sameDomain;
      responseHandlers := new ExpiringDictionary(defaultTimeout);
      next, log := 0, [];
    }

    /** _set_response_handlers; a later registration under the same id and address replaces this one. */
    method SetResponseHandlers(r: Registration, timeout: real, now: real)
      requires Valid()
      modifies this, responseHandlers
      ensures Valid() && Now() == Register(old(Now()), r, timeout, responseHandlers.defaultTimeout, now)
      ensures old(InOrder(Now())) ==> InOrder(Now())
    {
      ghost var p := Now();
      var due := now + (if timeout == 0.0 then responseHandlers.defaultTimeout else timeout);
      var reg := r.(serial := next, due := due);
      next := next + 1;
      responseHandlers.SetItem((reg.id, reg.to), reg, timeout, if reg.onTimeout then Some(reg) else None, now);
      RegisterKeeps(p, r, timeout, responseHandlers.defaultTimeout, now);
    }

    method ProcessIqResponse(s: Stanza, now: real, later: real) returns (handled: bool)
      requires Valid()
      modifies this, responseHandlers
      ensures Valid() && (Now(), handled) == ProcessResponse(old(Now()), s, now, later)
      ensures old(InOrder(Now())) ==> InOrder(Now())
    {
      ghost var p := Now();
      ResponseKeeps(p, s, now, later);
      var ufrom := if s.from_.Some? then Some(AsUnicode(s.from_.value)) else None;
      var r, fired := responseHandlers.Pop((s.id, ufrom), None, now);
      var all, at := fired, now;
      if r.None? {
        var allowed := SameJid(sameDomain, s.from_, peer) || SameJid(sameDomain, s.from_, me)
          || (me.Some? && SameJid(sameDomain, s.from_, Some(BareJid(me.value))));
        if allowed {
          var more;
          r, more := responseHandlers.Pop((s.id, None), None, later);
          all, at := fired + more, later;
        }
      }
      log := log + TimeoutRuns(all);
      assert log + [] == log;
      if r.None? {
        return false;
      }
      if s.isResult {
        if !r.value.onResult { return false; }
      } else {
        if !r.value.onError { return false; }
      }
      log := log + [HandlerRun(r.value, Answer(s, me, peer, at))];
      return true;
    }

    method Expire(clock: Key -> real) returns (soonest: Option<real>, ghost order: seq<Key>)
      requires Valid()
      modifies this, responseHandlers
      ensures Valid() && Covers(order, old(Now()).handlers)
      ensures Now() == Expired(old(Now()), order, clock)
      ensures old(InOrder(Now())) ==> InOrder(Now())
    {
      ghost var p := Now();
      var fired;
      soonest, fired, order := responseHandlers.Expire(clock);
      log := log + TimeoutRuns(fired);
      assert Covers(order, p.handlers);
      assert Now() == Expired(p, order, clock);
      if InOrder(p) { ExpiryKeepsInOrder(p, order, clock); }
    }

    method ClearResponseHandlers()
      requires Valid()
      modifies responseHandlers
      ensures Valid() && Now() == Happen(old(Now()), Clear)
    {
      responseHandlers.Clear();
    }
  }
}
