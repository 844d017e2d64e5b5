/** Whatever arrives: what a SCRAM client's success means over any run. */
module ScramRuns {
  import opened Text
  import opened Bytes
  import opened ScramMessages
  import opened Scram
  import R = Rfc5802

  /** A call on the client: a challenge, or success with optional data. */
  datatype Call = Challenged(challenge: string) | Finished(data: Option<string>)

  /** The same with the messages parsed. */
  datatype Event = ChallengedBy(h: Heard) | FinishedBy(mh: Option<Heard>)

  function Parse(call: Call): Event {
    match call
    case Challenged(challenge) => ChallengedBy(Hear(challenge))
    case Finished(data) => FinishedBy(HearMaybe(data))
  }

  function ParseAll(calls: seq<Call>): (events: seq<Event>)
    ensures |events| == |calls|
  {
    if calls == [] then [] else ParseAll(calls[..|calls| - 1]) + [Parse(calls[|calls| - 1])]
  }

  function Step(k: Crypto, c: Client, e: Event): (Client, Reply) {
    match e
    case ChallengedBy(h) => ClientChallenge(k, c, h)
    case FinishedBy(mh) => Finish(k, c, mh)
  }

  function After(k: Crypto, c: Client, events: seq<Event>): Client {
    if events == [] then c else
      Step(k, After(k, c, events[..|events| - 1]), events[|events| - 1]).0
  }

  /** The reply to the last call of a run from the start. */
  function LastReply(k: Crypto, setup: ClientSetup, events: seq<Event>): Reply
    requires events != []
  {
    Step(k, After(k, StartClient(k, setup).0, events[..|events| - 1]), events[|events| - 1]).1
  }

  // ---- The specification: nothing here speaks of the client's state, or uses its functions

  predicate LooksFirst(e: Event) {
    e.ChallengedBy? && e.h.data != "" && e.h.first.Some?
  }

  /** Position of the first well-formed first message, or |events|. */
  function FirstAt(events: seq<Event>): (i: nat)
    ensures i <= |events| && (i < |events| ==> LooksFirst(events[i]))
    ensures forall j :: 0 <= j < i ==> !LooksFirst(events[j])
  {
    if events == [] then 0 else
      var n := |events| - 1;
      var i := FirstAt(events[..n]);
      if i < n || LooksFirst(events[n]) then i else n + 1
  }

  /** The first message has no mandatory extension, continues our nonce and carries a salt we can use. */
  predicate Acceptable(k: Crypto, setup: ClientSetup, first: Heard) {
    var m := first.first;
    && m.Some? && !m.value.extension && R.OwnNonce(k, setup.rawNonce) <= m.value.nonce
    && k.decode64(m.value.salt).Some? && k.normalize(setup.password).Some?
  }

  function SaltedPassword(k: Crypto, setup: ClientSetup, first: Heard): string
    requires Acceptable(k, setup, first)
  {
    var m := first.first.value;
    R.Hi(k, k.normalize(setup.password).value, k.decode64(m.salt).value, m.Count())
  }

  function AuthMessageFor(k: Crypto, setup: ClientSetup, first: Heard): string
    requires Acceptable(k, setup, first)
  {
    R.AuthMessage(R.ClientFirstBare(k, setup), first.data,
                  R.ClientFinalWithoutProof(k, setup, first.first.value.nonce))
  }

  /** The event brings HMAC(ServerKey, AuthMessage) for the given first message. */
  predicate Verifies(k: Crypto, setup: ClientSetup, first: Heard, e: Event)
    requires Acceptable(k, setup, first)
  {
    && (match e case ChallengedBy(h) => h.data != "" case FinishedBy(mh) => mh.Some?)
    && (match if e.ChallengedBy? then e.h.final else e.mh.value.final
        case Some(Verifier(v)) =>
          var serverKey := R.ServerKey(k, SaltedPassword(k, setup, first));
          k.decode64(v) == Some(k.hmac(serverKey, AuthMessageFor(k, setup, first)))
        case _ => false)
  }

  /** The server has proved that it knows the server key: after the first well-formed first message,
      which was acceptable, a matching verifier came in. */
  predicate ServerProved(k: Crypto, setup: ClientSetup, events: seq<Event>) {
    var i := FirstAt(events);
    && i < |events| && Acceptable(k, setup, events[i].h)
    && exists j :: i < j < |events| && Verifies(k, setup, events[i].h, events[j])
  }

  // ---- The client meets it

  /** The client's fields after the first message. */
  predicate Holds(k: Crypto, setup: ClientSetup, first: Heard, c: Client) {
    && c.setup == setup
    && c.serverFirst == Some(first.data)
    && (c.salted.Some? <==> Acceptable(k, setup, first))
    && (c.salted.Some? ==>
          c.salted.value == SaltedPassword(k, setup, first) && c.authMessage == AuthMessageFor(k, setup, first))
  }

  predicate Tracks(k: Crypto, setup: ClientSetup, events: seq<Event>, c: Client) {
    var i := FirstAt(events);
    && (c.finished <==> ServerProved(k, setup, events))
    && if i == |events| then c == StartClient(k, setup).0 else Holds(k, setup, events[i].h, c)
  }

  lemma LaterStep(k: Crypto, setup: ClientSetup, first: Heard, c: Client, e: Event)
    requires Holds(k, setup, first, c)
    ensures var c1 := Step(k, c, e).0;
      && Holds(k, setup, first, c1)
      && (c1.finished <==> c.finished || (Acceptable(k, setup, first) && Verifies(k, setup, first, e)))
  {
  }

  lemma NoFirstStep(k: Crypto, c: Client, e: Event)
    requires c.serverFirst.None? && !LooksFirst(e)
    ensures Step(k, c, e).0 == c
  {
  }

  lemma FirstMessageStep(k: Crypto, setup: ClientSetup, e: Event)
    requires LooksFirst(e)
    ensures var c1 := Step(k, StartClient(k, setup).0, e).0;
      Holds(k, setup, e.h, c1) && !c1.finished
  {
    FirstMessageFits(k, setup, e.h.first.value);
  }

  lemma FirstMessageFits(k: Crypto, setup: ClientSetup, m: ServerFirst)
    ensures FitNonce(k, setup.rawNonce) == R.OwnNonce(k, setup.rawNonce)
    ensures var c := StartClient(k, setup).0;
      && c.bare == R.ClientFirstBare(k, setup)
      && WithoutProof(k, c, m.nonce) == R.ClientFinalWithoutProof(k, setup, m.nonce)
    ensures k.normalize(setup.password).Some? && k.decode64(m.salt).Some? ==>
      var str, salt := k.normalize(setup.password).value, k.decode64(m.salt).value;
      Hi(k, str, salt, m.Count()) == R.Hi(k, str, salt, m.Count())
  {
    R.NonceAgrees(k, setup.rawNonce);
    R.MessagesAgree(k, setup, m.nonce);
    if k.normalize(setup.password).Some? && k.decode64(m.salt).Some? {
      R.HiAgrees(k, k.normalize(setup.password).value, k.decode64(m.salt).value, m.Count());
    }
  }

  /** What the client sends, as section 3 of RFC 5802 has it: first the header and its bare message; then, to
      the first well-formed first message if it is acceptable, the proof of its password. */
  lemma ClientSends(k: Crypto, setup: ClientSetup, h: Heard)
    ensures var (c, first) := StartClient(k, setup); var reply := ClientChallenge(k, c, h).1;
      && first == Response(Some(R.Gs2Header(setup) + R.ClientFirstBare(k, setup)))
      && (if h.data == "" || h.first.None? || h.first.value.extension
             || !(R.OwnNonce(k, setup.rawNonce) <= h.first.value.nonce) then reply == Failure("bad-challenge")
          else if !Acceptable(k, setup, h) then reply == Raised
          else reply == Response(Some(FinalMessage(k, setup, h))))
  {
    R.MessagesAgree(k, setup, "");
    if h.first.Some? {
      FirstMessageFits(k, setup, h.first.value);
      if Acceptable(k, setup, h) {
        FinalMessageIs(k, setup, h);
      }
    }
  }

  function FinalMessage(k: Crypto, setup: ClientSetup, h: Heard): string
    requires Acceptable(k, setup, h)
  {
    R.ClientFinalWithoutProof(k, setup, h.first.value.nonce) + ",p="
    + k.encode64(R.ClientProof(k, SaltedPassword(k, setup, h), AuthMessageFor(k, setup, h)))
  }

  lemma FinalMessageIs(k: Crypto, setup: ClientSetup, h: Heard)
    requires Acceptable(k, setup, h)
    ensures FinalMessage(k, setup, h)
         == ClientFinalMessage(R.ClientFinalWithoutProof(k, setup, h.first.value.nonce),
                               k.encode64(R.ClientProof(k, SaltedPassword(k, setup, h), AuthMessageFor(k, setup, h))))
  {
  }

  lemma FirstAtMore(events: seq<Event>, e: Event)
    requires FirstAt(events) < |events|
    ensures FirstAt(events + [e]) == FirstAt(events) && (events + [e])[FirstAt(events)] == events[FirstAt(events)]
  {
    assert (events + [e])[..|events|] == events;
  }

  lemma VerifiedLater(k: Crypto, setup: ClientSetup, first: Heard, events: seq<Event>, e: Event, i: nat)
    requires Acceptable(k, setup, first) && i < |events|
    ensures (exists j :: i < j < |events + [e]| && Verifies(k, setup, first, (events + [e])[j]))
      <==> (exists j :: i < j < |events| && Verifies(k, setup, first, events[j])) || Verifies(k, setup, first, e)
  {
    var more := events + [e];
    assert more[|events|] == e;
    if j :| i < j < |events| && Verifies(k, setup, first, events[j]) {
      assert more[j] == events[j];
    }
    if j :| i < j < |more| && Verifies(k, setup, first, more[j]) {
      assert j < |events| ==> more[j] == events[j];
    }
  }

  lemma ProvedMore(k: Crypto, setup: ClientSetup, events: seq<Event>, e: Event)
    requires FirstAt(events) < |events|
    ensures FirstAt(events + [e]) == FirstAt(events)
    ensures ServerProved(k, setup, events + [e]) <==>
      ServerProved(k, setup, events)
      || (Acceptable(k, setup, events[FirstAt(events)].h) && Verifies(k, setup, events[FirstAt(events)].h, e))
  {
    FirstAtMore(events, e);
    var i := FirstAt(events);
    if Acceptable(k, setup, events[i].h) {
      VerifiedLater(k, setup, events[i].h, events, e, i);
    }
  }

  lemma TracksLater(k: Crypto, setup: ClientSetup, events: seq<Event>, c: Client, e: Event)
    requires Tracks(k, setup, events, c) && FirstAt(events) < |events|
    ensures Tracks(k, setup, events + [e], Step(k, c, e).0)
  {
    ProvedMore(k, setup, events, e);
    LaterStep(k, setup, events[FirstAt(events)].h, c, e);
    assert (events + [e])[FirstAt(events)] == events[FirstAt(events)];
  }

  lemma TracksFirst(k: Crypto, setup: ClientSetup, events: seq<Event>, c: Client, e: Event)
    requires Tracks(k, setup, events, c) && FirstAt(events) == |events|
    ensures Tracks(k, setup, events + [e], Step(k, c, e).0)
  {
    var more := events + [e];
    assert more[..|events|] == events;
    assert more[|events|] == e && !ServerProved(k, setup, more);
    if LooksFirst(e) {
      FirstMessageStep(k, setup, e);
    } else {
      NoFirstStep(k, c, e);
    }
  }

  lemma {:induction false} ClientTracks(k: Crypto, setup: ClientSetup, events: seq<Event>)
    ensures Tracks(k, setup, events, After(k, StartClient(k, setup).0, events))
  {
    if events != [] {
      var before, e := events[..|events| - 1], events[|events| - 1];
      ClientTracks(k, setup, before);
      assert events == before + [e];
      TracksMore(k, setup, before, After(k, StartClient(k, setup).0, before), e);
    }
  }

  lemma TracksMore(k: Crypto, setup: ClientSetup, events: seq<Event>, c: Client, e: Event)
    requires Tracks(k, setup, events, c)
    ensures Tracks(k, setup, events + [e], Step(k, c, e).0)
  {
    if FirstAt(events) < |events| {
      TracksLater(k, setup, events, c, e);
    } else {
      TracksFirst(k, setup, events, c, e);
    }
  }

  /** Client safety, over every run: finish succeeds exactly when the server has proved itself, no
      other call ever succeeds, and the identity is the client's own. */
  lemma ClientSafety(k: Crypto, setup: ClientSetup, calls: seq<Call>)
    requires calls != []
    ensures var reply := LastReply(k, setup, ParseAll(calls));
      && (reply.Success? <==> calls[|calls| - 1].Finished? && ServerProved(k, setup, ParseAll(calls)))
      && (reply.Success? ==> reply == Success(setup.username, setup.authzid, None))
  {
    SuccessMeansProved(k, setup, ParseAll(calls));
  }

  lemma SuccessMeansProved(k: Crypto, setup: ClientSetup, events: seq<Event>)
    requires events != []
    ensures var reply := LastReply(k, setup, events);
      && (reply.Success? <==> events[|events| - 1].FinishedBy? && ServerProved(k, setup, events))
      && (reply.Success? ==> reply == Success(setup.username, setup.authzid, None))
  {
    var before, e := events[..|events| - 1], events[|events| - 1];
    ClientTracks(k, setup, before);
    assert events == before + [e];
    var c := After(k, StartClient(k, setup).0, before);
    if FirstAt(before) < |before| {
      LaterReply(k, setup, before[FirstAt(before)].h, c, e);
      ProvedMore(k, setup, before, e);
    } else {
      FirstReply(k, setup, e);
      assert FirstAt(events) >= |before|;
    }
  }

  /** After the first message finish succeeds if the client is finished or the call brings the verifier. */
  lemma LaterReply(k: Crypto, setup: ClientSetup, first: Heard, c: Client, e: Event)
    requires Holds(k, setup, first, c)
    ensures var reply := Step(k, c, e).1;
      && (reply.Success? <==>
            e.FinishedBy? && (c.finished || (Acceptable(k, setup, first) && Verifies(k, setup, first, e))))
      && (reply.Success? ==> reply == Success(setup.username, setup.authzid, None))
  {
  }

  /** What the client makes of a final message: what is not a verifier is a failure, one that cannot be checked
      an exception, and one that is not the server's a failure. */
  predicate Judged(k: Crypto, setup: ClientSetup, first: Heard, final: Option<ServerFinal>, good: Reply, reply: Reply) {
    match final
    case None => reply == Failure("bad-challenge")
    case Some(Error(error)) => reply == Failure("scram-" + error)
    case Some(Verifier(v)) =>
      if !Acceptable(k, setup, first) || k.decode64(v).None? then reply == Raised
      else if k.decode64(v).value != k.hmac(R.ServerKey(k, SaltedPassword(k, setup, first)),
                                            AuthMessageFor(k, setup, first)) then reply == Failure("bad-succes")
      else reply == good
  }

  /** Every later call, in every case. */
  lemma LaterCalls(k: Crypto, setup: ClientSetup, first: Heard, c: Client, e: Event)
    requires Holds(k, setup, first, c)
    ensures var reply, done := Step(k, c, e).1, Success(setup.username, setup.authzid, None);
      match e
      case ChallengedBy(h) =>
        if h.data == "" then reply == Failure("bad-challenge")
        else if c.finished then reply == Failure("extra-challenge")
        else Judged(k, setup, first, h.final, Response(None), reply)
      case FinishedBy(mh) =>
        if c.finished then reply == done
        else if mh.None? then reply == Raised
        else Judged(k, setup, first, mh.value.final, done, reply)
  {
  }

  /** Before it, no call succeeds. */
  lemma FirstReply(k: Crypto, setup: ClientSetup, e: Event)
    ensures !Step(k, StartClient(k, setup).0, e).1.Success?
  {
  }
}
