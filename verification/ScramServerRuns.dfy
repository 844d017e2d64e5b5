/** Whatever arrives: what a SCRAM server's success means over any run. */
module ScramServerRuns {
  import opened Text
  import opened Bytes
  import opened ScramMessages
  import opened Scram
  import R = Rfc5802
  import P = ScramPatterns

  function ListenAll(responses: seq<string>): (said: seq<Said>)
    ensures |said| == |responses|
  {
    if responses == [] then [] else
      ListenAll(responses[..|responses| - 1]) + [Listen(responses[|responses| - 1])]
  }

  /** The server after a run since start, and its reply to the last response of one. */
  function After(k: Crypto, start: Server, run: seq<Said>): Server {
    if run == [] then start else ServerHears(k, After(k, start, run[..|run| - 1]), run[|run| - 1]).0
  }

  function LastReply(k: Crypto, start: Server, run: seq<Said>): Reply
    requires run != []
  {
    ServerHears(k, After(k, start, run[..|run| - 1]), run[|run| - 1]).1
  }

  // ---- The specification: nothing here speaks of the server's state, or uses its functions

  function NameOf(first: ClientFirst): string {
    R.FromSaslName(first.username)
  }

  /** The channel binding the client asks for is what the server is set up for. */
  predicate ChannelAgreed(setup: ServerSetup, first: ClientFirst) {
    && (setup.channelBinding <==> first.cbName.Some?)
    && (first.cbName.Some? ==> first.cbName.value in setup.cbTable)
    && !(setup.plusEnabled && !setup.channelBinding && "y" <= first.gs2Header)
  }

  /** Asking for the user's password raises no exception. */
  predicate LookupWorks(k: Crypto, setup: ServerSetup, user: string) {
    match setup.database(user)
    case Plain(password) => k.normalize(password).Some?
    case Missing => k.normalize("").Some?
    case SaltedNothing => false
    case _ => true
  }

  datatype UserKeys = UserKeys(salt: string, iterations: nat, storedKey: string, serverKey: string)

  function Derived(k: Crypto, salt: string, iterations: nat, salted: string): UserKeys {
    UserKeys(salt, iterations, R.StoredKey(k, salted), R.ServerKey(k, salted))
  }

  function SetupSalt(setup: ServerSetup): string {
    if setup.salt == "" then setup.randomSalt else setup.salt
  }

  /** The keys of a user whose password, salted password or keys are stored; nobody else has any. */
  function KeysIn(k: Crypto, setup: ServerSetup, user: string): Option<UserKeys> {
    match setup.database(user)
    case Plain(password) =>
      if k.normalize(password).None? then None else
        var salted := R.Hi(k, k.normalize(password).value, SetupSalt(setup), setup.iterations);
        Some(Derived(k, SetupSalt(setup), setup.iterations, salted))
    case Salted(salt, iterations, salted) => Some(Derived(k, salt, iterations, salted))
    case Keys(salt, iterations, storedKey, serverKey) => Some(UserKeys(salt, iterations, storedKey, serverKey))
    case Missing => None
    case SaltedNothing => None
  }

  /** A first message the server answers. */
  predicate Admits(k: Crypto, setup: ServerSetup, said: Said) {
    var m := said.first;
    && m.Some? && !m.value.extension && ChannelAgreed(setup, m.value) && LookupWorks(k, setup, NameOf(m.value))
  }

  function AdmittedAt(k: Crypto, setup: ServerSetup, run: seq<Said>): (i: nat)
    ensures i <= |run| && (i < |run| ==> Admits(k, setup, run[i]))
    ensures forall j :: 0 <= j < i ==> !Admits(k, setup, run[j])
  {
    if run == [] then 0 else
      var n := |run| - 1;
      var i := AdmittedAt(k, setup, run[..n]);
      if i < n || Admits(k, setup, run[n]) then i else n + 1
  }

  /** The nonce of the exchange: the client's part, then ours. */
  function JointNonce(k: Crypto, setup: ServerSetup, first: ClientFirst): string {
    first.nonce + R.OwnNonce(k, setup.rawNonce)
  }

  function AuthMessageFor(k: Crypto, setup: ServerSetup, first: ClientFirst, u: UserKeys, last: ClientFinal): string {
    R.AuthMessage(first.bare, R.ServerFirst(k, JointNonce(k, setup, first), u.salt, u.iterations), last.withoutProof)
  }

  /** What the last message says of the channel agrees with the first message and with the channel. */
  predicate BindingProved(k: Crypto, setup: ServerSetup, first: ClientFirst, last: ClientFinal) {
    var said := k.decode64(last.cb);
    && said.Some? && first.gs2Header <= said.value
    && (first.cbName.Some? ==>
          first.cbName.value in setup.cbTable && said.value == first.gs2Header + setup.cbTable[first.cbName.value])
  }

  /** The client has shown that it knows the client key of the user it named, who has one: H of what its
      proof and the signature combine to is the stored key, for the auth message of this exchange. */
  predicate ClientProved(k: Crypto, setup: ServerSetup, first: ClientFirst, final: Option<ClientFinal>) {
    var u := KeysIn(k, setup, NameOf(first));
    && u.Some? && final.Some?
    && final.value.nonce == JointNonce(k, setup, first)
    && BindingProved(k, setup, first, final.value)
    && k.decode64(final.value.proof).Some?
    && R.ProofHolds(k, u.value.storedKey, AuthMessageFor(k, setup, first, u.value, final.value),
                    k.decode64(final.value.proof).value)
  }

  /** Success with the identity that the first message names, and a signature made with its server key. */
  function SuccessFor(k: Crypto, setup: ServerSetup, first: ClientFirst, last: ClientFinal, u: UserKeys): Reply {
    Success(NameOf(first), if first.authzid.Some? then R.FromSaslName(first.authzid.value) else "",
            Some("v=" + k.encode64(k.hmac(u.serverKey, AuthMessageFor(k, setup, first, u, last)))))
  }

  // ---- The server meets it

  /** A bare first message is not empty, so the server knows that it has had one, and the header begins
      with "p" just if it names a channel binding. */
  predicate Sensible(said: Said) {
    said.first.Some? ==>
      && (!said.first.value.extension ==> said.first.value.bare != "")
      && ("p" <= said.first.value.gs2Header <==> said.first.value.cbName.Some?)
  }

  lemma ListenIsSensible(response: string)
    ensures Sensible(Listen(response))
  {
    if MatchClientFirst(response).Some? {
      var p := P.ClientFirstFound(response);
      HeaderBegins(p);
    }
  }

  lemma HeaderBegins(p: P.ClientFirstParts)
    ensures "p" <= p.Header() <==> p.cbName.Some?
  {
    assert p.Header()[0] == p.Flag()[0];
  }

  lemma BindingIsAgreement(setup: ServerSetup, said: Said)
    requires Sensible(said) && said.first.Some?
    ensures BindingAcceptable(setup, said.first.value) <==> ChannelAgreed(setup, said.first.value)
  {
    var header := said.first.value.gs2Header;
    assert "y" <= header ==> header[0] == 'y';
  }

  /** The lookup, against the cases of the database. */
  lemma LookupIs(k: Crypto, setup: ServerSetup, user: string)
    ensures var found, u := Lookup(k, setup, user), KeysIn(k, setup, user);
      && (found.Some? <==> LookupWorks(k, setup, user))
      && (found.Some? ==>
            && found.value.keys == (if u.Some? then Some((u.value.storedKey, u.value.serverKey)) else None)
            && (u.Some? ==> found.value.salt == u.value.salt && found.value.iterations == u.value.iterations))
      && (found.Some? && setup.database(user).Missing? ==>
            found == Some(Credentials(SetupSalt(setup), setup.iterations, None)))
  {
    match setup.database(user)
    case Plain(password) =>
      if k.normalize(password).Some? {
        R.HiAgrees(k, k.normalize(password).value, SetupSalt(setup), setup.iterations);
      }
    case _ =>
  }

  /** The server's fields once a first message was admitted, by the message alone. */
  ghost predicate Admitted(k: Crypto, setup: ServerSetup, first: ClientFirst, s: Server) {
    var u := KeysIn(k, setup, NameOf(first));
    && s.setup == setup && s.bare == first.bare && s.bare != "" && s.nonce == JointNonce(k, setup, first)
    && s.keys == (if u.Some? then Some((u.value.storedKey, u.value.serverKey)) else None)
    && (u.Some? ==> s.serverFirst == R.ServerFirst(k, s.nonce, u.value.salt, u.value.iterations))
    && s.cbName == first.cbName && s.gs2Header == first.gs2Header
    && s.username == NameOf(first)
    && s.authzid == if first.authzid.Some? then R.FromSaslName(first.authzid.value) else ""
  }

  lemma NamesAre(first: ClientFirst)
    ensures Unescape(first.username) == NameOf(first)
    ensures first.authzid.Some? ==> Unescape(first.authzid.value) == R.FromSaslName(first.authzid.value)
  {
    R.UnescapeIsFromSaslName(first.username);
    if first.authzid.Some? {
      R.UnescapeIsFromSaslName(first.authzid.value);
    }
  }

  lemma AdmissionStep(k: Crypto, s: Server, said: Said)
    requires s.bare == "" && Sensible(said)
    ensures var (s1, reply) := ServerHears(k, s, said);
      && s1.setup == s.setup && !reply.Success?
      && (if Admits(k, s.setup, said) then Admitted(k, s.setup, said.first.value, s1) else s1.bare == "")
  {
    if said.first.Some? {
      var first := said.first.value;
      BindingIsAgreement(s.setup, said);
      NamesAre(first);
      LookupIs(k, s.setup, NameOf(first));
      R.NonceAgrees(k, s.setup.rawNonce);
    }
  }

  /** What the server answers to a first message: a challenge with the joint nonce, the user's salt and
      count - or, to hide that there is no such user, those of the setup - or a refusal. */
  lemma FirstAnswered(k: Crypto, s: Server, said: Said)
    requires s.bare == "" && Sensible(said)
    ensures var reply := ServerHears(k, s, said).1;
      if said.first.None? || said.first.value.extension || !ChannelAgreed(s.setup, said.first.value)
        then reply == Failure("not-authorized")
      else if !Admits(k, s.setup, said) then reply == Raised
      else
        var u, nonce := KeysIn(k, s.setup, NameOf(said.first.value)), JointNonce(k, s.setup, said.first.value);
        reply == Challenge(if u.Some? then R.ServerFirst(k, nonce, u.value.salt, u.value.iterations)
                           else R.ServerFirst(k, nonce, SetupSalt(s.setup), s.setup.iterations))
  {
    if said.first.Some? {
      var first := said.first.value;
      BindingIsAgreement(s.setup, said);
      NamesAre(first);
      LookupIs(k, s.setup, NameOf(first));
      R.NonceAgrees(k, s.setup.rawNonce);
    }
  }

  lemma LaterStep(k: Crypto, s: Server, said: Said)
    requires s.bare != ""
    ensures ServerHears(k, s, said).0 == s
  {
  }

  ghost predicate Tracks(k: Crypto, setup: ServerSetup, run: seq<Said>, s: Server) {
    var i := AdmittedAt(k, setup, run);
    s.setup == setup && if i < |run| then Admitted(k, setup, run[i].first.value, s) else s.bare == ""
  }

  lemma TracksMore(k: Crypto, setup: ServerSetup, run: seq<Said>, s: Server, said: Said)
    requires Tracks(k, setup, run, s) && Sensible(said)
    ensures Tracks(k, setup, run + [said], ServerHears(k, s, said).0)
  {
    var more := run + [said];
    assert more[..|run|] == run;
    if s.bare == "" {
      AdmissionStep(k, s, said);
    } else {
      LaterStep(k, s, said);
      assert more[AdmittedAt(k, setup, run)] == run[AdmittedAt(k, setup, run)];
    }
  }

  lemma {:induction false} AfterLast(k: Crypto, start: Server, run: seq<Said>)
    requires run != []
    ensures After(k, start, run) == ServerHears(k, After(k, start, run[..|run| - 1]), run[|run| - 1]).0
  {
  }

  lemma {:induction false} ServerTracks(k: Crypto, start: Server, run: seq<Said>)
    requires start.bare == "" && forall said <- run :: Sensible(said)
    ensures Tracks(k, start.setup, run, After(k, start, run))
  {
    if run != [] {
      var before, last := run[..|run| - 1], run[|run| - 1];
      ServerTracks(k, start, before);
      AfterLast(k, start, run);
      assert run == before + [last];
      TracksMore(k, start.setup, before, After(k, start, before), last);
    }
  }

  lemma BindingChecked(k: Crypto, setup: ServerSetup, first: ClientFirst, last: ClientFinal)
    ensures BindingProved(k, setup, first, last) <==>
      var said := k.decode64(last.cb);
      && said.Some? && first.gs2Header <= said.value
      && (first.cbName.Some? ==>
            && first.cbName.value in setup.cbTable
            && said.value[|first.gs2Header|..] == setup.cbTable[first.cbName.value])
  {
    var said := k.decode64(last.cb);
    if said.Some? && first.gs2Header <= said.value && first.cbName.Some? && first.cbName.value in setup.cbTable {
      var data := setup.cbTable[first.cbName.value];
      assert said.value == first.gs2Header + said.value[|first.gs2Header|..];
      assert (first.gs2Header + data)[|first.gs2Header|..] == data;
    }
  }

  lemma ProofChecked(k: Crypto, setup: ServerSetup, first: ClientFirst, s: Server, said: Said)
    requires Admitted(k, setup, first, s)
    ensures var reply := ServerHears(k, s, said).1;
      && (reply.Success? <==> ClientProved(k, setup, first, said.final))
      && (reply.Success? ==>
            reply == SuccessFor(k, setup, first, said.final.value, KeysIn(k, setup, NameOf(first)).value))
  {
    if said.final.Some? {
      BindingChecked(k, setup, first, said.final.value);
    }
  }

  /** Every other last response, in every case: what cannot be decoded is an exception, and all else a
      refusal, whether the user exists or not. */
  lemma Refused(k: Crypto, setup: ServerSetup, first: ClientFirst, s: Server, said: Said)
    requires Admitted(k, setup, first, s) && ChannelAgreed(setup, first) && !ClientProved(k, setup, first, said.final)
    ensures ServerHears(k, s, said).1 ==
      if said.final.Some? && said.final.value.nonce == JointNonce(k, setup, first)
         && (k.decode64(said.final.value.cb).None?
             || (BindingProved(k, setup, first, said.final.value) && k.decode64(said.final.value.proof).None?))
      then Raised else Failure("not-authorized")
  {
    if said.final.Some? {
      BindingChecked(k, setup, first, said.final.value);
    }
  }

  /** Server safety, over every run since start: the last response succeeds exactly when a first message
      was admitted before it and it brings the proof that belongs to the first one admitted; the identity
      is the one which that message named. Nobody succeeds as a user for whom nothing is stored. */
  lemma ServerSafety(k: Crypto, start: Server, responses: seq<string>)
    requires start.bare == "" && responses != []
    ensures var run := ListenAll(responses); var n := |run| - 1; var reply := LastReply(k, start, run);
      var i := AdmittedAt(k, start.setup, run[..n]);
      && (reply.Success? <==> i < n && ClientProved(k, start.setup, run[i].first.value, run[n].final))
      && (reply.Success? ==>
            var first := run[i].first.value;
            reply == SuccessFor(k, start.setup, first, run[n].final.value, KeysIn(k, start.setup, NameOf(first)).value))
      && (reply.Success? ==>
            var stored := start.setup.database(NameOf(run[i].first.value)); !stored.Missing? && !stored.SaltedNothing?)
  {
    ListenAllIsSensible(responses);
    SuccessMeansProved(k, start, ListenAll(responses));
  }

  lemma {:induction false} ListenAllIsSensible(responses: seq<string>)
    ensures forall said <- ListenAll(responses) :: Sensible(said)
  {
    if responses != [] {
      ListenAllIsSensible(responses[..|responses| - 1]);
      ListenIsSensible(responses[|responses| - 1]);
    }
  }

  lemma SuccessMeansProved(k: Crypto, start: Server, run: seq<Said>)
    requires start.bare == "" && run != [] && forall said <- run :: Sensible(said)
    ensures var n := |run| - 1; var reply := LastReply(k, start, run); var i := AdmittedAt(k, start.setup, run[..n]);
      && (reply.Success? <==> i < n && ClientProved(k, start.setup, run[i].first.value, run[n].final))
      && (reply.Success? ==>
            var first := run[i].first.value;
            reply == SuccessFor(k, start.setup, first, run[n].final.value, KeysIn(k, start.setup, NameOf(first)).value))
  {
    var before, last := run[..|run| - 1], run[|run| - 1];
    ServerTracks(k, start, before);
    var s := After(k, start, before);
    var i := AdmittedAt(k, start.setup, before);
    if i < |before| {
      assert before[i] == run[i];
      ProofChecked(k, start.setup, run[i].first.value, s, last);
    } else {
      AdmissionStep(k, s, last);
    }
  }
}
