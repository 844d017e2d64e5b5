/** The SCRAM authenticator objects, method by method against the state functions of Scram
    (pyxmpp2/sasl/scram.py). */
module ScramAuthenticators {
  import opened Text
  import opened Bytes
  import opened ScramMessages
  import opened Scram
  import opened ScramHonest

  /** The properties start reads; `keys` are those of the channel binding data in the dictionary's order. */
  datatype Properties = Properties(username: string, password: string, authzid: string, rawNonce: string,
                                   cbData: map<string, string>, keys: seq<string>, plusEnabled: bool)
  {
    ghost predicate Valid() {
      forall key :: key in keys <==> key in cbData
    }

    /** The channel binding type that is picked: None is the ValueError for no data. */
    function CbType(): (r: Option<string>)
      requires Valid()
      ensures r.None? <==> cbData == map[]
      ensures r.Some? ==> r.value in cbData
    {
      if "tls-unique" in cbData then Some("tls-unique")
      else if "tls-server-end-point" in cbData then Some("tls-server-end-point")
      else if keys != [] then
        assert keys[0] in cbData;
        Some(keys[0])
      else
        assert forall key :: key !in cbData;
        None
    }

    /** What they come to for an authenticator with or without channel binding. */
    function Setup(channelBinding: bool): ClientSetup
      requires Valid()
    {
      var cbType := if channelBinding then CbType() else None;
      ClientSetup(channelBinding, username, password, authzid, rawNonce, if cbType.Some? then cbType.value else "",
                  if cbType.Some? then cbData[cbType.value] else "", plusEnabled)
    }
  }

  class SCRAMClientAuthenticator {
    const k: Crypto
    const channelBinding: bool
    var setup: ClientSetup
    var cNonce: string
    var gs2Header: string
    var clientFirstMessageBare: string
    var password: Option<string>
    var serverFirstMessage: Option<string>
    var saltedPassword: Option<string>
    var authMessage: string
    var finished: bool

    ghost function Now(): Client
      reads this
    {
      Client(setup, cNonce, gs2Header, clientFirstMessageBare, password, serverFirstMessage, saltedPassword,
             authMessage, finished)
    }

    constructor (k: Crypto, channelBinding: bool)
      ensures this.k == k && this.channelBinding == channelBinding
      ensures serverFirstMessage.None? && saltedPassword.None? && !finished && authMessage == ""
    {
      this.k, this.channelBinding := k, channelBinding;
      setup := ClientSetup(channelBinding, "", "", "", "", "", "", false);
      cNonce, gs2Header, clientFirstMessageBare, password := "", "", "", None;
      serverFirstMessage, saltedPassword, authMessage, finished := None, None, "", false;
    }

    /** The part of start that picks the channel binding. */
    method ChooseBinding(props: Properties) returns (cbType: Option<string>)
      requires props.Valid()
      ensures cbType.None? <==> props.cbData == map[]
      ensures cbType.Some? ==> cbType.value in props.cbData
      ensures "tls-unique" in props.cbData ==> cbType == Some("tls-unique")
      ensures "tls-unique" !in props.cbData && "tls-server-end-point" in props.cbData ==>
        cbType == Some("tls-server-end-point")
      ensures "tls-unique" !in props.cbData && "tls-server-end-point" !in props.cbData && props.cbData != map[] ==>
        cbType == Some(props.keys[0])
      ensures cbType == props.CbType()
    {
      if props.keys == [] {
        assert forall key :: key !in props.cbData;
        return None;
      }
      assert props.keys[0] in props.cbData;
      if "tls-unique" in props.cbData {
        cbType := Some("tls-unique");
      } else if "tls-server-end-point" in props.cbData {
        cbType := Some("tls-server-end-point");
      } else {
        cbType := Some(props.keys[0]);
      }
    }

    /** start: an exception exactly for channel binding without data; otherwise the first message. What an
        earlier exchange left is not cleared. */
    method Start(props: Properties) returns (reply: Reply)
      requires props.Valid()
      modifies this
      ensures reply.Raised? <==> channelBinding && props.cbData == map[]
      ensures var (c, first) := StartClient(k, props.Setup(channelBinding));
        !reply.Raised? ==>
          && reply == first
          && Now() == c.(serverFirst := old(serverFirstMessage), salted := old(saltedPassword),
                         authMessage := old(authMessage), finished := old(finished))
    {
      setup := props.Setup(channelBinding);
      password := Some(props.password);
      cNonce := props.rawNonce;
      if !MatchesValueChars(cNonce) {
        cNonce := k.encode64(cNonce);
      }
      var flag := if props.plusEnabled then "y" else "n";
      if channelBinding {
        var cbType := ChooseBinding(props);
        if cbType.None? {
          return Raised;
        }
        flag := "p=" + cbType.value;
      }
      var authzid := if props.authzid != "" then "a=" + Escape(props.authzid) else "";
      gs2Header := flag + "," + authzid + ",";
      clientFirstMessageBare := "n=" + Escape(props.username) + "," + ("r=" + cNonce);
      reply := Response(Some(gs2Header + clientFirstMessageBare));
    }

    method Challenge(challenge: string) returns (reply: Reply)
      modifies this
      ensures (Now(), reply) == ClientChallenge(k, old(Now()), Hear(challenge))
    {
      if challenge == "" {
        return Failure("bad-challenge");
      }
      if serverFirstMessage.Some? {
        reply := FinalChallenge(challenge);
        return;
      }
      var matched := MatchServerFirst(challenge);
      if matched.None? {
        return Failure("bad-challenge");
      }
      serverFirstMessage := Some(challenge);
      reply := TakeFirst(matched.value);
    }

    /** The part of challenge after a first message was recognised. */
    method TakeFirst(m: ServerFirst) returns (reply: Reply)
      requires serverFirstMessage.Some?
      modifies this
      ensures (Now(), reply) == FirstChallenge(k, old(Now()), m)
    {
      if m.extension {
        return Failure("bad-challenge");
      }
      if !(cNonce <= m.nonce) {
        return Failure("bad-challenge");
      }
      var salt := k.decode64(m.salt);
      if salt.None? {
        return Raised;
      }
      reply := MakeResponse(m.nonce, salt.value, m.Count());
    }

    method MakeResponse(nonce: string, salt: string, iterations: nat) returns (reply: Reply)
      requires serverFirstMessage.Some?
      modifies this
      ensures (Now(), reply) == Scram.MakeResponse(k, old(Now()), nonce, salt, iterations)
    {
      if password.None? {
        return Raised;
      }
      var normal := k.normalize(password.value);
      if normal.None? {
        return Raised;
      }
      var salted := ComputeHi(k, normal.value, salt, iterations);
      saltedPassword := Some(salted);
      password := None;
      var cbInput := gs2Header + (if setup.channelBinding then setup.cbData else "");
      var withoutProof := "c=" + k.encode64(cbInput) + ",r=" + nonce;
      var clientKey := k.hmac(salted, "Client Key");
      var storedKey := k.h(clientKey);
      authMessage := clientFirstMessageBare + "," + serverFirstMessage.value + "," + withoutProof;
      var clientSignature := k.hmac(storedKey, authMessage);
      var proof := Xor(clientKey, clientSignature);
      reply := Response(Some(withoutProof + "," + ("p=" + k.encode64(proof))));
    }

    method FinalChallenge(challenge: string) returns (reply: Reply)
      modifies this
      ensures (Now(), reply) == Scram.FinalChallenge(k, old(Now()), MatchServerFinal(challenge))
    {
      if finished {
        return Failure("extra-challenge");
      }
      match MatchServerFinal(challenge) {
        case None =>
          return Failure("bad-challenge");
        case Some(Error(error)) =>
          return Failure("scram-" + error);
        case Some(Verifier(verifier)) =>
          if saltedPassword.None? {
            return Raised;
          }
          var serverKey := k.hmac(saltedPassword.value, "Server Key");
          var serverSignature := k.hmac(serverKey, authMessage);
          var received := k.decode64(verifier);
          if received.None? {
            return Raised;
          }
          if serverSignature != received.value {
            return Failure("bad-succes");
          }
          finished := true;
          return Response(None);
      }
    }

    method Finish(data: Option<string>) returns (reply: Reply)
      modifies this
      ensures (Now(), reply) == Scram.Finish(k, old(Now()), HearMaybe(data))
    {
      if serverFirstMessage.None? {
        return Failure("bad-success");
      }
      if finished {
        return Success(setup.username, setup.authzid, None);
      }
      if data.None? {
        return Raised;
      }
      var ret := FinalChallenge(data.value);
      if ret.Failure? || ret.Raised? {
        return ret;
      }
      if finished {
        return Success(setup.username, setup.authzid, None);
      }
      return Failure("bad-success");
    }
  }

  class SCRAMServerAuthenticator {
    const k: Crypto
    const setup: ServerSetup
    var clientFirstMessageBare: string
    var serverFirstMessage: string
    var nonce: string
    var cbName: Option<string>
    var gs2Header: string
    var keys: Option<(string, string)>
    var outUsername: string
    var outAuthzid: string

    ghost function Now(): Server
      reads this
    {
      Server(setup, clientFirstMessageBare, serverFirstMessage, nonce, cbName, gs2Header, keys, outUsername, outAuthzid)
    }

    constructor (k: Crypto, setup: ServerSetup)
      ensures this.k == k && this.setup == setup && Now() == FreshServer(setup)
    {
      this.k, this.setup := k, setup;
      clientFirstMessageBare, serverFirstMessage, nonce, cbName, gs2Header := "", "", "", None, "";
      keys, outUsername, outAuthzid := None, "", "";
    }

    method Start(initialResponse: string) returns (reply: Reply)
      modifies this
      ensures (Now(), reply) == StartServer(k, old(Now()), initialResponse)
    {
      clientFirstMessageBare, outUsername, outAuthzid := "", "", "";
      if initialResponse == "" {
        return Challenge("");
      }
      reply := Response(initialResponse);
    }

    method Response(response: string) returns (reply: Reply)
      modifies this
      ensures (Now(), reply) == ServerResponse(k, old(Now()), response)
    {
      if clientFirstMessageBare != "" {
        reply := HandleFinalResponse(response);
      } else {
        reply := HandleFirstResponse(response);
      }
    }

    /** The channel binding checks of the first message. */
    method CheckBinding(m: ClientFirst) returns (ok: bool)
      ensures ok == BindingAcceptable(setup, m)
      ensures setup.channelBinding && ok ==> m.cbName.Some? && m.cbName.value in setup.cbTable
      ensures !setup.channelBinding && "y" <= m.gs2Header && setup.plusEnabled ==> !ok
    {
      if setup.channelBinding {
        return m.cbName.Some? && m.cbName.value in setup.cbTable;
      }
      if "y" <= m.gs2Header {
        return !setup.plusEnabled;
      }
      return !("p" <= m.gs2Header);
    }

    method MakeNonce() returns (sNonce: string)
      ensures sNonce == FitNonce(k, setup.rawNonce)
      ensures Lawful(k) && NonceOk(setup.rawNonce) ==>
        All(sNonce, IsValueChar) && (sNonce == "" <==> setup.rawNonce == "")
    {
      if Lawful(k) && NonceOk(setup.rawNonce) {
        FitNonceIsValue(k, setup.rawNonce);
      }
      sNonce := setup.rawNonce;
      if !MatchesValueChars(sNonce) {
        sNonce := k.encode64(sNonce);
      }
    }

    /** The password database section; None for an exception. */
    method LookUpKeys(username: string) returns (r: Option<Credentials>)
      ensures r == Lookup(k, setup, username)
    {
      var salt := if setup.salt != "" then setup.salt else setup.randomSalt;
      match setup.database(username) {
        case SaltedNothing =>
          return None;
        case Salted(itsSalt, itsCount, salted) =>
          var clientKey := k.hmac(salted, "Client Key");
          return Some(Credentials(itsSalt, itsCount, Some((k.h(clientKey), k.hmac(salted, "Server Key")))));
        case Keys(itsSalt, itsCount, storedKey, serverKey) =>
          return Some(Credentials(itsSalt, itsCount, Some((storedKey, serverKey))));
        case Plain(password) =>
          var normal := k.normalize(password);
          if normal.None? {
            return None;
          }
          var salted := ComputeHi(k, normal.value, salt, setup.iterations);
          var clientKey := k.hmac(salted, "Client Key");
          return Some(Credentials(salt, setup.iterations, Some((k.h(clientKey), k.hmac(salted, "Server Key")))));
        case Missing =>
          var normal := k.normalize("");
          if normal.None? {
            return None;
          }
          var dummy := ComputeHi(k, normal.value, salt, setup.iterations);
          return Some(Credentials(salt, setup.iterations, None));
      }
    }

    method HandleFirstResponse(response: string) returns (reply: Reply)
      modifies this
      ensures (Now(), reply) == FirstResponse(k, old(Now()), MatchClientFirst(response))
    {
      var matched := MatchClientFirst(response);
      if matched.None? {
        return Failure("not-authorized");
      }
      reply := AnswerFirst(matched.value);
    }

    /** The rest of _handle_first_response. */
    method AnswerFirst(m: ClientFirst) returns (reply: Reply)
      modifies this
      ensures (Now(), reply) == FirstAnswer(k, old(Now()), m)
    {
      var bindingOk := CheckBinding(m);
      if m.extension || !bindingOk {
        return Failure("not-authorized");
      }
      outAuthzid := if m.authzid.Some? then Unescape(m.authzid.value) else "";
      outUsername := Unescape(m.username);
      var credentials := LookUpKeys(outUsername);
      if credentials.None? {
        return Raised;
      }
      keys := credentials.value.keys;
      var sNonce := MakeNonce();
      nonce := m.nonce + sNonce;
      serverFirstMessage := "r=" + nonce + ",s=" + k.encode64(credentials.value.salt)
                            + ",i=" + Decimal(credentials.value.iterations);
      cbName, gs2Header, clientFirstMessageBare := m.cbName, m.gs2Header, m.bare;
      reply := Challenge(serverFirstMessage);
    }

    method HandleFinalResponse(response: string) returns (reply: Reply)
      ensures (Now(), reply) == FinalResponse(k, Now(), MatchClientFinal(response))
    {
      var matched := MatchClientFinal(response);
      if matched.None? {
        return Failure("not-authorized");
      }
      var m := matched.value;
      if m.nonce != nonce {
        return Failure("not-authorized");
      }
      var cbInput := k.decode64(m.cb);
      if cbInput.None? {
        return Raised;
      }
      if !(gs2Header <= cbInput.value) {
        return Failure("not-authorized");
      }
      if cbName.Some? {
        if cbName.value !in setup.cbTable {
          return Raised;
        }
        if cbInput.value[|gs2Header|..] != setup.cbTable[cbName.value] {
          return Failure("not-authorized");
        }
      }
      var proof := k.decode64(m.proof);
      if proof.None? {
        return Raised;
      }
      if keys.None? {
        return Failure("not-authorized");
      }
      var (storedKey, serverKey) := keys.value;
      var auth := clientFirstMessageBare + "," + serverFirstMessage + "," + m.withoutProof;
      var clientSignature := k.hmac(storedKey, auth);
      var clientKey := Xor(clientSignature, proof.value);
      if k.h(clientKey) != storedKey {
        return Failure("not-authorized");
      }
      var serverSignature := k.hmac(serverKey, auth);
      reply := Success(outUsername, outAuthzid, Some("v=" + k.encode64(serverSignature)));
    }
  }
}
